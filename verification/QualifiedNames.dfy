/** How the engine reads `a.b.c`: the longest bound prefix of the chain is one name, and the rest are fields. */
module QualifiedNames {
  import opened Values
  import opened Plans
  import opened Engine

  /** The unquoted chain of these names. */
  function Chain(names: seq<Text>): Plan
    requires names != []
  {
    if |names| == 1 then Ident(names[0]) else Select(Chain(names[..|names| - 1]), names[|names| - 1], false)
  }

  function Joined(names: seq<Text>): Text
    requires names != []
  {
    if |names| == 1 then names[0] else Joined(names[..|names| - 1]) + [DOT] + names[|names| - 1]
  }

  lemma {:induction false} ChainSpells(names: seq<Text>)
    requires names != []
    ensures Unquoted(Chain(names)) && ChainRoot(Chain(names)) == Some(names[0])
    ensures QualifiedName(Chain(names)) == Some(Joined(names))
  {
    if |names| > 1 {
      ChainSpells(names[..|names| - 1]);
    }
  }

  /** How many names of the chain the longest name that resolves as a whole takes; 0 when none does. */
  function Longest(host: Host, b: Bindings, names: seq<Text>): (n: nat)
    requires names != []
    ensures n <= |names|
    ensures n > 0 ==> Resolve(host, b, Joined(names[..n])).Some?
    ensures forall k :: n < k <= |names| ==> Resolve(host, b, Joined(names[..k])).None?
  {
    assert names[..|names|] == names;
    if Resolve(host, b, Joined(names)).Some? then |names|
    else if |names| == 1 then 0
    else
      var shorter := names[..|names| - 1];
      assert forall k :: 0 <= k <= |shorter| ==> shorter[..k] == names[..k];
      Longest(host, b, shorter)
  }

  /** Selection of the remaining names, one after the other, from what the first k of them mean. */
  function Fields(host: Host, names: seq<Text>, k: nat, start: Result<Value>): Result<Value>
    requires 1 <= k <= |names|
  {
    if k == |names| then start
    else
      var t :- Fields(host, names[..|names| - 1], k, start);
      if t.Foreign? then host.foreign(Chain(names), [t]) else Selected(t, names[|names| - 1])
  }

  /** What the root alone means when it is neither bound nor a built-in type. */
  function Unbound(name: Text): Result<Value> {
    if TypeName(name) then Ok(Foreign(name)) else Err(UndeclaredReference)
  }

  /** Longest-prefix resolution of every chain whose root is no comprehension variable. */
  lemma {:induction false} LongestPrefixWins(host: Host, b: Bindings, locals: seq<Local>, names: seq<Text>)
    requires names != [] && FindLocal(locals, names[0]).None?
    ensures var k := Longest(host, b, names);
            Eval(host, b, locals, Chain(names))
            == if k == 0 then Fields(host, names, 1, Unbound(names[0]))
               else Fields(host, names, k, Ok(Resolve(host, b, Joined(names[..k])).value))
  {
    ChainSpells(names);
    assert names[..|names|] == names;
    if |names| > 1 && Resolve(host, b, Joined(names)).None? {
      var shorter := names[..|names| - 1];
      LongestPrefixWins(host, b, locals, shorter);
      assert forall k :: 0 <= k <= |shorter| ==> shorter[..k] == names[..k];
    }
  }

  /** A comprehension variable shadows every binding its chains could spell. */
  lemma {:induction false} LocalsShadow(host: Host, b: Bindings, locals: seq<Local>, names: seq<Text>)
    requires names != [] && FindLocal(locals, names[0]).Some?
    ensures Eval(host, b, locals, Chain(names)) == Fields(host, names, 1, Ok(FindLocal(locals, names[0]).value))
  {
    ChainSpells(names);
    if |names| > 1 {
      LocalsShadow(host, b, locals, names[..|names| - 1]);
    }
  }

  /** Where no dotted prefix of the chain resolves, it is read field by field from its root. */
  lemma {:induction false} FieldByField(host: Host, b: Bindings, locals: seq<Local>, names: seq<Text>)
    requires names != []
    requires FindLocal(locals, names[0]).None? ==>
               forall k :: 2 <= k <= |names| ==> Resolve(host, b, Joined(names[..k])).None?
    ensures Eval(host, b, locals, Chain(names)) == Fields(host, names, 1, Eval(host, b, locals, Ident(names[0])))
  {
    if FindLocal(locals, names[0]).Some? {
      LocalsShadow(host, b, locals, names);
    } else {
      LongestPrefixWins(host, b, locals, names);
      assert names[..1] == [names[0]];
    }
  }
}
