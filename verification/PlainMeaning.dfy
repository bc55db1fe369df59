/** What the engine receives through the flattened form is what the compiled JavaScript function reads. */
module PlainMeaning {
  import opened Values
  import opened Encodings
  import opened PlainStream
  import opened PlainValues
  import opened PlainRoundTrip
  import opened JavaScriptTarget
  import JavaScriptNumbers
  import JavaScriptSoundness
  import Engine

  /** The binding tree that a value of the object graph is: numbers without a fraction, objects by their properties.
      What is outside the plain-data shape may be anything. */
  ghost predicate Denotes(g: Graph, v: JsValue, j: JsVal)
    decreases j, 1
  {
    match v
    case JsBoolean(b) => j == JBool(b)
    case JsString(units) => j == JText(units)
    case JsBigInt(n) => j == JBigInt(n)
    case JsDouble(Finite(r)) => if r == r.Floor as real then j == JNumber(r.Floor) else j.JOther?
    case JsObject(ref) =>
      (match g(ref)
       case ArrayNode(items) =>
         && j.JList? && |j.items| == |items|
         && forall i :: 0 <= i < |items| ==> Denotes(g, items[i], j.items[i])
       case PlainNode(properties) =>
         && j.JObject?
         && FieldsDenoted(g, properties, j)
       case _ => j.JOther?)
    case JsUndefined => j.JUndefined?
    case _ => j.JOther?
  }

  /** The fields of an object are its named properties. */
  ghost predicate FieldsDenoted(g: Graph, properties: seq<Property>, j: JsVal)
    requires j.JObject?
    decreases j, 0
  {
    && (forall i :: 0 <= i < |properties| && Named(properties[i]) ==>
          && NameOf(properties[i]) in j.fields
          && Denotes(g, properties[i].value, j.fields[NameOf(properties[i])]))
    && (forall name :: name in j.fields ==>
          exists i :: 0 <= i < |properties| && Named(properties[i]) && NameOf(properties[i]) == name)
  }

  predicate Named(p: Property) {
    p.key.StringKey? && WellFormedUtf16(p.key.units)
  }

  function NameOf(p: Property): Text
    requires Named(p)
  {
    ReadUtf16(p.key.units)
  }

  /** What the engine makes of a decoded tree: numbers are integers where doubles hold them exactly. */
  ghost predicate Means(t: Tree, v: Value)
    decreases t, 1
  {
    match t
    case BoolTree(b) => v == VBool(b)
    case NumberTree(d) =>
      if d.Finite? && d.r == d.r.Floor as real && -9_007_199_254_740_992 < d.r.Floor < 9_007_199_254_740_992
      then v == VInt(d.r.Floor) else v.Foreign?
    case BigIntTree(n) => v == VInt(n)
    case StringTree(bytes) => v.VText? && WellFormed(v.t) && Write(UTF_8, v.t) == bytes
    case ListTree(items) =>
      && v.VList? && |v.items| == |items|
      && forall i :: 0 <= i < |items| ==> Means(items[i], v.items[i])
    case MapTree(entries) => v.VMap? && EntriesMean(t, v.fields)
    case NullTree | DeferredTree(_) => v.Foreign?
  }

  /** The entries of a decoded map are the fields, by the texts of their keys. */
  ghost predicate EntriesMean(t: Tree, fields: map<Values.Key, Value>)
    requires t.MapTree?
    decreases t, 0
  {
    && (forall i :: 0 <= i < |t.entries| ==> EntryMeans(t, i, fields))
    && (forall k :: k in fields ==>
          k.TextKey? && exists i :: 0 <= i < |t.entries| && IsEntry(t.entries[i].key, k.t, fields))
  }

  ghost predicate EntryMeans(t: Tree, i: nat, fields: map<Values.Key, Value>)
    requires t.MapTree? && i < |t.entries|
    decreases t, 0, 0
  {
    exists name :: IsEntry(t.entries[i].key, name, fields) && Means(t.entries[i].value, fields[TextKey(name)])
  }

  predicate IsEntry(key: seq<Unit>, t: Text, fields: map<Values.Key, Value>) {
    WellFormed(t) && Write(UTF_8, t) == key && TextKey(t) in fields
  }

  lemma {:induction false} UnfoldedItem(g: Graph, items: seq<JsValue>, path: seq<Ref>, i: nat)
    requires i < |items| && UnfoldItems(g, items, path).Some?
    ensures Unfold(g, items[i], path) == Some(UnfoldItems(g, items, path).value[i])
  {
    if i < |items| - 1 {
      UnfoldedItem(g, items[..|items| - 1], path, i);
    }
  }

  lemma {:induction false} UnfoldedEntry(g: Graph, properties: seq<Property>, path: seq<Ref>, i: nat)
    requires i < |properties| && UnfoldEntries(g, properties, path).Some?
    ensures Named(properties[i]) && Unfold(g, properties[i].value, path).Some?
    ensures UnfoldEntries(g, properties, path).value[i]
         == Entry(Utf8(properties[i].key.units), Unfold(g, properties[i].value, path).value)
  {
    if i < |properties| - 1 {
      UnfoldedEntry(g, properties[..|properties| - 1], path, i);
    }
  }

  /** Whatever the encoder takes, the engine receives the value that the compiled function reads. */
  lemma {:induction false} SentIsMeant(g: Graph, v: JsValue, path: seq<Ref>, j: JsVal)
    requires Unfold(g, v, path).Some? && Denotes(g, v, j)
    ensures Means(Unfold(g, v, path).value, JavaScriptSoundness.Cel(j))
    decreases j, 1
  {
    if v.JsObject? && g(v.ref).ArrayNode? {
      ItemsSent(g, g(v.ref).items, path + [v.ref], j);
    } else if v.JsObject? && g(v.ref).PlainNode? {
      EntriesSent(g, g(v.ref).properties, path + [v.ref], j);
      ObjectIsMap(j);
    }
  }

  lemma {:induction false} ObjectIsMap(j: JsVal)
    requires j.JObject?
    ensures JavaScriptSoundness.Cel(j) == VMap(JavaScriptSoundness.CelBindings(j.fields))
  {
  }

  lemma {:induction false} ItemsSent(g: Graph, items: seq<JsValue>, path: seq<Ref>, j: JsVal)
    requires UnfoldItems(g, items, path).Some? && j.JList? && |j.items| == |items|
    requires forall i :: 0 <= i < |items| ==> Denotes(g, items[i], j.items[i])
    ensures Means(ListTree(UnfoldItems(g, items, path).value), JavaScriptSoundness.Cel(j))
    decreases j, 0
  {
    var trees := UnfoldItems(g, items, path).value;
    forall i | 0 <= i < |items| ensures Means(trees[i], JavaScriptSoundness.Cel(j.items[i])) {
      UnfoldedItem(g, items, path, i);
      SentIsMeant(g, items[i], path, j.items[i]);
    }
  }

  lemma {:induction false} EntriesSent(g: Graph, properties: seq<Property>, path: seq<Ref>, j: JsVal)
    requires UnfoldEntries(g, properties, path).Some? && j.JObject? && FieldsDenoted(g, properties, j)
    ensures EntriesMean(MapTree(UnfoldEntries(g, properties, path).value), JavaScriptSoundness.CelBindings(j.fields))
    decreases j, 0
  {
    hide Means, Denotes, UnfoldEntries;
    var t, fields := MapTree(UnfoldEntries(g, properties, path).value), JavaScriptSoundness.CelBindings(j.fields);
    forall i | 0 <= i < |properties| ensures EntryMeans(t, i, fields) {
      UnfoldedEntry(g, properties, path, i);
      var name := NameOf(properties[i]);
      SentIsMeant(g, properties[i].value, path, j.fields[name]);
      JavaScriptSoundness.FieldIsCel(j.fields, name);
      assert IsEntry(t.entries[i].key, name, fields) && Means(t.entries[i].value, fields[TextKey(name)]);
    }
    forall k | k in fields
      ensures k.TextKey? && exists i :: 0 <= i < |t.entries| && IsEntry(t.entries[i].key, k.t, fields)
    {
      var i :| 0 <= i < |properties| && Named(properties[i]) && NameOf(properties[i]) == k.t;
      UnfoldedEntry(g, properties, path, i);
      assert IsEntry(t.entries[i].key, k.t, fields);
    }
  }

  /** Bindings: what the engine decodes are the bindings the results about compiled functions speak of. */
  lemma {:induction false} BindingsSent(g: Graph, root: Ref, b: map<Text, JsVal>)
    requires g(root).PlainNode? && FieldsDenoted(g, g(root).properties, JObject(b))
    requires UnfoldEntries(g, g(root).properties, [root]).Some?
    ensures EntriesMean(MapTree(UnfoldEntries(g, g(root).properties, [root]).value), JavaScriptSoundness.CelBindings(b))
  {
    EntriesSent(g, g(root).properties, [root], JObject(b));
  }

  /** Of what the encoder takes, the decoder takes exactly what the results about compiled functions call converted,
      deferred values aside. */
  lemma {:induction false} ReadableConverts(host: Engine.Host, g: Graph, v: JsValue, path: seq<Ref>, j: JsVal)
    requires Unfold(g, v, path).Some? && Denotes(g, v, j) && forall tag :: host.converts(tag)
    ensures Readable(Unfold(g, v, path).value) <==> JavaScriptSoundness.ValueConverts(host, j)
    decreases j, 1
  {
    if v.JsObject? && g(v.ref).ArrayNode? {
      ItemsConvert(host, g, g(v.ref).items, path + [v.ref], j);
    } else if v.JsObject? && g(v.ref).PlainNode? {
      EntriesConvert(host, g, g(v.ref).properties, path + [v.ref], j);
    }
  }

  lemma {:induction false} ItemsConvert(host: Engine.Host, g: Graph, items: seq<JsValue>, path: seq<Ref>, j: JsVal)
    requires UnfoldItems(g, items, path).Some? && j.JList? && |j.items| == |items|
    requires (forall i :: 0 <= i < |items| ==> Denotes(g, items[i], j.items[i])) && forall tag :: host.converts(tag)
    ensures Readable(ListTree(UnfoldItems(g, items, path).value)) <==> JavaScriptSoundness.ValueConverts(host, j)
    decreases j, 0
  {
    var trees := UnfoldItems(g, items, path).value;
    forall i | 0 <= i < |items|
      ensures Readable(trees[i]) <==> JavaScriptSoundness.ValueConverts(host, j.items[i])
    {
      UnfoldedItem(g, items, path, i);
      ReadableConverts(host, g, items[i], path, j.items[i]);
    }
  }

  lemma {:induction false} EntriesConvert(host: Engine.Host, g: Graph, properties: seq<Property>, path: seq<Ref>,
      j: JsVal)
    requires UnfoldEntries(g, properties, path).Some? && j.JObject? && FieldsDenoted(g, properties, j)
    requires forall tag :: host.converts(tag)
    ensures Readable(MapTree(UnfoldEntries(g, properties, path).value)) <==> JavaScriptSoundness.ValueConverts(host, j)
    decreases j, 0
  {
    var entries := UnfoldEntries(g, properties, path).value;
    forall i | 0 <= i < |properties|
      ensures Named(properties[i]) && NameOf(properties[i]) in j.fields && WellFormed(NameOf(properties[i]))
      ensures Readable(entries[i].value) <==>
                JavaScriptSoundness.ValueConverts(host, j.fields[NameOf(properties[i])])
    {
      UnfoldedEntry(g, properties, path, i);
      ReadableConverts(host, g, properties[i].value, path, j.fields[NameOf(properties[i])]);
    }
    hide Denotes, UnfoldEntries, NameOf;
    if Readable(MapTree(entries)) {
      forall name | name in j.fields
        ensures WellFormed(name) && JavaScriptSoundness.ValueConverts(host, j.fields[name])
      {
        var i :| 0 <= i < |properties| && Named(properties[i]) && NameOf(properties[i]) == name;
      }
    }
  }
}
