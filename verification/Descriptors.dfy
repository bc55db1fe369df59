/** Loading a set of descriptor files into a pool, where a file can only be built after the files it depends on. */
module Descriptors {
  import opened Values

  datatype File = File(name: Text, dependencies: seq<Text>)

  datatype Status = StatusOk | StatusInvalid | StatusLimit

  function Names(files: seq<File>): set<Text> {
    set f | f in files :: f.name
  }

  predicate Unique(files: seq<File>) {
    forall i, j :: 0 <= i < j < |files| ==> files[i].name != files[j].name
  }

  /** Every file comes after its dependencies. */
  ghost predicate Ordered(pool: seq<File>) {
    forall i, d :: 0 <= i < |pool| && d in pool[i].dependencies ==> d in Names(pool[..i])
  }

  /** The pool that refuses nothing but what its builder refuses, given what was built before. */
  ghost predicate Built(builds: (seq<File>, File) -> bool, pool: seq<File>) {
    forall i :: 0 <= i < |pool| ==> builds(pool[..i], pool[i])
  }

  /** No dependency is missing. */
  ghost predicate Closed(files: seq<File>) {
    forall f, d :: f in files && d in f.dependencies ==> d in Names(files)
  }

  ghost predicate DependsOn(files: seq<File>, a: Text, b: Text) {
    exists f :: f in files && f.name == a && b in f.dependencies
  }

  ghost predicate Path(files: seq<File>, path: seq<Text>) {
    forall i :: 0 <= i < |path| - 1 ==> DependsOn(files, path[i], path[i + 1])
  }

  ghost predicate Acyclic(files: seq<File>) {
    forall path :: |path| >= 2 && Path(files, path) ==> path[0] != path[|path| - 1]
  }

  /** An order of building, the same files each exactly once. */
  ghost predicate Loads(files: seq<File>, pool: seq<File>) {
    multiset(pool) == multiset(files) && Unique(pool) && Ordered(pool)
  }

  /** Some of the files, each after its dependencies, and one that is next: it is not among them, and its dependencies
      are. */
  ghost predicate Next(files: seq<File>, built: seq<File>, f: File) {
    && (forall g :: g in built ==> g in files) && Unique(built) && Ordered(built)
    && f in files && f.name !in Names(built) && forall d :: d in f.dependencies ==> d in Names(built)
  }

  // ----- no order without closed, acyclic dependencies -----

  /** Along dependencies the position in the pool decreases. */
  lemma {:induction false} Descends(files: seq<File>, pool: seq<File>, path: seq<Text>, i: nat, j: nat)
    requires Loads(files, pool) && |path| >= 2 && Path(files, path)
    requires i < |pool| && pool[i].name == path[0] && j < |pool| && pool[j].name == path[|path| - 1]
    ensures j < i
    decreases |path|
  {
    assert DependsOn(files, path[0], path[1]);
    var f :| f in files && f.name == path[0] && path[1] in f.dependencies;
    assert f in multiset(pool);
    var k :| 0 <= k < |pool| && pool[k] == f;
    assert k == i;
    assert path[1] in Names(pool[..i]);
    var g :| g in pool[..i] && g.name == path[1];
    var m :| 0 <= m < i && pool[m] == g;
    if |path| == 2 {
      assert j == m;
    } else {
      assert path[1..][|path| - 2] == path[|path| - 1];
      assert Path(files, path[1..]) by {
        forall n | 0 <= n < |path[1..]| - 1 ensures DependsOn(files, path[1..][n], path[1..][n + 1]) {
          assert DependsOn(files, path[n + 1], path[n + 2]);
        }
      }
      Descends(files, pool, path[1..], m, j);
    }
  }

  lemma {:induction false} OrderImpliesAcyclic(files: seq<File>, pool: seq<File>)
    requires Loads(files, pool)
    ensures Unique(files) && Closed(files) && Acyclic(files)
  {
    SameFiles(files, pool);
    forall f, d | f in files && d in f.dependencies ensures d in Names(files) {
      assert f in multiset(pool);
      var i :| 0 <= i < |pool| && pool[i] == f;
      var g :| g in pool[..i] && g.name == d;
      assert g in multiset(files);
    }
    forall path | |path| >= 2 && Path(files, path) ensures path[0] != path[|path| - 1] {
      if path[0] == path[|path| - 1] {
        assert DependsOn(files, path[0], path[1]);
        var f :| f in files && f.name == path[0];
        assert f in multiset(pool);
        var i :| 0 <= i < |pool| && pool[i] == f;
        Descends(files, pool, path, i, i);
      }
    }
  }

  lemma {:induction false} SameFiles(files: seq<File>, pool: seq<File>)
    requires multiset(pool) == multiset(files) && Unique(pool)
    ensures Unique(files)
  {
    if i, j :| 0 <= i < j < |files| && files[i].name == files[j].name {
      assert files[i] in multiset(pool) && files[j] in multiset(pool);
      var a :| 0 <= a < |pool| && pool[a] == files[i];
      var b :| 0 <= b < |pool| && pool[b] == files[j];
      assert files[i] == files[j];
      assert multiset(files)[files[i]] >= 2 by {
        assert files == files[..j] + [files[j]] + files[j + 1..];
        assert files[i] in files[..j];
      }
      OnlyOnce(pool, a);
    }
  }

  lemma {:induction false} OnlyOnce(pool: seq<File>, a: nat)
    requires Unique(pool) && a < |pool|
    ensures multiset(pool)[pool[a]] == 1
  {
    assert pool == pool[..a] + [pool[a]] + pool[a + 1..];
    assert pool[a] !in pool[..a] && pool[a] !in pool[a + 1..];
  }

  // ----- no order found means a missing file or a cycle -----

  /** None of the names can be built next: each depends on another of them. */
  ghost predicate Stuck(files: seq<File>, names: set<Text>) {
    names != {} && forall a {:trigger NeedsOneOf(files, names, a)} :: a in names ==> NeedsOneOf(files, names, a)
  }

  ghost predicate NeedsOneOf(files: seq<File>, names: set<Text>, a: Text) {
    exists b :: b in names && DependsOn(files, a, b)
  }

  lemma {:induction false} LongPath(files: seq<File>, names: set<Text>, n: nat) returns (path: seq<Text>)
    requires Stuck(files, names)
    ensures |path| == n + 1 && Path(files, path) && forall i :: 0 <= i <= n ==> path[i] in names
  {
    hide DependsOn;
    if n == 0 {
      var a :| a in names;
      path := [a];
    } else {
      var shorter := LongPath(files, names, n - 1);
      assert NeedsOneOf(files, names, shorter[n - 1]);
      var b :| b in names && DependsOn(files, shorter[n - 1], b);
      path := shorter + [b];
      forall i | 0 <= i < n ensures DependsOn(files, path[i], path[i + 1]) {
        if i < n - 1 {
          assert DependsOn(files, shorter[i], shorter[i + 1]);
        }
      }
    }
  }

  /** More names than there are in the set: some name comes twice. */
  lemma {:induction false} Repeats(path: seq<Text>, names: set<Text>) returns (i: nat, j: nat)
    requires |path| > |names| && forall i :: 0 <= i < |path| ==> path[i] in names
    ensures i < j < |path| && path[i] == path[j]
    decreases |path|
  {
    var n := |path| - 1;
    if k :| 0 <= k < n && path[k] == path[n] {
      i, j := k, n;
    } else {
      i, j := Repeats(path[..n], names - {path[n]});
    }
  }

  lemma {:induction false} StuckHasCycle(files: seq<File>, names: set<Text>)
    requires Stuck(files, names)
    ensures !Acyclic(files)
  {
    hide DependsOn, Stuck;
    var path := LongPath(files, names, |names|);
    var i, j := Repeats(path, names);
    var cycle := path[i..j + 1];
    forall k | 0 <= k < |cycle| - 1 ensures DependsOn(files, cycle[k], cycle[k + 1]) {
      assert DependsOn(files, path[i + k], path[i + k + 1]);
    }
    assert Path(files, cycle) && cycle[0] == cycle[|cycle| - 1];
  }

  // ----- the loader -----

  /** The state of the loader between two files: some files are built, in order, and the others are still wanted. */
  ghost predicate Loading(files: seq<File>, builds: (seq<File>, File) -> bool, seen: set<Text>, pool: seq<File>) {
    && Unique(files) && Unique(pool) && Ordered(pool) && Built(builds, pool)
    && seen <= Names(files) && seen !! Names(pool)
    && (forall f :: f in files ==> f.name in seen || f in pool)
    && (forall f :: f in pool ==> f in files)
  }

  lemma {:induction false} AddFile(files: seq<File>, builds: (seq<File>, File) -> bool, seen: set<Text>,
      pool: seq<File>, f: File)
    requires Loading(files, builds, seen, pool) && f in files && f.name in seen
    requires (forall d :: d in f.dependencies ==> d in Names(pool)) && builds(pool, f)
    ensures Loading(files, builds, seen - {f.name}, pool + [f])
  {
    var after := pool + [f];
    assert after[..|pool|] == pool;
    forall i, d | 0 <= i < |after| && d in after[i].dependencies ensures d in Names(after[..i]) {
      assert after[..i] == pool[..i];
    }
    forall i | 0 <= i < |after| ensures builds(after[..i], after[i]) {
      assert after[..i] == pool[..i];
    }
    assert forall g :: g in after ==> g in pool || g == f;
    assert Names(after) == Names(pool) + {f.name};
    forall g | g in files ensures g.name in seen - {f.name} || g in after {
      if g.name == f.name {
        assert g == f;
      }
    }
  }

  lemma {:induction false} ReadyIsNext(files: seq<File>, builds: (seq<File>, File) -> bool, seen: set<Text>,
      pool: seq<File>, f: File)
    requires Loading(files, builds, seen, pool) && f in files && f.name in seen
    requires forall d :: d in f.dependencies ==> d in Names(pool)
    ensures Next(files, pool, f) && Built(builds, pool)
  {
    hide Ordered, Unique, Built;
  }

  lemma {:induction false} LoadingStarts(files: seq<File>, builds: (seq<File>, File) -> bool)
    requires Unique(files)
    ensures Loading(files, builds, Names(files), [])
  {
  }

  /** When nothing is wanted any more, the pool holds the files. */
  lemma {:induction false} AllLoaded(files: seq<File>, builds: (seq<File>, File) -> bool, pool: seq<File>)
    requires Loading(files, builds, {}, pool)
    ensures Loads(files, pool) && Built(builds, pool)
  {
    forall f ensures multiset(pool)[f] == multiset(files)[f] {
      if f in files {
        var i :| 0 <= i < |files| && files[i] == f;
        var j :| 0 <= j < |pool| && pool[j] == f;
        OnlyOnce(files, i);
        OnlyOnce(pool, j);
      } else {
        assert f !in multiset(files) && f !in multiset(pool);
      }
    }
  }

  /** `cel_proto_registry`, after parsing: passes over the files, each building what is ready, until none is left or a
      pass builds nothing. */
  method LoadFiles(files: seq<File>, maxFiles: nat, builds: (seq<File>, File) -> bool)
    returns (status: Status, pool: seq<File>)
    ensures status == StatusLimit <==> |files| > maxFiles
    ensures status == StatusOk ==> Loads(files, pool) && Built(builds, pool)
    ensures status == StatusOk ==> Unique(files) && Closed(files) && Acyclic(files)
    ensures status == StatusInvalid && Unique(files) && Closed(files) && Acyclic(files) ==>
              Built(builds, pool) && exists f :: Next(files, pool, f) && !builds(pool, f)
    ensures (forall built, f :: Next(files, built, f) ==> builds(built, f)) ==>
              (status == StatusOk <==> |files| <= maxFiles && Unique(files) && Closed(files) && Acyclic(files))
  {
    hide Loading, Closed, Acyclic, Loads, Built, Unique, Names, Next;
    pool := [];
    if |files| > maxFiles {
      return StatusLimit, pool;
    }
    var seen: set<Text> := {};
    NoNames();
    for i := 0 to |files|
      invariant seen == Names(files[..i]) && Unique(files[..i])
    {
      NextName(files, i);
      if files[i].name in seen {
        return StatusInvalid, pool;
      }
      seen := seen + {files[i].name};
    }
    assert files[..|files|] == files;
    LoadingStarts(files, builds);
    var left := |seen|;
    while left > 0
      invariant left == |seen| && seen <= Names(files) && Loading(files, builds, seen, pool)
      decreases left
    {
      var progress := false;
      ghost var wanted := seen;
      for i := 0 to |files|
        invariant left == |seen| && Loading(files, builds, seen, pool)
        invariant seen <= wanted && (progress <==> seen != wanted)
        invariant !progress ==> forall j :: 0 <= j < i ==> Waits(files[j], seen, pool)
      {
        var file := files[i];
        if file.name in seen {
          var ready := IsReady(file, pool);
          if ready {
            ReadyIsNext(files, builds, seen, pool, file);
            if !builds(pool, file) {
              return StatusInvalid, pool;
            }
            AddFile(files, builds, seen, pool, file);
            pool := pool + [file];
            seen := seen - {file.name};
            left := left - 1;
            progress := true;
          }
        }
      }
      if !progress {
        NoProgress(files, builds, seen, pool);
        return StatusInvalid, pool;
      }
      StrictSubset(seen, wanted);
    }
    AllLoaded(files, builds, pool);
    OrderImpliesAcyclic(files, pool);
    return StatusOk, pool;
  }

  predicate Waits(f: File, seen: set<Text>, pool: seq<File>) {
    f.name in seen ==> exists d :: d in f.dependencies && d !in Names(pool)
  }

  method IsReady(file: File, pool: seq<File>) returns (ready: bool)
    ensures ready <==> forall d :: d in file.dependencies ==> d in Names(pool)
  {
    for i := 0 to |file.dependencies|
      invariant forall j :: 0 <= j < i ==> file.dependencies[j] in Names(pool)
    {
      if file.dependencies[i] !in Names(pool) {
        return false;
      }
    }
    return true;
  }

  lemma {:induction false} NoNames()
    ensures Names([]) == {} && Unique([])
  {
  }

  /** One more name: it was seen before, or the names are still distinct. */
  lemma {:induction false} NextName(files: seq<File>, i: nat)
    requires i < |files| && Unique(files[..i])
    ensures if files[i].name in Names(files[..i]) then !Unique(files) else Unique(files[..i + 1])
    ensures Names(files[..i + 1]) == Names(files[..i]) + {files[i].name}
  {
    assert files[..i + 1] == files[..i] + [files[i]];
    if files[i].name in Names(files[..i]) {
      var f :| f in files[..i] && f.name == files[i].name;
      var j :| 0 <= j < i && files[j] == f;
    }
  }

  lemma {:induction false} StrictSubset(a: set<Text>, b: set<Text>)
    requires a < b
    ensures |a| < |b|
  {
    assert |b| == |a| + |b - a| by { assert b == a + (b - a); }
  }

  /** A pass without progress: with every dependency present, what is left is stuck in a cycle. */
  lemma {:induction false} NoProgress(files: seq<File>, builds: (seq<File>, File) -> bool, seen: set<Text>,
      pool: seq<File>)
    requires Loading(files, builds, seen, pool) && seen != {}
    requires forall j :: 0 <= j < |files| ==> Waits(files[j], seen, pool)
    ensures !Closed(files) || !Acyclic(files)
  {
    if Closed(files) {
      forall a | a in seen ensures NeedsOneOf(files, seen, a) {
        var f :| f in files && f.name == a;
        var d :| d in f.dependencies && d !in Names(pool);
        assert d in Names(files);
        var g :| g in files && g.name == d;
        assert d in seen && DependsOn(files, a, d);
      }
      StuckHasCycle(files, seen);
    }
  }

  /** Files can be ordered exactly when their names are unique and their dependencies are closed and acyclic. */
  lemma {:induction false} OrderExists(files: seq<File>)
    ensures (exists pool :: Loads(files, pool)) <==> Unique(files) && Closed(files) && Acyclic(files)
  {
    if pool :| Loads(files, pool) {
      OrderImpliesAcyclic(files, pool);
    }
    if Unique(files) && Closed(files) && Acyclic(files) {
      LoadingStarts(files, (_, _) => true);
      var pool := Linearize(files, Names(files), []);
    }
  }

  lemma {:induction false} Linearize(files: seq<File>, seen: set<Text>, pool: seq<File>) returns (order: seq<File>)
    requires Loading(files, (_, _) => true, seen, pool) && Closed(files) && Acyclic(files)
    ensures Loads(files, order)
    decreases |seen|
  {
    var builds := (_: seq<File>, _: File) => true;
    if seen == {} {
      AllLoaded(files, builds, pool);
      order := pool;
    } else {
      if forall j :: 0 <= j < |files| ==> Waits(files[j], seen, pool) {
        NoProgress(files, builds, seen, pool);
      }
      var j :| 0 <= j < |files| && !Waits(files[j], seen, pool);
      AddFile(files, builds, seen, pool, files[j]);
      order := Linearize(files, seen - {files[j].name}, pool + [files[j]]);
    }
  }
}
