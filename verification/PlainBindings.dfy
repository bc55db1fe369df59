/** From an object graph through the stream to the values the engine sees. */
module PlainBindings {
  import opened Values
  import opened Encodings
  import opened PlainStream
  import opened PlainValues
  import opened PlainRoundTrip

  /** `plainBindings`: a map at the top, and nothing behind it. */
  function DecodeBindings(s: Stream): Option<seq<Entry>> {
    var tag :- NextCount(s, Cursor(0, 0, MAX_VALUES), PLAIN_BIGINT);
    if tag.value != PLAIN_MAP then None else
    var n :- NextCount(s, tag.cursor, 16 * MAX_VALUES);
    if n.value > n.cursor.remaining then None else
    var entries :- DecodeEntries(s, n.cursor, n.value, 0);
    if entries.cursor.index != |s.numbers| then None else Some(entries.value)
  }

  predicate AllReadable(es: seq<Entry>) {
    forall i :: 0 <= i < |es| ==> Readable(es[i].value)
  }

  /** What the encoder leaves behind when it succeeds is read back as the entries of the bindings, unfolded: no limit of
      the decoder is hit that the encoder did not check, except that whole numbers beyond the safe range are refused. */
  lemma {:induction false} BindingsRoundTrip(g: Graph, root: Ref, parts: Parts)
    requires g(root).PlainNode?
    requires EntriesSucceed(UnfoldEntries(g, g(root).properties, [root]), MAX_VALUES, 0)
    requires var es := UnfoldEntries(g, g(root).properties, [root]).value;
             parts == Join(HeadParts(PLAIN_MAP, |es|), PartsOfEntries(es, 0)) && AllReadable(es)
    ensures DecodeBindings(Stream(parts.numbers, parts.bytes, parts.deferred))
         == UnfoldEntries(g, g(root).properties, [root])
  {
    var es := UnfoldEntries(g, g(root).properties, [root]).value;
    EntriesAreShallow(g, g(root).properties, [root]);
    FitsEntriesBounds(es, MAX_VALUES);
    hide UnfoldEntries, FitsEntries, NumbersOfEntries, BytesOfEntries, DeferredOfEntries, UnitsOfEntries, DecodeEntries;
    hide Readable, Shallow;
    var s := Stream(parts.numbers, parts.bytes, parts.deferred);
    var n := NumbersOfEntries(es, 0);
    var c := Cursor(2, 0, MAX_VALUES);
    assert s.numbers == [Int(PLAIN_MAP), Int(|es|)] + n && s.bytes == BytesOfEntries(es);
    assert s.deferred == DeferredOfEntries(es);
    HeadAt(s, n, |es|);
    assert At(s.bytes, 0, BytesOfEntries(es)) && At(s.deferred, 0, DeferredOfEntries(es));
    assert ReadyEntries(s, c, es, 0);
    DecodesEntries(s, c, es, 0, 0);
  }

  lemma {:induction false} HeadAt(s: Stream, n: seq<JsNumber>, count: nat)
    requires s.numbers == [Int(PLAIN_MAP), Int(count)] + n && count <= MAX_VALUES
    ensures At(s.numbers, 2, n)
    ensures NextCount(s, Cursor(0, 0, MAX_VALUES), PLAIN_BIGINT) == Some(Read(PLAIN_MAP, Cursor(1, 0, MAX_VALUES)))
    ensures NextCount(s, Cursor(1, 0, MAX_VALUES), 16 * MAX_VALUES) == Some(Read(count, Cursor(2, 0, MAX_VALUES)))
  {
    IntegerBack(PLAIN_MAP);
    IntegerBack(count);
  }
}
