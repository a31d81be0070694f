/** The k-way merge of compaction (src/compaction.rs): a heap of table fronts, one cursor per
    table, and duplicate keys dropped. Ties in the heap order may be broken either way. */
module Merges {
  import opened Bytes
  import opened Results
  import opened Entries

  /** A heap element: an entry and the number of the table it came from. */
  datatype Front = Front(entry: Entry, table: nat)

  /** Popped first: the smaller key, and for equal keys the newer timestamp. */
  predicate Above(a: Front, b: Front) {
    Less(a.entry.key, b.entry.key)
    || (a.entry.key == b.entry.key && a.entry.timestamp > b.entry.timestamp)
  }

  predicate IsTop(e: Front, heap: set<Front>) {
    e in heap && forall o :: o in heap ==> !Above(o, e)
  }

  lemma AboveTransitive(a: Front, b: Front, c: Front)
    requires Above(a, b) && Above(b, c)
    ensures Above(a, c)
  {
    if Less(a.entry.key, b.entry.key) && Less(b.entry.key, c.entry.key) {
      LessTransitive(a.entry.key, b.entry.key, c.entry.key);
    }
  }

  lemma {:induction false} TopExists(heap: set<Front>)
    requires heap != {}
    ensures exists e :: e in heap && IsTop(e, heap)
  {
    var e :| e in heap;
    var rest := heap - {e};
    LessIrreflexive(e.entry.key);
    if rest == {} {
      assert heap == {e};
      assert IsTop(e, heap);
    } else {
      TopExists(rest);
      var t :| t in rest && IsTop(t, rest);
      assert forall o :: o in heap ==> o == e || o in rest;
      if Above(e, t) {
        forall o | o in heap ensures !Above(o, e) {
          if o in rest && Above(o, e) {
            AboveTransitive(o, e, t);
          }
        }
        assert IsTop(e, heap);
      } else {
        assert IsTop(t, heap);
      }
    }
  }

  // ---------- what a merge is ----------

  /** `e` is an entry of some input. */
  ghost predicate FromInput(inputs: seq<seq<Entry>>, e: Entry) {
    exists i, a :: 0 <= i < |inputs| && 0 <= a < |inputs[i]| && inputs[i][a] == e
  }

  /** The output has the entry's key, with a timestamp at least as new. */
  ghost predicate Covered(out: seq<Entry>, e: Entry) {
    exists o :: 0 <= o < |out| && out[o].key == e.key && out[o].timestamp >= e.timestamp
  }

  /** Strictly sorted, exactly the keys of the inputs, and for each key an input entry with the
      greatest timestamp. */
  ghost predicate IsMerge(inputs: seq<seq<Entry>>, out: seq<Entry>) {
    && Sorted(out)
    && (forall o :: 0 <= o < |out| ==> FromInput(inputs, out[o]))
    && forall i, a :: 0 <= i < |inputs| && 0 <= a < |inputs[i]| ==> Covered(out, inputs[i][a])
  }

  function TotalLength(inputs: seq<seq<Entry>>): nat {
    if inputs == [] then 0 else TotalLength(inputs[..|inputs| - 1]) + |inputs[|inputs| - 1]|
  }

  ghost function KeySet(inputs: seq<seq<Entry>>): set<ByteString> {
    set i, a | 0 <= i < |inputs| && 0 <= a < |inputs[i]| :: inputs[i][a].key
  }

  /** The number of output entries is the number of distinct input keys. */
  lemma MergeCountsKeys(inputs: seq<seq<Entry>>, out: seq<Entry>)
    requires IsMerge(inputs, out)
    ensures |out| == |KeySet(inputs)|
  {
    hide Sorted, Covered, FromInput;
    var outKeys := set o | 0 <= o < |out| :: out[o].key;
    forall k | k in KeySet(inputs) ensures k in outKeys {
      var i, a :| 0 <= i < |inputs| && 0 <= a < |inputs[i]| && inputs[i][a].key == k;
      var o := CoveredAt(out, inputs[i][a]);
    }
    forall k | k in outKeys ensures k in KeySet(inputs) {
      var o :| 0 <= o < |out| && out[o].key == k;
      var i, a := InputAt(inputs, out[o]);
    }
    assert outKeys == KeySet(inputs);
    SortedKeyCount(out);
  }

  lemma CoveredAt(out: seq<Entry>, e: Entry) returns (o: nat)
    requires Covered(out, e)
    ensures o < |out| && out[o].key == e.key && out[o].timestamp >= e.timestamp
  {
    o :| 0 <= o < |out| && out[o].key == e.key && out[o].timestamp >= e.timestamp;
  }

  lemma InputAt(inputs: seq<seq<Entry>>, e: Entry) returns (i: nat, a: nat)
    requires FromInput(inputs, e)
    ensures i < |inputs| && a < |inputs[i]| && inputs[i][a] == e
  {
    i, a :| 0 <= i < |inputs| && 0 <= a < |inputs[i]| && inputs[i][a] == e;
  }

  lemma InputFrom(inputs: seq<seq<Entry>>, i: nat, a: nat)
    requires i < |inputs| && a < |inputs[i]|
    ensures FromInput(inputs, inputs[i][a])
  {}

  lemma {:induction false} SortedKeyCount(es: seq<Entry>)
    requires Sorted(es)
    ensures |set o | 0 <= o < |es| :: es[o].key| == |es|
  {
    if es != [] {
      var n := |es| - 1;
      var front := es[..n];
      SortedKeyCount(front);
      var fewer := set o | 0 <= o < n :: front[o].key;
      assert forall o :: 0 <= o < n ==> front[o] == es[o];
      assert (set o | 0 <= o < |es| :: es[o].key) == fewer + {es[n].key};
      assert es[n].key !in fewer by {
        LessIrreflexive(es[n].key);
      }
    }
  }

  // ---------- the scan bound ----------

  function Ones(n: nat): (r: ByteString)
    ensures |r| == n
  {
    seq(n, i => 0xFF)
  }

  /** The upper end of the scan: 1024 bytes of 0xFF. */
  function ScanBound(): ByteString {
    Ones(1024)
  }

  /** What scanning a whole table for the merge returns. */
  function ScannedForMerge(es: seq<Entry>): seq<Entry> {
    Range(es, [], ScanBound(), true)
  }

  /** A key lies past the bound exactly when it extends 1024 bytes of 0xFF. */
  lemma PastBoundIff(key: ByteString)
    ensures Less(ScanBound(), key) <==> |key| > 1024 && key[..1024] == ScanBound()
  {
    PastOnesIff(1024, key);
  }

  lemma {:induction false} PastOnesIff(n: nat, key: ByteString)
    ensures Less(Ones(n), key) <==> |key| > n && key[..n] == Ones(n)
  {
    if n > 0 && key != [] && key[0] == 0xFF {
      PastOnesIff(n - 1, key[1..]);
      assert Ones(n) == [0xFF] + Ones(n - 1);
      assert Ones(n)[1..] == Ones(n - 1);
      if |key| > n {
        assert key[..n] == [key[0]] + key[1..][..n - 1];
      }
    }
  }

  /** The scan loses nothing exactly when no key lies past the bound. */
  lemma {:induction false} ScanCompleteIff(es: seq<Entry>)
    ensures ScannedForMerge(es) == es <==> forall i :: 0 <= i < |es| ==> !Less(ScanBound(), es[i].key)
  {
    if es != [] {
      var key := es[0].key;
      ScanCompleteIff(es[1..]);
      LessTrichotomy(key, ScanBound());
      assert AtMost([], key);
      RangeShorter(es[1..], [], ScanBound());
      assert es == [es[0]] + es[1..];
      assert forall i :: 1 <= i < |es| ==> es[i] == es[1..][i - 1];
    }
  }

  lemma {:induction false} RangeShorter(es: seq<Entry>, start: ByteString, end: ByteString)
    ensures |Range(es, start, end, true)| <= |es|
  {
    if es != [] {
      RangeShorter(es[1..], start, end);
    }
  }

  lemma BoundedIff(key: ByteString)
    ensures InRange(key, [], ScanBound(), true) <==> !Less(ScanBound(), key)
  {
    LessTrichotomy(key, ScanBound());
  }

  /** The scan of a table is empty exactly when all its keys lie past the bound. */
  lemma {:induction false} EmptyScanIff(es: seq<Entry>)
    ensures ScannedForMerge(es) == [] <==> forall i :: 0 <= i < |es| ==> Less(ScanBound(), es[i].key)
  {
    if es != [] {
      hide Less;
      EmptyScanIff(es[1..]);
      BoundedIff(es[0].key);
      assert forall i :: 1 <= i < |es| ==> es[i] == es[1..][i - 1];
      if forall i :: 0 <= i < |es| ==> Less(ScanBound(), es[i].key) {
        assert forall i :: 0 <= i < |es| - 1 ==> es[1..][i] == es[i + 1];
      }
    }
  }

  // ---------- scans and cursors ----------

  /** Scanning a table for the merge: its entries up to the scan bound, or a failure. */
  datatype ScanOutcome = Scanned(entries: seq<Entry>) | ScanFailed

  predicate IsEmptyScan(s: ScanOutcome) {
    s.Scanned? && s.entries == []
  }

  predicate HasEntries(s: ScanOutcome) {
    s.Scanned? && s.entries != []
  }

  /** The entries each table contributes. */
  function InputOf(s: ScanOutcome): seq<Entry> {
    match s case Scanned(es) => es case ScanFailed => []
  }

  function Inputs(scans: seq<ScanOutcome>): (inputs: seq<seq<Entry>>)
    ensures |inputs| == |scans|
  {
    seq(|scans|, i requires 0 <= i < |scans| => InputOf(scans[i]))
  }

  /** The cursors built: an empty scan gets none, a failed one gets an empty cursor. */
  function Cursors(scans: seq<ScanOutcome>): seq<seq<Entry>> {
    if scans == [] then []
    else
      var last := scans[|scans| - 1];
      Cursors(scans[..|scans| - 1]) + (if IsEmptyScan(last) then [] else [InputOf(last)])
  }

  /** The heap to start with: the first entry of every table, under the table's own number. */
  function FirstFronts(scans: seq<ScanOutcome>): set<Front> {
    set i | 0 <= i < |scans| && HasEntries(scans[i]) :: Front(scans[i].entries[0], i)
  }

  /** No table with entries comes after an empty one, so table numbers and cursors agree. */
  ghost predicate Aligned(scans: seq<ScanOutcome>) {
    forall i, j :: 0 <= i < j < |scans| && IsEmptyScan(scans[i]) ==> !HasEntries(scans[j])
  }

  ghost predicate NoFailure(scans: seq<ScanOutcome>) {
    forall i :: 0 <= i < |scans| ==> scans[i].Scanned?
  }

  lemma {:induction false} CursorsTotal(scans: seq<ScanOutcome>)
    ensures TotalLength(Cursors(scans)) == TotalLength(Inputs(scans))
  {
    if scans != [] {
      var n := |scans| - 1;
      CursorsTotal(scans[..n]);
      assert Inputs(scans)[..n] == Inputs(scans[..n]);
      TotalLengthAppend(Cursors(scans[..n]), InputOf(scans[n]));
      assert Cursors(scans[..n]) + [] == Cursors(scans[..n]);
    }
  }

  lemma TotalLengthAppend(inputs: seq<seq<Entry>>, input: seq<Entry>)
    ensures TotalLength(inputs + [input]) == TotalLength(inputs) + |input|
  {
    assert (inputs + [input])[..|inputs|] == inputs;
  }

  /** An empty scan leaves fewer cursors than tables. */
  lemma {:induction false} CursorsFewer(scans: seq<ScanOutcome>, empty: nat)
    requires empty < |scans| && IsEmptyScan(scans[empty])
    ensures |Cursors(scans)| < |scans|
  {
    var n := |scans| - 1;
    if empty < n {
      CursorsFewer(scans[..n], empty);
    } else {
      CursorsAtMost(scans[..n]);
    }
  }

  lemma {:induction false} CursorsAtMost(scans: seq<ScanOutcome>)
    ensures |Cursors(scans)| <= |scans|
  {
    if scans != [] {
      CursorsAtMost(scans[..|scans| - 1]);
    }
  }

  /** Aligned: every cursor is the input of its number, and inputs without a cursor are empty. */
  lemma {:induction false} AlignedCursors(scans: seq<ScanOutcome>)
    requires Aligned(scans)
    ensures var cs := Cursors(scans);
            (forall i :: 0 <= i < |scans| && HasEntries(scans[i]) ==> i < |cs| && cs[i] == InputOf(scans[i]))
            && (forall i :: 0 <= i < |cs| && cs[i] != [] ==> i < |scans| && HasEntries(scans[i]))
  {
    if scans != [] {
      var n := |scans| - 1;
      var front := scans[..n];
      assert forall i :: 0 <= i < n ==> front[i] == scans[i];
      AlignedCursors(front);
      if HasEntries(scans[n]) {
        CursorsFull(front);
      }
    }
  }

  lemma {:induction false} CursorsFull(scans: seq<ScanOutcome>)
    requires forall i :: 0 <= i < |scans| ==> !IsEmptyScan(scans[i])
    ensures |Cursors(scans)| == |scans|
  {
    if scans != [] {
      CursorsFull(scans[..|scans| - 1]);
    }
  }

  /** Misaligned without failures: some table's number is past the last cursor. */
  lemma {:induction false} MisalignedStray(scans: seq<ScanOutcome>) returns (i: nat)
    requires NoFailure(scans) && !Aligned(scans)
    ensures i < |scans| && HasEntries(scans[i]) && i >= |Cursors(scans)|
  {
    var n := |scans| - 1;
    var front := scans[..n];
    if HasEntries(scans[n]) {
      i := n;
      var e, j :| 0 <= e < j < |scans| && IsEmptyScan(scans[e]) && HasEntries(scans[j]);
      CursorsFewer(front, e);
    } else {
      var e, j :| 0 <= e < j < |scans| && IsEmptyScan(scans[e]) && HasEntries(scans[j]);
      assert IsEmptyScan(front[e]) && HasEntries(front[j]);
      i := MisalignedStray(front);
      assert front[i] == scans[i];
      assert Cursors(front) + [] == Cursors(front);
    }
  }

  // ---------- streams ----------

  /** What is pushed under one table number: the table's own first entry, and then what the cursor of
      that number holds after its first entry. */
  function Stream(scan: ScanOutcome, cursor: seq<Entry>): seq<Entry> {
    if !HasEntries(scan) then [] else [scan.entries[0]] + (if cursor == [] then [] else cursor[1..])
  }

  function Streams(scans: seq<ScanOutcome>): (streams: seq<seq<Entry>>)
    ensures |streams| == |Cursors(scans)| <= |scans|
    ensures forall i :: 0 <= i < |streams| ==> streams[i] == Stream(scans[i], Cursors(scans)[i])
  {
    CursorsAtMost(scans);
    var cs := Cursors(scans);
    seq(|cs|, i requires 0 <= i < |cs| => Stream(scans[i], cs[i]))
  }

  /** First entries pushed under a number that no cursor has. */
  function Strays(scans: seq<ScanOutcome>): set<Front> {
    set i | |Cursors(scans)| <= i < |scans| && HasEntries(scans[i]) :: Front(scans[i].entries[0], i)
  }

  /** Some table with entries has a number past the last cursor. */
  ghost predicate OutOfBounds(scans: seq<ScanOutcome>) {
    exists i :: |Cursors(scans)| <= i < |scans| && HasEntries(scans[i])
  }

  ghost predicate Ascends(es: seq<Entry>) {
    forall a, b :: 0 <= a < b < |es| ==> AtMost(es[a].key, es[b].key)
  }

  ghost predicate AllAscend(streams: seq<seq<Entry>>) {
    forall i :: 0 <= i < |streams| ==> Ascends(streams[i])
  }

  /** No earlier entry of the stream has the same key. */
  ghost predicate IsVisible(es: seq<Entry>, a: int) {
    0 <= a < |es| && forall b :: 0 <= b < a ==> es[b].key != es[a].key
  }

  ghost predicate FromVisible(streams: seq<seq<Entry>>, e: Entry) {
    exists i, a :: 0 <= i < |streams| && IsVisible(streams[i], a) && streams[i][a] == e
  }

  /** Strictly sorted, from visible entries, and covering all of them. */
  ghost predicate IsStreamMerge(streams: seq<seq<Entry>>, out: seq<Entry>) {
    && Sorted(out)
    && (forall o :: 0 <= o < |out| ==> FromVisible(streams, out[o]))
    && forall i, a :: 0 <= i < |streams| && IsVisible(streams[i], a) ==> Covered(out, streams[i][a])
  }

  /** Some stream shows the key with a timestamp at least as new. */
  ghost predicate Shown(streams: seq<seq<Entry>>, e: Entry) {
    exists i, a :: 0 <= i < |streams| && IsVisible(streams[i], a)
                   && streams[i][a].key == e.key && streams[i][a].timestamp >= e.timestamp
  }

  /** The streams run in key order and show a newest version of every input key. */
  ghost predicate StreamsFaithful(scans: seq<ScanOutcome>) {
    && AllAscend(Streams(scans))
    && forall i, a :: 0 <= i < |scans| && 0 <= a < |InputOf(scans[i])| ==> Shown(Streams(scans), InputOf(scans[i])[a])
  }

  // ---------- loop state ----------

  ghost predicate PositionsOk(streams: seq<seq<Entry>>, positions: seq<nat>) {
    |positions| == |streams| && forall i :: 0 <= i < |streams| ==> positions[i] <= |streams[i]|
  }

  /** The next entry of every stream that has one. */
  ghost function Fronts(streams: seq<seq<Entry>>, positions: seq<nat>): set<Front>
    requires |positions| == |streams|
  {
    set i | 0 <= i < |streams| && positions[i] < |streams[i]| :: Front(streams[i][positions[i]], i)
  }

  function Total(positions: seq<nat>): nat {
    if positions == [] then 0 else Total(positions[..|positions| - 1]) + positions[|positions| - 1]
  }

  lemma {:induction false} TotalBump(positions: seq<nat>, i: nat)
    requires i < |positions|
    ensures Total(positions[i := positions[i] + 1]) == Total(positions) + 1
  {
    var n := |positions| - 1;
    if i < n {
      TotalBump(positions[..n], i);
      assert positions[i := positions[i] + 1][..n] == positions[..n][i := positions[i] + 1];
    } else {
      assert positions[i := positions[i] + 1][..n] == positions[..n];
    }
  }

  lemma {:induction false} TotalZero(n: nat)
    ensures Total(seq(n, _ => 0)) == 0
  {
    if n > 0 {
      TotalZero(n - 1);
      assert seq(n, _ => 0)[..n - 1] == seq(n - 1, _ => 0);
    }
  }

  /** What is taken is at most what there is, and equals it when every stream is used up. */
  lemma {:induction false} TotalAtMost(streams: seq<seq<Entry>>, positions: seq<nat>)
    requires PositionsOk(streams, positions)
    ensures Total(positions) <= TotalLength(streams)
    ensures (forall i :: 0 <= i < |streams| ==> positions[i] == |streams[i]|) ==>
              Total(positions) == TotalLength(streams)
  {
    if streams != [] {
      TotalAtMost(streams[..|streams| - 1], positions[..|positions| - 1]);
    }
  }

  /** The output after popping an entry: written unless its key was the last one written. */
  function Emit(out: seq<Entry>, e: Entry): seq<Entry> {
    if out != [] && out[|out| - 1].key == e.key then out else out + [e]
  }

  // ---------- whatever the streams ----------

  /** If the output is sorted so far, what was taken from each stream ascends up to the last key. */
  ghost predicate TakenInOrder(streams: seq<seq<Entry>>, positions: seq<nat>, out: seq<Entry>) {
    && PositionsOk(streams, positions)
    && (forall o :: 0 <= o < |out| ==> FromInput(streams, out[o]))
    && (Sorted(out) ==>
          forall i :: 0 <= i < |streams| ==>
            Ascends(streams[i][..positions[i]])
            && forall a :: 0 <= a < positions[i] ==> out != [] && AtMost(streams[i][a].key, out[|out| - 1].key))
  }

  lemma PopSource(streams: seq<seq<Entry>>, positions: seq<nat>, e: Front) returns (t: nat)
    requires PositionsOk(streams, positions) && e in Fronts(streams, positions)
    ensures t == e.table && t < |streams| && positions[t] < |streams[t]| && streams[t][positions[t]] == e.entry
  {
    t := e.table;
  }

  lemma SortedFront(out: seq<Entry>, e: Entry)
    requires Sorted(Emit(out, e))
    ensures Sorted(out) && (out != [] ==> AtMost(out[|out| - 1].key, e.key))
  {
    var r := Emit(out, e);
    assert forall i :: 0 <= i < |out| ==> out[i] == r[i];
    if out != [] && out[|out| - 1].key != e.key {
      assert Less(r[|out| - 1].key, r[|out|].key);
    }
  }

  lemma AtMostTransitive(a: ByteString, b: ByteString, c: ByteString)
    requires AtMost(a, b) && AtMost(b, c)
    ensures AtMost(a, c)
  {
    if a != b && b != c {
      LessTransitive(a, b, c);
    }
  }

  lemma PopTaken(streams: seq<seq<Entry>>, positions: seq<nat>, out: seq<Entry>, e: Front)
    requires TakenInOrder(streams, positions, out) && e in Fronts(streams, positions)
    ensures e.table < |streams|
    ensures TakenInOrder(streams, positions[e.table := positions[e.table] + 1], Emit(out, e.entry))
  {
    hide Sorted, Less;
    var t := PopSource(streams, positions, e);
    var next, out' := positions[t := positions[t] + 1], Emit(out, e.entry);
    assert FromInput(streams, streams[t][positions[t]]);
    assert out'[|out'| - 1].key == e.entry.key;
    if Sorted(out') {
      SortedFront(out, e.entry);
      forall i, a | 0 <= i < |streams| && 0 <= a < positions[i]
        ensures AtMost(streams[i][a].key, e.entry.key)
      {
        AtMostTransitive(streams[i][a].key, out[|out| - 1].key, e.entry.key);
      }
      forall i | 0 <= i < |streams| ensures Ascends(streams[i][..next[i]]) {
        assert Ascends(streams[i][..positions[i]]);
        var taken := streams[i][..next[i]];
        forall a, b | 0 <= a < b < |taken| ensures AtMost(taken[a].key, taken[b].key) {
          if b < positions[i] {
            assert taken[a] == streams[i][..positions[i]][a] && taken[b] == streams[i][..positions[i]][b];
          }
        }
      }
    }
  }

  // ---------- streams in key order ----------

  /** The entry may still come after the last one written. */
  predicate AfterLast(out: seq<Entry>, e: Entry) {
    out == [] ||
    (var last := out[|out| - 1];
     Less(last.key, e.key) || (last.key == e.key && e.timestamp <= last.timestamp))
  }

  /** The visible entries taken are covered, and everything left follows what was written. */
  ghost predicate MergedSoFar(streams: seq<seq<Entry>>, positions: seq<nat>, out: seq<Entry>) {
    && PositionsOk(streams, positions)
    && Sorted(out)
    && (forall o :: 0 <= o < |out| ==> FromVisible(streams, out[o]))
    && (forall i, a :: 0 <= i < |streams| && 0 <= a < positions[i] && IsVisible(streams[i], a) ==>
          Covered(out, streams[i][a]))
    && (forall i, a :: 0 <= i < |streams| && positions[i] <= a < |streams[i]| && out != [] ==>
          AtMost(out[|out| - 1].key, streams[i][a].key))
    && forall i, a :: 0 <= i < |streams| && positions[i] <= a < |streams[i]| && IsVisible(streams[i], a) ==>
         AfterLast(out, streams[i][a])
  }

  lemma CoveredStays(out: seq<Entry>, e: Entry, x: Entry)
    requires Covered(out, x)
    ensures Covered(Emit(out, e), x)
  {
    var o :| 0 <= o < |out| && out[o].key == x.key && out[o].timestamp >= x.timestamp;
    assert Emit(out, e)[o] == out[o];
  }

  /** Everything left in the streams follows the popped entry. */
  lemma RestFollows(streams: seq<seq<Entry>>, positions: seq<nat>, e: Front, i: nat, a: nat)
    requires PositionsOk(streams, positions) && AllAscend(streams)
    requires IsTop(e, Fronts(streams, positions))
    requires i < |streams| && positions[i] <= a < |streams[i]|
    ensures AtMost(e.entry.key, streams[i][a].key)
    ensures IsVisible(streams[i], a) ==> AfterLast([e.entry], streams[i][a])
  {
    var p := positions[i];
    var head, x := Front(streams[i][p], i), streams[i][a];
    assert head in Fronts(streams, positions);
    LessTrichotomy(e.entry.key, head.entry.key);
    if p < a {
      assert Ascends(streams[i]);
      AtMostTransitive(e.entry.key, head.entry.key, x.key);
      LessTrichotomy(head.entry.key, x.key);
    }
  }

  /** An entry with a new key is the first of its stream with it. */
  lemma PoppedVisible(streams: seq<seq<Entry>>, positions: seq<nat>, out: seq<Entry>, e: Front)
    requires TakenInOrder(streams, positions, out) && Sorted(out) && e in Fronts(streams, positions)
    requires out == [] || Less(out[|out| - 1].key, e.entry.key)
    ensures FromVisible(streams, e.entry)
  {
    hide Sorted;
    var t := PopSource(streams, positions, e);
    forall b | 0 <= b < positions[t] ensures streams[t][b].key != e.entry.key {
      if out != [] {
        LessTrichotomy(out[|out| - 1].key, e.entry.key);
      }
    }
    assert IsVisible(streams[t], positions[t]);
  }

  /** Popping the top and moving on in its stream keeps the merge invariant. */
  lemma PopKeeps(streams: seq<seq<Entry>>, positions: seq<nat>, out: seq<Entry>, e: Front)
    requires TakenInOrder(streams, positions, out) && MergedSoFar(streams, positions, out) && AllAscend(streams)
    requires IsTop(e, Fronts(streams, positions))
    ensures e.table < |streams|
    ensures MergedSoFar(streams, positions[e.table := positions[e.table] + 1], Emit(out, e.entry))
  {
    hide Less, Sorted, Covered, FromVisible, IsTop, TakenInOrder, IsVisible, AllAscend;
    assert e in Fronts(streams, positions) by { TopIsMember(e, Fronts(streams, positions)); }
    var t := PopSource(streams, positions, e);
    var next, out' := positions[t := positions[t] + 1], Emit(out, e.entry);
    EmitSorted(streams, positions, out, e);
    forall i, a | 0 <= i < |streams| && 0 <= a < next[i] && IsVisible(streams[i], a)
      ensures Covered(out', streams[i][a])
    {
      if a < positions[i] {
        CoveredStays(out, e.entry, streams[i][a]);
      } else {
        EmitCovers(out, e.entry);
      }
    }
    forall i, a | 0 <= i < |streams| && next[i] <= a < |streams[i]|
      ensures AtMost(out'[|out'| - 1].key, streams[i][a].key)
    {
      RestFollows(streams, positions, e, i, a);
    }
    forall i, a | 0 <= i < |streams| && next[i] <= a < |streams[i]| && IsVisible(streams[i], a)
      ensures AfterLast(out', streams[i][a])
    {
      RestFollows(streams, positions, e, i, a);
      EmitAfter(out, e.entry, streams[i][a]);
    }
  }

  lemma TopIsMember(e: Front, heap: set<Front>)
    requires IsTop(e, heap)
    ensures e in heap
  {}

  lemma EmitSorted(streams: seq<seq<Entry>>, positions: seq<nat>, out: seq<Entry>, e: Front)
    requires TakenInOrder(streams, positions, out) && MergedSoFar(streams, positions, out)
    requires e in Fronts(streams, positions)
    ensures Sorted(Emit(out, e.entry))
    ensures forall o :: 0 <= o < |Emit(out, e.entry)| ==> FromVisible(streams, Emit(out, e.entry)[o])
  {
    hide Covered, FromVisible, TakenInOrder, IsVisible, AfterLast;
    var t := PopSource(streams, positions, e);
    if out == [] || out[|out| - 1].key != e.entry.key {
      if out != [] {
        assert AtMost(out[|out| - 1].key, streams[t][positions[t]].key);
      }
      PoppedVisible(streams, positions, out, e);
      forall i | 0 <= i < |out| ensures Less(out[i].key, e.entry.key) {
        LessAtMostTransitive(out[i].key, out[|out| - 1].key, e.entry.key);
      }
    }
  }

  lemma EmitCovers(out: seq<Entry>, e: Entry)
    requires AfterLast(out, e)
    ensures Covered(Emit(out, e), e)
  {
    LessIrreflexive(e.key);
    var r := Emit(out, e);
    assert r[|r| - 1].key == e.key && r[|r| - 1].timestamp >= e.timestamp;
  }

  lemma EmitAfter(out: seq<Entry>, e: Entry, x: Entry)
    requires AfterLast(out, x) && AfterLast([e], x)
    ensures AfterLast(Emit(out, e), x)
  {}

  /** Taking an entry puts the next one of its stream on the heap. */
  lemma FrontsAdvance(streams: seq<seq<Entry>>, positions: seq<nat>, e: Front)
    requires PositionsOk(streams, positions) && e in Fronts(streams, positions)
    ensures var t := e.table;
            var next := positions[t := positions[t] + 1];
            Fronts(streams, next) ==
            Fronts(streams, positions) - {e}
            + (if next[t] < |streams[t]| then {Front(streams[t][next[t]], t)} else {})
  {}

  lemma FrontPresent(streams: seq<seq<Entry>>, positions: seq<nat>, i: nat)
    requires |positions| == |streams| && i < |streams| && positions[i] < |streams[i]|
    ensures Fronts(streams, positions) != {}
  {
    assert Front(streams[i][positions[i]], i) in Fronts(streams, positions);
  }

  // ---------- one step and the end ----------

  /** What holds before every pop. */
  ghost predicate MergeState(streams: seq<seq<Entry>>, positions: seq<nat>, out: seq<Entry>) {
    TakenInOrder(streams, positions, out) && (AllAscend(streams) ==> MergedSoFar(streams, positions, out))
  }

  lemma MergeStarts(streams: seq<seq<Entry>>)
    ensures MergeState(streams, seq(|streams|, _ => 0), [])
  {}

  lemma MergeSteps(streams: seq<seq<Entry>>, positions: seq<nat>, out: seq<Entry>, e: Front)
    requires MergeState(streams, positions, out) && IsTop(e, Fronts(streams, positions))
    ensures PositionsOk(streams, positions) && e.table < |streams| && positions[e.table] < |streams[e.table]|
    ensures MergeState(streams, positions[e.table := positions[e.table] + 1], Emit(out, e.entry))
  {
    hide MergedSoFar, AllAscend;
    var t := PopSource(streams, positions, e);
    PopTaken(streams, positions, out, e);
    if AllAscend(streams) {
      PopKeeps(streams, positions, out, e);
    }
  }

  /** With nothing left, the output is sorted exactly when the streams run in key order, and then
      it is their merge. */
  lemma MergeEnds(streams: seq<seq<Entry>>, positions: seq<nat>, out: seq<Entry>)
    requires MergeState(streams, positions, out) && Fronts(streams, positions) == {}
    ensures forall o :: 0 <= o < |out| ==> FromInput(streams, out[o])
    ensures Sorted(out) <==> AllAscend(streams)
    ensures AllAscend(streams) ==> IsStreamMerge(streams, out)
    ensures Total(positions) == TotalLength(streams)
  {
    hide Sorted, Covered, FromVisible;
    forall i | 0 <= i < |streams| ensures positions[i] == |streams[i]| {
      if positions[i] < |streams[i]| {
        FrontPresent(streams, positions, i);
      }
      assert streams[i][..|streams[i]|] == streams[i];
    }
    TotalAtMost(streams, positions);
  }

  // ---------- streams and inputs ----------

  ghost predicate SortedScans(scans: seq<ScanOutcome>) {
    forall i :: 0 <= i < |scans| ==> Sorted(InputOf(scans[i]))
  }

  /** A cursor is some table's input. */
  lemma {:induction false} CursorIsInput(scans: seq<ScanOutcome>, i: nat) returns (j: nat)
    requires i < |Cursors(scans)|
    ensures j < |scans| && Cursors(scans)[i] == InputOf(scans[j])
  {
    var n := |scans| - 1;
    if i < |Cursors(scans[..n])| {
      j := CursorIsInput(scans[..n], i);
    } else {
      j := n;
    }
  }

  /** Streams carry nothing but input entries. */
  lemma StreamsFromInputs(scans: seq<ScanOutcome>, e: Entry)
    requires FromInput(Streams(scans), e)
    ensures FromInput(Inputs(scans), e)
  {
    hide Cursors, FromInput;
    var streams, inputs := Streams(scans), Inputs(scans);
    var i, a := InputAt(streams, e);
    if a == 0 {
      InputFrom(inputs, i, 0);
    } else {
      var j := CursorIsInput(scans, i);
      InputFrom(inputs, j, a);
    }
  }

  /** A merge of the streams is a merge of the inputs exactly when the streams show every input. */
  lemma StreamMergeIff(scans: seq<ScanOutcome>, out: seq<Entry>)
    requires forall o :: 0 <= o < |out| ==> FromInput(Streams(scans), out[o])
    requires Sorted(out) <==> AllAscend(Streams(scans))
    requires AllAscend(Streams(scans)) ==> IsStreamMerge(Streams(scans), out)
    ensures IsMerge(Inputs(scans), out) <==> StreamsFaithful(scans)
  {
    var streams, inputs := Streams(scans), Inputs(scans);
    hide Sorted, AllAscend, IsVisible, Streams, FromInput, Inputs;
    assert forall i :: 0 <= i < |scans| ==> inputs[i] == InputOf(scans[i]) by { InputsAt(scans); }
    forall o | 0 <= o < |out| ensures FromInput(inputs, out[o]) {
      StreamsFromInputs(scans, out[o]);
    }
    if AllAscend(streams) {
      forall i, a | 0 <= i < |inputs| && 0 <= a < |inputs[i]|
        ensures Covered(out, inputs[i][a]) <==> Shown(streams, inputs[i][a])
      {
        CoveredIffShown(streams, out, inputs[i][a]);
      }
    }
  }

  lemma InputsAt(scans: seq<ScanOutcome>)
    ensures forall i :: 0 <= i < |scans| ==> Inputs(scans)[i] == InputOf(scans[i])
  {}

  lemma CoveredIffShown(streams: seq<seq<Entry>>, out: seq<Entry>, e: Entry)
    requires IsStreamMerge(streams, out)
    ensures Covered(out, e) <==> Shown(streams, e)
  {
    hide Sorted;
    if Covered(out, e) {
      var o :| 0 <= o < |out| && out[o].key == e.key && out[o].timestamp >= e.timestamp;
      assert FromVisible(streams, out[o]);
    }
    if Shown(streams, e) {
      var i, a :| 0 <= i < |streams| && IsVisible(streams[i], a)
                  && streams[i][a].key == e.key && streams[i][a].timestamp >= e.timestamp;
      assert Covered(out, streams[i][a]);
    }
  }

  /** Aligned scans are their own streams: none is out of bounds, and everything is shown. */
  lemma AlignedStreams(scans: seq<ScanOutcome>)
    requires Aligned(scans) && SortedScans(scans)
    ensures Streams(scans) == Cursors(scans) && !OutOfBounds(scans) && StreamsFaithful(scans)
  {
    hide Aligned, Sorted, Cursors, Ascends, Streams, Shown;
    var streams, cs := Streams(scans), Cursors(scans);
    AlignedCursors(scans);
    StreamsAreCursors(scans);
    forall i | 0 <= i < |streams| ensures Ascends(streams[i]) {
      if streams[i] != [] {
        assert SortedScans(scans) && HasEntries(scans[i]);
        SortedAscends(streams[i]);
      } else {
        NothingAscends();
      }
    }
    forall i, a | 0 <= i < |scans| && 0 <= a < |InputOf(scans[i])| ensures Shown(streams, InputOf(scans[i])[a]) {
      assert HasEntries(scans[i]) && streams[i] == InputOf(scans[i]);
      SortedShown(streams, i, a);
    }
  }

  lemma StreamsAreCursors(scans: seq<ScanOutcome>)
    requires forall i :: 0 <= i < |scans| && HasEntries(scans[i]) ==>
               i < |Cursors(scans)| && Cursors(scans)[i] == InputOf(scans[i])
    requires forall i :: 0 <= i < |Cursors(scans)| && Cursors(scans)[i] != [] ==>
               i < |scans| && HasEntries(scans[i])
    ensures Streams(scans) == Cursors(scans)
  {
    hide Cursors;
    var streams, cs := Streams(scans), Cursors(scans);
    forall i | 0 <= i < |streams| ensures streams[i] == cs[i] {
      if cs[i] != [] {
        assert cs[i] == [cs[i][0]] + cs[i][1..];
      }
    }
  }

  lemma SortedAscends(es: seq<Entry>)
    requires Sorted(es)
    ensures Ascends(es)
  {}

  lemma NothingAscends()
    ensures Ascends([])
  {}

  lemma SortedShown(streams: seq<seq<Entry>>, i: nat, a: nat)
    requires i < |streams| && Sorted(streams[i]) && a < |streams[i]|
    ensures Shown(streams, streams[i][a])
  {
    SortedVisible(streams[i], a);
  }

  lemma SortedVisible(es: seq<Entry>, a: nat)
    requires Sorted(es) && a < |es|
    ensures IsVisible(es, a)
  {
    LessIrreflexive(es[a].key);
  }

  /** The heap to start with: the first entry of every stream, and the strays. */
  lemma FirstFrontsSplit(scans: seq<ScanOutcome>)
    ensures var streams := Streams(scans);
            FirstFronts(scans) == Fronts(streams, seq(|streams|, _ => 0)) + Strays(scans)
  {
    var streams := Streams(scans);
    var fronts := Fronts(streams, seq(|streams|, _ => 0));
    forall f | f in FirstFronts(scans) ensures f in fronts + Strays(scans) {
      assert HasEntries(scans[f.table]);
    }
  }

  // ---------- the merge ----------

  datatype MergeResult =
    | Merged(out: seq<Entry>, entriesMerged: nat, duplicatesRemoved: nat)
    | IndexPanic

  /** One cursor per table that scanned some entries or failed, and the first front of each. */
  method OpenCursors(scans: seq<ScanOutcome>) returns (cursors: seq<seq<Entry>>, heap: set<Front>)
    ensures cursors == Cursors(scans) && heap == FirstFronts(scans)
  {
    cursors, heap := [], {};
    for i := 0 to |scans|
      invariant cursors == Cursors(scans[..i]) && heap == FirstFronts(scans[..i])
    {
      assert scans[..i + 1][..i] == scans[..i];
      assert FirstFronts(scans[..i + 1]) ==
             FirstFronts(scans[..i]) + (if HasEntries(scans[i]) then {Front(scans[i].entries[0], i)} else {});
      match scans[i] {
        case Scanned(entries) =>
          if entries != [] {
            heap := heap + {Front(entries[0], i)};
            cursors := cursors + [entries];
          } else {
            assert cursors + [] == cursors;
          }
        case ScanFailed => cursors := cursors + [[]];
      }
    }
    assert scans[..|scans|] == scans;
  }

  /** The merge goes out of bounds exactly when some table with entries has no cursor of its number.
      Otherwise its output is a merge of the inputs exactly when the streams run in key order and
      show every input. Both hold when the scans are aligned; without failed scans nothing less
      will do. What was written and what was dropped add up to all that the streams held. */
  method MergeSstables(scans: seq<ScanOutcome>) returns (r: MergeResult)
    requires SortedScans(scans)
    ensures r.IndexPanic? <==> OutOfBounds(scans)
    ensures r.Merged? ==>
              && (IsMerge(Inputs(scans), r.out) <==> StreamsFaithful(scans))
              && (AllAscend(Streams(scans)) ==> IsStreamMerge(Streams(scans), r.out))
              && r.entriesMerged == |r.out|
              && r.entriesMerged + r.duplicatesRemoved == TotalLength(Streams(scans))
    ensures Aligned(scans) ==>
              && r.Merged? && IsMerge(Inputs(scans), r.out)
              && r.entriesMerged == |KeySet(Inputs(scans))|
              && r.entriesMerged + r.duplicatesRemoved == TotalLength(Inputs(scans))
    ensures NoFailure(scans) ==> (r.IndexPanic? <==> !Aligned(scans))
  {
    hide Aligned, MergeState, Fronts, IsMerge, SortedScans, NoFailure, Inputs, IsTop, KeySet, Total, TotalLength,
      Strays, OutOfBounds, AllAscend, StreamsFaithful, IsStreamMerge, FirstFronts, Stream;
    var cursors, heap := OpenCursors(scans);
    var positions: seq<nat> := seq(|cursors|, _ => 0);
    var entriesMerged, duplicatesRemoved := 0, 0;
    var out: seq<Entry> := [];
    var lastKey: Option<ByteString> := None;
    ghost var streams := Streams(scans);
    TotalZero(|cursors|);
    MergeStarts(streams);
    FirstFrontsSplit(scans);
    StraysIff(scans);
    AlignmentMatters(scans);
    while heap != {}
      invariant |positions| == |cursors| && MergeState(streams, positions, out)
      invariant heap == Fronts(streams, positions) + Strays(scans)
      invariant lastKey == if out == [] then None else Some(out[|out| - 1].key)
      invariant entriesMerged == |out| && entriesMerged + duplicatesRemoved == Total(positions)
      decreases TotalLength(streams) - Total(positions)
    {
      TopExists(heap);
      var e :| e in heap && IsTop(e, heap);
      heap := heap - {e};
      ghost var before := out;
      if lastKey != Some(e.entry.key) {
        out := out + [e.entry];
        entriesMerged := entriesMerged + 1;
        lastKey := Some(e.entry.key);
      } else {
        duplicatesRemoved := duplicatesRemoved + 1;
      }
      assert out == Emit(before, e.entry);
      var t := e.table;
      if t >= |positions| {
        StrayTable(scans, positions, e);
        return IndexPanic;
      }
      TopOfFronts(scans, positions, e, heap + {e});
      MergeSteps(streams, positions, before, e);
      MoreLeft(streams, positions, t);
      NextInStream(scans, e, positions);
      positions := positions[t := positions[t] + 1];
      if positions[t] < |cursors[t]| {
        heap := heap + {Front(cursors[t][positions[t]], t)};
      }
    }
    MergeEnds(streams, positions, out);
    StreamMergeIff(scans, out);
    if Aligned(scans) {
      MergeCountsKeys(Inputs(scans), out);
    }
    return Merged(out, entriesMerged, duplicatesRemoved);
  }

  lemma StraysIff(scans: seq<ScanOutcome>)
    ensures Strays(scans) == {} <==> !OutOfBounds(scans)
  {
    if OutOfBounds(scans) {
      var i :| |Cursors(scans)| <= i < |scans| && HasEntries(scans[i]);
      assert Front(scans[i].entries[0], i) in Strays(scans);
    }
  }

  lemma AlignmentMatters(scans: seq<ScanOutcome>)
    requires SortedScans(scans)
    ensures Aligned(scans) ==> !OutOfBounds(scans) && StreamsFaithful(scans)
    ensures Aligned(scans) ==> TotalLength(Streams(scans)) == TotalLength(Inputs(scans))
    ensures NoFailure(scans) && !Aligned(scans) ==> OutOfBounds(scans)
  {
    hide StreamsFaithful, Streams, TotalLength, Inputs;
    if Aligned(scans) {
      AlignedStreams(scans);
      CursorsTotal(scans);
    } else if NoFailure(scans) {
      var i := MisalignedStray(scans);
    }
  }

  /** A popped number without a cursor belongs to a stray. */
  lemma StrayTable(scans: seq<ScanOutcome>, positions: seq<nat>, e: Front)
    requires |positions| == |Streams(scans)| && e.table >= |positions|
    requires e in Fronts(Streams(scans), positions) + Strays(scans)
    ensures Strays(scans) != {}
  {}

  lemma TopOfFronts(scans: seq<ScanOutcome>, positions: seq<nat>, e: Front, heap: set<Front>)
    requires |positions| == |Streams(scans)| && e.table < |positions|
    requires heap == Fronts(Streams(scans), positions) + Strays(scans) && IsTop(e, heap)
    ensures IsTop(e, Fronts(Streams(scans), positions)) && e !in Strays(scans)
  {}

  lemma MoreLeft(streams: seq<seq<Entry>>, positions: seq<nat>, t: nat)
    requires PositionsOk(streams, positions) && t < |streams| && positions[t] < |streams[t]|
    ensures var next := positions[t := positions[t] + 1];
            Total(next) == Total(positions) + 1 <= TotalLength(streams)
  {
    TotalBump(positions, t);
    TotalAtMost(streams, positions[t := positions[t] + 1]);
  }

  /** What the cursor of the number holds next is what the stream holds next. */
  lemma NextInStream(scans: seq<ScanOutcome>, e: Front, positions: seq<nat>)
    requires PositionsOk(Streams(scans), positions) && e in Fronts(Streams(scans), positions)
    ensures var t := e.table;
            var next := positions[t := positions[t] + 1];
            && Fronts(Streams(scans), next) ==
               Fronts(Streams(scans), positions) - {e}
               + (if next[t] < |Cursors(scans)[t]| then {Front(Cursors(scans)[t][next[t]], t)} else {})
  {
    FrontsAdvance(Streams(scans), positions, e);
  }

  // ---------- how it goes wrong ----------

  /** A failed scan can hide the misalignment that an empty one causes: the merge then finishes, and
      an entry of a readable table is neither written nor reported. */
  lemma HiddenMisalignment(first: Entry, second: Entry) returns (scans: seq<ScanOutcome>)
    requires Less(first.key, second.key)
    ensures scans == [Scanned([]), Scanned([first, second]), ScanFailed]
    ensures SortedScans(scans) && !OutOfBounds(scans) && !StreamsFaithful(scans)
    ensures AllAscend(Streams(scans))
    ensures forall out :: IsStreamMerge(Streams(scans), out) ==> out == [first]
  {
    scans := [Scanned([]), Scanned([first, second]), ScanFailed];
    HiddenCursors(first, second);
    hide Less, Cursors, Shown, IsStreamMerge;
    var streams := Streams(scans);
    assert streams[0] == [] && streams[1] == [first];
    assert streams == [[], [first]];
    SecondNotShown(first, second);
    assert !Shown(streams, InputOf(scans[1])[1]);
    forall out | IsStreamMerge(streams, out) ensures out == [first] {
      OnlyOne(first, out);
    }
  }

  lemma HiddenCursors(first: Entry, second: Entry)
    ensures Cursors([Scanned([]), Scanned([first, second]), ScanFailed]) == [[first, second], []]
  {
    var scans := [Scanned([]), Scanned([first, second]), ScanFailed];
    assert scans[..2][..1] == scans[..1] && scans[..1][..0] == [];
    var none: seq<seq<Entry>> := [];
    assert Cursors(scans[..1]) == none + [] == none;
    assert Cursors(scans[..2]) == none + [[first, second]];
  }

  lemma SecondNotShown(first: Entry, second: Entry)
    requires Less(first.key, second.key)
    ensures !Shown([[], [first]], second)
  {
    LessIrreflexive(first.key);
  }

  lemma OnlyOne(e: Entry, out: seq<Entry>)
    requires IsStreamMerge([[], [e]], out)
    ensures out == [e]
  {
    hide Less, Covered;
    var streams := [[], [e]];
    assert IsVisible(streams[1], 0);
    assert Covered(out, streams[1][0]);
    CoveredNonEmpty(out, e);
    forall o | 0 <= o < |out| ensures out[o] == e {
      assert FromVisible(streams, out[o]);
      var i, a :| 0 <= i < |streams| && IsVisible(streams[i], a) && streams[i][a] == out[o];
    }
    SortedDistinct(out);
  }

  lemma CoveredNonEmpty(out: seq<Entry>, e: Entry)
    requires Covered(out, e)
    ensures out != []
  {}

  lemma SortedDistinct(out: seq<Entry>)
    requires Sorted(out)
    ensures |out| > 1 ==> out[0].key != out[1].key
  {
    if |out| > 1 {
      LessIrreflexive(out[0].key);
    }
  }
}
