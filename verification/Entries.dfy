/** Entries, the map a history of puts builds, and the sorted entry lists that
    memtables produce and SSTables store. */
module Entries {
  import opened Bytes
  import opened Results

  datatype Version = Version(value: ByteString, timestamp: U64)

  datatype Entry = Entry(key: ByteString, value: ByteString, timestamp: U64) {
    function Ver(): Version {
      Version(value, timestamp)
    }
  }

  type Contents = map<ByteString, Version>

  // ---------- the map a history builds ----------

  /** The map built by putting the entries in order: the last put of a key wins. */
  function Replay(history: seq<Entry>): (m: Contents)
  {
    if history == [] then map[]
    else
      var last := history[|history| - 1];
      Replay(history[..|history| - 1])[last.key := last.Ver()]
  }

  lemma ReplayAppend(history: seq<Entry>, e: Entry)
    ensures Replay(history + [e]) == Replay(history)[e.key := e.Ver()]
  {
    assert (history + [e])[..|history|] == history;
  }

  /** Replaying a concatenation is replaying the first part and overriding it with the second. */
  lemma {:induction false} ReplayConcat(a: seq<Entry>, b: seq<Entry>)
    ensures Replay(a + b) == Replay(a) + Replay(b)
  {
    if b == [] {
      assert a + b == a;
    } else {
      var front, last := b[..|b| - 1], b[|b| - 1];
      assert b == front + [last];
      Regroup(a, front, [last]);
      ReplayConcat(a, front);
      ReplayAppend(a + front, last);
      ReplayAppend(front, last);
    }
  }

  /** Replaying an overlapping suffix over a prefix gives the whole history:
      the entries replayed twice do not matter. */
  lemma ReplayOverlap(history: seq<Entry>, from: nat, upTo: nat)
    requires from <= upTo <= |history|
    ensures Replay(history[..upTo]) + Replay(history[from..]) == Replay(history)
  {
    CutTwice(history, from, upTo);
    ReplayOverlapParts(history[..from], history[from..upTo], history[upTo..]);
  }

  lemma ReplayOverlapParts(a: seq<Entry>, b: seq<Entry>, c: seq<Entry>)
    ensures Replay(a + b) + Replay(b + c) == Replay(a + (b + c))
  {
    ReplayConcat(a, b);
    ReplayConcat(b, c);
    ReplayConcat(a, b + c);
    UnionAbsorbs(Replay(a), Replay(b), Replay(c));
  }

  lemma UnionAbsorbs<K, V>(a: map<K, V>, b: map<K, V>, c: map<K, V>)
    ensures (a + b) + (b + c) == a + (b + c)
  {}

  lemma UnionAssociates<K, V>(a: map<K, V>, b: map<K, V>, c: map<K, V>)
    ensures (a + b) + c == a + (b + c)
  {}

  // ---------- sorted lists ----------

  ghost predicate Sorted(es: seq<Entry>) {
    forall i, j :: 0 <= i < j < |es| ==> Less(es[i].key, es[j].key)
  }

  lemma SortedAppend(es: seq<Entry>, e: Entry)
    requires Sorted(es)
    requires forall i :: 0 <= i < |es| ==> Less(es[i].key, e.key)
    ensures Sorted(es + [e])
  {}

  /** Plain list lookup: the first entry with the key. */
  function Lookup(es: seq<Entry>, key: ByteString): (found: Option<Version>)
  {
    if es == [] then None
    else if es[0].key == key then Some(es[0].Ver())
    else Lookup(es[1..], key)
  }

  function Find(m: Contents, key: ByteString): Option<Version> {
    if key in m then Some(m[key]) else None
  }

  lemma {:induction false} LookupConcat(a: seq<Entry>, b: seq<Entry>, key: ByteString)
    ensures Lookup(a + b, key) == (if Lookup(a, key).Some? then Lookup(a, key) else Lookup(b, key))
  {
    if a == [] {
      assert a + b == b;
    } else {
      assert (a + b)[1..] == a[1..] + b;
      LookupConcat(a[1..], b, key);
    }
  }

  lemma {:induction false} LookupPresent(es: seq<Entry>, i: nat)
    requires Sorted(es) && i < |es|
    ensures Lookup(es, es[i].key) == Some(es[i].Ver())
  {
    if i > 0 {
      LessIrreflexive(es[0].key);
      LookupPresent(es[1..], i - 1);
    }
  }

  lemma {:induction false} LookupAbsent(es: seq<Entry>, key: ByteString)
    requires forall i :: 0 <= i < |es| ==> es[i].key != key
    ensures Lookup(es, key) == None
  {
    if es != [] {
      LookupAbsent(es[1..], key);
    }
  }

  lemma {:induction false} LookupFound(es: seq<Entry>, key: ByteString) returns (i: nat)
    requires Lookup(es, key).Some?
    ensures i < |es| && es[i].key == key && Lookup(es, key) == Some(es[i].Ver())
  {
    if es[0].key == key {
      i := 0;
    } else {
      i := LookupFound(es[1..], key);
      i := i + 1;
    }
  }

  /** On a sorted list the list lookup and the map agree. */
  lemma {:induction false} LookupIsFind(es: seq<Entry>, key: ByteString)
    requires Sorted(es)
    ensures Lookup(es, key) == Find(Replay(es), key)
  {
    if es != [] {
      var n := |es| - 1;
      LookupIsFind(es[..n], key);
      assert es == es[..n] + [es[n]];
      LookupConcat(es[..n], [es[n]], key);
      if key == es[n].key {
        LookupPresent(es, n);
      }
    }
  }

  // ---------- the sorted list of a map ----------

  /** `key` is an upper bound of `keys` that it belongs to. */
  predicate IsGreatest(key: ByteString, keys: set<ByteString>) {
    key in keys && forall o :: o in keys ==> AtMost(o, key)
  }

  lemma {:induction false} GreatestExists(keys: set<ByteString>)
    requires keys != {}
    ensures exists key :: IsGreatest(key, keys)
  {
    var k :| k in keys;
    var rest := keys - {k};
    if rest == {} {
      assert keys == {k};
      assert IsGreatest(k, keys);
    } else {
      GreatestExists(rest);
      var g :| IsGreatest(g, rest);
      LessTrichotomy(k, g);
      var top := if Less(g, k) then k else g;
      forall o | o in keys ensures AtMost(o, top) {
        if o in rest && Less(g, k) {
          LessAtMostTransitive(o, g, k);
        }
      }
      assert IsGreatest(top, keys);
    }
  }

  lemma GreatestUnique(a: ByteString, b: ByteString, keys: set<ByteString>)
    requires IsGreatest(a, keys) && IsGreatest(b, keys)
    ensures a == b
  {
    LessTrichotomy(a, b);
  }

  function Greatest(keys: set<ByteString>): (key: ByteString)
    requires keys != {}
    ensures IsGreatest(key, keys)
  {
    GreatestExists(keys);
    assert forall a, b :: IsGreatest(a, keys) && IsGreatest(b, keys) ==> a == b by {
      forall a, b | IsGreatest(a, keys) && IsGreatest(b, keys) ensures a == b {
        GreatestUnique(a, b, keys);
      }
    }
    var key :| key in keys && IsGreatest(key, keys);
    key
  }

  /** The entries of the map in key order: iterating a `BTreeMap`. */
  function SortedEntries(m: Contents): (es: seq<Entry>)
    decreases |m|
  {
    if m == map[] then []
    else
      assert m.Keys != {};
      var key := Greatest(m.Keys);
      SortedEntries(m - {key}) + [Entry(key, m[key].value, m[key].timestamp)]
  }

  /** Iteration is strictly sorted and loses nothing: rebuilding the map from it gives the map. */
  lemma {:induction false} SortedEntriesCorrect(m: Contents)
    ensures Sorted(SortedEntries(m))
    ensures Replay(SortedEntries(m)) == m
    ensures |SortedEntries(m)| == |m|
    decreases |m|
  {
    if m != map[] {
      assert m.Keys != {};
      var key := Greatest(m.Keys);
      var rest := m - {key};
      var es := SortedEntries(rest);
      var last := Entry(key, m[key].value, m[key].timestamp);
      SortedEntriesCorrect(rest);
      ReplayAppend(es, last);
      assert m == rest[key := m[key]];
      forall i | 0 <= i < |es| ensures Less(es[i].key, key) {
        ReplayKeys(es);
        assert es[i].key in rest.Keys;
        assert IsGreatest(key, m.Keys);
      }
      SortedAppend(es, last);
    }
  }

  lemma {:induction false} ReplayKeys(es: seq<Entry>)
    ensures forall k :: k in Replay(es) <==> exists i :: 0 <= i < |es| && es[i].key == k
  {
    if es != [] {
      var n := |es| - 1;
      ReplayKeys(es[..n]);
      assert es[n].key in Replay(es);
      forall k | k in Replay(es) && k != es[n].key ensures exists i :: 0 <= i < |es| && es[i].key == k {
        assert k in Replay(es[..n]);
        var i :| 0 <= i < n && es[..n][i].key == k;
        assert es[i].key == k;
      }
      forall i | 0 <= i < |es| ensures es[i].key in Replay(es) {
        assert i < n ==> es[..n][i].key in Replay(es[..n]);
      }
    }
  }

  /** A sorted list is determined by its map. */
  lemma {:induction false} SortedListUnique(es: seq<Entry>)
    requires Sorted(es)
    ensures SortedEntries(Replay(es)) == es
  {
    if es != [] {
      var n := |es| - 1;
      SortedListUnique(es[..n]);
      LastIsGreatest(es);
      assert es == es[..n] + [es[n]];
    }
  }

  lemma LastIsGreatest(es: seq<Entry>)
    requires Sorted(es) && es != []
    ensures var n := |es| - 1;
            var m := Replay(es);
            m != map[] && Greatest(m.Keys) == es[n].key && m[es[n].key] == es[n].Ver()
            && m - {es[n].key} == Replay(es[..n])
  {
    var n := |es| - 1;
    var m, key := Replay(es), es[n].key;
    assert key in m;
    ReplayKeys(es);
    forall o | o in m.Keys ensures AtMost(o, key) {
      var i :| 0 <= i < |es| && es[i].key == o;
    }
    GreatestUnique(Greatest(m.Keys), key, m.Keys);
    assert key !in Replay(es[..n]) by {
      ReplayKeys(es[..n]);
      LessIrreflexive(key);
    }
    assert m == Replay(es[..n])[key := es[n].Ver()];
    assert m - {key} == Replay(es[..n]);
  }

  // ---------- ranges ----------

  /** `start <= key < end`, or `start <= key <= end` when `inclusive`. */
  predicate InRange(key: ByteString, start: ByteString, end: ByteString, inclusive: bool) {
    AtMost(start, key) && (Less(key, end) || (inclusive && key == end))
  }

  /** The entries whose keys lie in the range, in list order. */
  function Range(es: seq<Entry>, start: ByteString, end: ByteString, inclusive: bool): (r: seq<Entry>)
  {
    if es == [] then []
    else
      (if InRange(es[0].key, start, end, inclusive) then [es[0]] else []) + Range(es[1..], start, end, inclusive)
  }

  lemma {:induction false} RangeConcat(
    a: seq<Entry>, b: seq<Entry>, start: ByteString, end: ByteString, inclusive: bool)
    ensures Range(a + b, start, end, inclusive) == Range(a, start, end, inclusive) + Range(b, start, end, inclusive)
  {
    if a == [] {
      assert a + b == b;
    } else {
      assert (a + b)[1..] == a[1..] + b;
      RangeConcat(a[1..], b, start, end, inclusive);
      Regroup(if InRange(a[0].key, start, end, inclusive) then [a[0]] else [],
              Range(a[1..], start, end, inclusive), Range(b, start, end, inclusive));
    }
  }

  /** A range keeps order, and holds exactly the listed entries that lie in it. */
  lemma {:induction false} RangeCorrect(es: seq<Entry>, start: ByteString, end: ByteString, inclusive: bool)
    ensures forall e :: e in Range(es, start, end, inclusive) <==>
                    e in es && AtMost(start, e.key) && (Less(e.key, end) || (inclusive && e.key == end))
    ensures Sorted(es) ==> Sorted(Range(es, start, end, inclusive))
  {
    if es != [] {
      RangeCorrect(es[1..], start, end, inclusive);
    }
  }
}
