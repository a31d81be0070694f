/** Choosing tables for compaction (src/compaction.rs): the largest group of similar size. */
module Selection {
  import opened Results

  /** A table file; its size is missing when its metadata cannot be read. */
  datatype Candidate = Candidate(path: string, size: Option<nat>)

  datatype Sized = Sized(path: string, size: nat)

  /** `size <= base * 1.5` */
  predicate Within(base: nat, size: nat) {
    2 * size <= 3 * base
  }

  /** The files whose size is known. */
  function Measured(files: seq<Candidate>): seq<Sized> {
    if files == [] then []
    else
      (match files[0].size case Some(n) => [Sized(files[0].path, n)] case None => []) + Measured(files[1..])
  }

  /** Each file is measured as often as it is listed with that size, and one without a size is left out. */
  lemma {:induction false} MeasuredExactly(files: seq<Candidate>, f: Sized)
    ensures multiset(Measured(files))[f] == multiset(files)[Candidate(f.path, Some(f.size))]
  {
    if files != [] {
      var first, rest := files[0], files[1..];
      MeasuredExactly(rest, f);
      assert files == [first] + rest;
      CountFirst(first, rest, Candidate(f.path, Some(f.size)));
      match first.size {
        case Some(n) => CountFirst(Sized(first.path, n), Measured(rest), f);
        case None => assert Measured(files) == Measured(rest);
      }
    }
  }

  lemma CountFirst<T>(first: T, rest: seq<T>, x: T)
    ensures multiset([first] + rest)[x] == (if x == first then 1 else 0) + multiset(rest)[x]
  {}

  ghost predicate SortedBySize(fs: seq<Sized>) {
    forall i, j :: 0 <= i < j < |fs| ==> fs[i].size <= fs[j].size
  }

  function InsertBySize(f: Sized, fs: seq<Sized>): seq<Sized> {
    if fs == [] || f.size <= fs[0].size then [f] + fs else [fs[0]] + InsertBySize(f, fs[1..])
  }

  /** Stable sort by size. */
  function SortBySize(fs: seq<Sized>): seq<Sized> {
    if fs == [] then [] else InsertBySize(fs[0], SortBySize(fs[1..]))
  }

  lemma {:induction false} InsertBySizeKeeps(f: Sized, fs: seq<Sized>)
    ensures multiset(InsertBySize(f, fs)) == multiset([f]) + multiset(fs)
  {
    if fs != [] && f.size > fs[0].size {
      InsertBySizeKeeps(f, fs[1..]);
      assert fs == [fs[0]] + fs[1..];
    }
  }

  lemma {:induction false} InsertBySizeSorted(f: Sized, fs: seq<Sized>, least: nat)
    requires SortedBySize(fs) && least <= f.size && forall i :: 0 <= i < |fs| ==> least <= fs[i].size
    ensures var r := InsertBySize(f, fs);
            SortedBySize(r) && forall i :: 0 <= i < |r| ==> least <= r[i].size
  {
    if fs != [] && f.size > fs[0].size {
      InsertBySizeSorted(f, fs[1..], fs[0].size);
    }
  }

  lemma {:induction false} SortBySizeCorrect(fs: seq<Sized>)
    ensures SortedBySize(SortBySize(fs))
    ensures multiset(SortBySize(fs)) == multiset(fs)
  {
    if fs != [] {
      SortBySizeCorrect(fs[1..]);
      InsertBySizeKeeps(fs[0], SortBySize(fs[1..]));
      InsertBySizeSorted(fs[0], SortBySize(fs[1..]), 0);
      assert fs == [fs[0]] + fs[1..];
    }
  }

  /** The files of one size, in order. */
  function OfSize(fs: seq<Sized>, n: nat): seq<Sized> {
    if fs == [] then [] else (if fs[0].size == n then [fs[0]] else []) + OfSize(fs[1..], n)
  }

  /** Files of equal size keep their order. */
  lemma {:induction false} SortBySizeStable(fs: seq<Sized>, n: nat)
    ensures OfSize(SortBySize(fs), n) == OfSize(fs, n)
  {
    if fs != [] {
      SortBySizeStable(fs[1..], n);
      InsertStable(fs[0], SortBySize(fs[1..]), n);
    }
  }

  lemma {:induction false} InsertStable(f: Sized, fs: seq<Sized>, n: nat)
    ensures OfSize(InsertBySize(f, fs), n) == (if f.size == n then [f] else []) + OfSize(fs, n)
  {
    if fs == [] || f.size <= fs[0].size {
      OfSizeFront(f, fs, n);
    } else {
      InsertStable(f, fs[1..], n);
      OfSizeFront(fs[0], InsertBySize(f, fs[1..]), n);
      SmallerFirst(f, fs[0], n, OfSize(fs[1..], n));
    }
  }

  lemma SmallerFirst(f: Sized, first: Sized, n: nat, others: seq<Sized>)
    requires first.size < f.size
    ensures var a, b := if f.size == n then [f] else [], if first.size == n then [first] else [];
            a + (b + others) == b + (a + others)
  {}

  lemma OfSizeFront(f: Sized, fs: seq<Sized>, n: nat)
    ensures OfSize([f] + fs, n) == (if f.size == n then [f] else []) + OfSize(fs, n)
  {
    assert ([f] + fs)[1..] == fs;
  }

  function Paths(fs: seq<Sized>): (ps: seq<string>)
    ensures |ps| == |fs| && forall i :: 0 <= i < |fs| ==> ps[i] == fs[i].path
  {
    seq(|fs|, i requires 0 <= i < |fs| => fs[i].path)
  }

  /** Enough files, all within one and a half times the smallest. */
  ghost predicate Qualifies(group: multiset<Sized>, minTables: nat) {
    && |group| >= minTables
    && forall f, g :: f in group && g in group ==> 2 * g.size <= 3 * f.size
  }

  /** The group starting at `i` is the stretch up to `j`, and everything after is too large. */
  ghost predicate GroupAt(fs: seq<Sized>, i: int, j: int) {
    && 0 <= i < j <= |fs|
    && (forall k :: i <= k < j ==> Within(fs[i].size, fs[k].size))
    && (forall k :: j <= k < |fs| ==> !Within(fs[i].size, fs[k].size))
  }

  function StretchEnd(fs: seq<Sized>, i: nat, j: nat): (end: nat)
    requires i < j <= |fs|
    ensures j <= end <= |fs|
    decreases |fs| - j
  {
    if j < |fs| && Within(fs[i].size, fs[j].size) then StretchEnd(fs, i, j + 1) else j
  }

  function GroupSize(fs: seq<Sized>, i: nat): nat
    requires i < |fs|
  {
    StretchEnd(fs, i, i + 1) - i
  }

  lemma {:induction false} StretchIsGroup(fs: seq<Sized>, i: nat, j: nat)
    requires SortedBySize(fs) && i < j <= |fs|
    requires forall k :: i <= k < j ==> Within(fs[i].size, fs[k].size)
    ensures GroupAt(fs, i, StretchEnd(fs, i, j))
    decreases |fs| - j
  {
    if j < |fs| && Within(fs[i].size, fs[j].size) {
      StretchIsGroup(fs, i, j + 1);
    } else {
      forall k | j <= k < |fs| ensures !Within(fs[i].size, fs[k].size) {
        assert j < k ==> fs[j].size <= fs[k].size;
      }
    }
  }

  /** No qualifying group whose smallest member has the size of the file at `i` is larger than the
      stretch starting at the first file of that size. */
  lemma GroupBound(fs: seq<Sized>, i: nat, j: nat, group: multiset<Sized>)
    requires SortedBySize(fs) && GroupAt(fs, i, j)
    requires i > 0 ==> fs[i - 1].size < fs[i].size
    requires group <= multiset(fs)
    requires forall f :: f in group ==> fs[i].size <= f.size && Within(fs[i].size, f.size)
    ensures |group| <= j - i
  {
    hide Within, SortedBySize;
    var mid := multiset(fs[i..j]);
    SizesApart(fs, i, j);
    SplitMultiset(fs, i, j);
    forall f | f in group ensures group[f] <= mid[f] {
      assert f !in multiset(fs[..i]) && f !in multiset(fs[j..]);
      assert group[f] <= multiset(fs)[f];
    }
    SubMultisetSize(group, mid);
  }

  lemma SplitMultiset<T>(s: seq<T>, i: nat, j: nat)
    requires i <= j <= |s|
    ensures multiset(s) == multiset(s[..i]) + multiset(s[i..j]) + multiset(s[j..])
  {
    assert s == s[..i] + s[i..j] + s[j..];
  }

  lemma SizesApart(fs: seq<Sized>, i: nat, j: nat)
    requires SortedBySize(fs) && GroupAt(fs, i, j)
    requires i > 0 ==> fs[i - 1].size < fs[i].size
    ensures forall f: Sized :: f in multiset(fs[..i]) ==> f.size < fs[i].size
    ensures forall f: Sized :: f in multiset(fs[j..]) ==> !Within(fs[i].size, f.size)
  {
    var low, high := fs[..i], fs[j..];
    forall f: Sized | f in multiset(low) ensures f.size < fs[i].size {
      assert f in low;
      var k :| 0 <= k < i && low[k] == f;
      assert k < i - 1 ==> fs[k].size <= fs[i - 1].size;
    }
    forall f: Sized | f in multiset(high) ensures !Within(fs[i].size, f.size) {
      assert f in high;
      var k :| 0 <= k < |high| && high[k] == f;
      assert fs[j + k] == f;
    }
  }

  lemma {:induction false} SubMultisetSize<T>(a: multiset<T>, b: multiset<T>)
    requires forall x :: x in a ==> a[x] <= b[x]
    ensures |a| <= |b|
  {
    assert a <= b;
    assert b == a + (b - a);
  }

  lemma {:induction false} SmallestExists(group: multiset<Sized>) returns (s: Sized)
    requires |group| > 0
    ensures s in group && forall f :: f in group ==> s.size <= f.size
    decreases |group|
  {
    s :| s in group;
    var rest := group - multiset{s};
    if |rest| > 0 {
      var t := SmallestExists(rest);
      forall f | f in group ensures f == s || f in rest {}
      if t.size < s.size {
        s := t;
      }
    } else {
      assert group == multiset{s};
    }
  }

  lemma FirstOfSize(fs: seq<Sized>, s: Sized) returns (i: nat)
    requires SortedBySize(fs) && s in fs
    ensures i < |fs| && fs[i].size == s.size && (i > 0 ==> fs[i - 1].size < fs[i].size)
  {
    i :| 0 <= i < |fs| && fs[i] == s;
    while i > 0 && fs[i - 1].size == fs[i].size
      invariant i < |fs| && fs[i].size == s.size
    {
      i := i - 1;
    }
  }

  /** The group is the stretch starting at `i`, and every earlier one is smaller. */
  ghost predicate FirstBest(fs: seq<Sized>, minTables: nat, i: int, best: seq<Sized>) {
    && 0 <= i < |fs| && best == fs[i..i + GroupSize(fs, i)]
    && forall k :: 0 <= k < i ==> GroupSize(fs, k) < minTables || GroupSize(fs, k) < |best|
  }

  /** What the outer loop has established: the best group among those starting before `n`. */
  ghost predicate BestUpTo(fs: seq<Sized>, minTables: nat, n: nat, best: seq<Sized>)
    requires n <= |fs|
  {
    && (best != [] ==> Qualifies(multiset(best), minTables) && multiset(best) <= multiset(fs))
    && (best != [] ==> exists i :: FirstBest(fs, minTables, i, best))
    && forall i :: 0 <= i < n ==> GroupSize(fs, i) < minTables || GroupSize(fs, i) <= |best|
  }

  /** Keeping the larger of the best group and the group at `i` extends what is established. */
  lemma BestExtends(fs: seq<Sized>, minTables: nat, i: nat, before: seq<Sized>, best: seq<Sized>)
    requires i < |fs| && BestUpTo(fs, minTables, i, before)
    requires best == if GroupSize(fs, i) >= minTables && GroupSize(fs, i) > |before|
                     then fs[i..i + GroupSize(fs, i)] else before
    requires SortedBySize(fs)
    ensures BestUpTo(fs, minTables, i + 1, best)
  {
    hide Qualifies, SortedBySize, GroupAt, StretchEnd, FirstBest;
    if best != before {
      StretchIsGroup(fs, i, i + 1);
      StretchQualifies(fs, i, i + GroupSize(fs, i), minTables);
      NewFirst(fs, minTables, i, before, best);
    }
  }

  lemma NewFirst(fs: seq<Sized>, minTables: nat, i: nat, before: seq<Sized>, best: seq<Sized>)
    requires i < |fs| && BestUpTo(fs, minTables, i, before) && best == fs[i..i + GroupSize(fs, i)]
    requires |before| < |best|
    ensures FirstBest(fs, minTables, i, best)
  {
    hide Qualifies, StretchEnd;
  }

  lemma BestIsOptimal(fs: seq<Sized>, minTables: nat, best: seq<Sized>, group: multiset<Sized>)
    requires SortedBySize(fs) && BestUpTo(fs, minTables, |fs|, best)
    requires group <= multiset(fs) && Qualifies(group, minTables)
    ensures |group| <= |best|
    ensures |group| == |best| ==> forall g :: g in group ==> best[0].size <= g.size
  {
    hide BestUpTo, StretchEnd, SortedBySize;
    if |group| > 0 {
      var s := SmallestExists(group);
      assert s in multiset(fs);
      var i := FirstOfSize(fs, s);
      StretchIsGroup(fs, i, i + 1);
      GroupBound(fs, i, i + GroupSize(fs, i), group);
      BestBounds(fs, minTables, i, best);
      if |group| == |best| {
        FirstIsSmallest(fs, minTables, i, best);
        assert forall g :: g in group ==> fs[i].size <= g.size;
      }
    }
  }

  lemma BestBounds(fs: seq<Sized>, minTables: nat, i: nat, best: seq<Sized>)
    requires BestUpTo(fs, minTables, |fs|, best) && i < |fs|
    ensures GroupSize(fs, i) < minTables || GroupSize(fs, i) <= |best|
  {}

  lemma FirstIsSmallest(fs: seq<Sized>, minTables: nat, i: nat, best: seq<Sized>)
    requires SortedBySize(fs) && BestUpTo(fs, minTables, |fs|, best) && best != []
    requires i < |fs| && GroupSize(fs, i) >= |best| && GroupSize(fs, i) >= minTables
    ensures best[0].size <= fs[i].size
  {
    hide Qualifies, StretchEnd;
    var first :| FirstBest(fs, minTables, first, best);
    assert first <= i;
  }

  lemma StretchQualifies(fs: seq<Sized>, i: nat, j: nat, minTables: nat)
    requires SortedBySize(fs) && GroupAt(fs, i, j) && j - i >= minTables
    ensures Qualifies(multiset(fs[i..j]), minTables) && multiset(fs[i..j]) <= multiset(fs)
  {
    var group := multiset(fs[i..j]);
    forall f, g | f in group && g in group ensures Within(f.size, g.size) {
      var a := InStretch(fs, i, j, f);
      var b := InStretch(fs, i, j, g);
      SmallestFirst(fs, i, a);
    }
    SplitMultiset(fs, i, j);
  }

  lemma InStretch(fs: seq<Sized>, i: nat, j: nat, f: Sized) returns (a: nat)
    requires i <= j <= |fs| && f in multiset(fs[i..j])
    ensures i <= a < j && fs[a] == f
  {
    var part := fs[i..j];
    assert f in part;
    var k :| 0 <= k < |part| && part[k] == f;
    a := i + k;
  }

  lemma SmallestFirst(fs: seq<Sized>, i: nat, a: nat)
    requires SortedBySize(fs) && i <= a < |fs|
    ensures fs[i].size <= fs[a].size
  {}

  /** Grows a group from every file in turn and keeps the first of the largest. */
  method LargestGroup(fs: seq<Sized>, minTables: nat) returns (best: seq<Sized>)
    requires SortedBySize(fs)
    ensures BestUpTo(fs, minTables, |fs|, best)
  {
    hide Qualifies, SortedBySize, BestUpTo;
    best := [];
    assert BestUpTo(fs, minTables, 0, []) by {
      BestOfNone(fs, minTables);
    }
    for i := 0 to |fs|
      invariant BestUpTo(fs, minTables, i, best)
    {
      var g := [fs[i]];
      var j := i + 1;
      while j < |fs|
        invariant i < j <= |fs| && g == fs[i..j]
        invariant StretchEnd(fs, i, j) == StretchEnd(fs, i, i + 1)
      {
        if !Within(fs[i].size, fs[j].size) {
          break;
        }
        g := g + [fs[j]];
        j := j + 1;
      }
      ghost var before := best;
      if |g| >= minTables && |g| > |best| {
        best := g;
      }
      BestExtends(fs, minTables, i, before, best);
    }
  }

  lemma BestOfNone(fs: seq<Sized>, minTables: nat)
    ensures BestUpTo(fs, minTables, 0, [])
  {}

  /** The paths are those of a group that is empty or qualifies, in order of size; no qualifying group of
      the measured files is larger, and none as large has a smaller member than its first. */
  ghost predicate IsBestSelection(files: seq<Candidate>, minTables: nat, paths: seq<string>) {
    exists group: seq<Sized> ::
      && paths == Paths(group)
      && (group != [] ==> Qualifies(multiset(group), minTables))
      && IsStretch(group, SortBySize(Measured(files)))
      && multiset(group) <= multiset(Measured(files))
      && NoneBetter(files, minTables, group)
  }

  ghost predicate IsStretch(group: seq<Sized>, fs: seq<Sized>) {
    exists i: nat, j: nat :: i <= j <= |fs| && fs[i..j] == group
  }

  ghost predicate NoneBetter(files: seq<Candidate>, minTables: nat, group: seq<Sized>) {
    forall other: multiset<Sized> ::
      other <= multiset(Measured(files)) && Qualifies(other, minTables) ==>
        |other| <= |group| && (|other| == |group| ==> forall f :: f in other ==> group[0].size <= f.size)
  }

  method SelectSstablesForCompaction(files: seq<Candidate>, minTables: nat) returns (paths: seq<string>)
    ensures IsBestSelection(files, minTables, paths)
  {
    hide Qualifies, SortedBySize, SortBySize;
    if |files| < minTables {
      forall other: multiset<Sized> | other <= multiset(Measured(files)) ensures !Qualifies(other, minTables) {
        TooFew(files, minTables, other);
      }
      var none: seq<Sized> := [];
      assert NoneBetter(files, minTables, none);
      assert SortBySize(Measured(files))[0..0 + |none|] == none;
      return Paths(none);
    }
    var fs := SortBySize(Measured(files));
    SortBySizeCorrect(Measured(files));
    var best := LargestGroup(fs, minTables);
    BestBeatsAll(files, minTables, best);
    BestIsStretch(fs, minTables, best);
    return Paths(best);
  }

  lemma BestBeatsAll(files: seq<Candidate>, minTables: nat, best: seq<Sized>)
    requires var fs := SortBySize(Measured(files));
             SortedBySize(fs) && multiset(fs) == multiset(Measured(files)) && BestUpTo(fs, minTables, |fs|, best)
    ensures NoneBetter(files, minTables, best)
  {
    hide Qualifies, SortedBySize, SortBySize, BestUpTo;
    forall other: multiset<Sized> | other <= multiset(Measured(files)) && Qualifies(other, minTables)
      ensures |other| <= |best| && (|other| == |best| ==> forall f :: f in other ==> best[0].size <= f.size)
    {
      BestIsOptimal(SortBySize(Measured(files)), minTables, best, other);
    }
  }

  lemma BestIsStretch(fs: seq<Sized>, minTables: nat, best: seq<Sized>)
    requires BestUpTo(fs, minTables, |fs|, best)
    ensures IsStretch(best, fs)
  {
    if best == [] {
      assert fs[0..0 + |best|] == best;
    } else {
      var i :| FirstBest(fs, minTables, i, best);
      assert fs[i..i + |best|] == best;
    }
  }

  lemma TooFew(files: seq<Candidate>, minTables: nat, other: multiset<Sized>)
    requires |files| < minTables && other <= multiset(Measured(files))
    ensures !Qualifies(other, minTables)
  {
    MeasuredSize(files);
    SubMultisetSize(other, multiset(Measured(files)));
  }

  lemma {:induction false} MeasuredSize(files: seq<Candidate>)
    ensures |Measured(files)| <= |files|
  {
    if files != [] {
      MeasuredSize(files[1..]);
    }
  }
}
