/** The names of table files (src/storage_engine.rs): compacted ones do not parse as numbers, and what
    a restart makes of the order of the tables. */
module TableFiles {
  import opened Bytes
  import opened Entries
  import opened Numbers
  import opened Tables

  /** A table file's name: a number, or a number followed by `_compacted`. */
  datatype FileName = Numbered(id: nat) | NumberedCompacted(id: nat)

  /** The number a restart sorts by; a compacted table's name does not parse. */
  function SortKey(name: FileName): nat {
    match name case Numbered(id) => id case NumberedCompacted(_) => 0
  }

  datatype NamedTable = NamedTable(name: FileName, table: Table)

  function InsertFile(f: NamedTable, fs: seq<NamedTable>): seq<NamedTable> {
    if fs == [] || SortKey(f.name) <= SortKey(fs[0].name) then [f] + fs else [fs[0]] + InsertFile(f, fs[1..])
  }

  /** Stable sort by number: what a restart does with the directory listing. */
  function SortFiles(fs: seq<NamedTable>): seq<NamedTable> {
    if fs == [] then [] else InsertFile(fs[0], SortFiles(fs[1..]))
  }

  function CompactedFiles(fs: seq<NamedTable>): seq<NamedTable> {
    if fs == [] then []
    else (if fs[0].name.NumberedCompacted? then [fs[0]] else []) + CompactedFiles(fs[1..])
  }

  function NumberedFiles(fs: seq<NamedTable>): seq<NamedTable> {
    if fs == [] then []
    else (if fs[0].name.Numbered? then [fs[0]] else []) + NumberedFiles(fs[1..])
  }

  function TablesOf(fs: seq<NamedTable>): (tables: seq<Table>)
    ensures |tables| == |fs| && forall i :: 0 <= i < |fs| ==> tables[i] == fs[i].table
  {
    seq(|fs|, i requires 0 <= i < |fs| => fs[i].table)
  }

  /** File numbers start at 1. */
  ghost predicate NumbersPositive(fs: seq<NamedTable>) {
    forall f :: f in fs ==> f.name.id > 0
  }

  ghost predicate NumbersAscend(fs: seq<NamedTable>) {
    forall i, j :: 0 <= i < j < |fs| ==> SortKey(fs[i].name) < SortKey(fs[j].name)
  }

  lemma {:induction false} InsertPast(f: NamedTable, compacted: seq<NamedTable>, numbered: seq<NamedTable>)
    requires SortKey(f.name) > 0 && forall c :: c in compacted ==> c.name.NumberedCompacted?
    ensures InsertFile(f, compacted + numbered) == compacted + InsertFile(f, numbered)
  {
    if compacted == [] {
      assert compacted + numbered == numbered && compacted + InsertFile(f, numbered) == InsertFile(f, numbered);
    } else {
      assert compacted[0] in compacted;
      assert (compacted + numbered)[1..] == compacted[1..] + numbered;
      InsertPast(f, compacted[1..], numbered);
      assert compacted == [compacted[0]] + compacted[1..];
    }
  }

  lemma {:induction false} CompactedOnly(fs: seq<NamedTable>)
    ensures forall c :: c in CompactedFiles(fs) <==> c in fs && c.name.NumberedCompacted?
    ensures forall c :: c in NumberedFiles(fs) <==> c in fs && c.name.Numbered?
  {
    if fs != [] {
      CompactedOnly(fs[1..]);
      assert fs == [fs[0]] + fs[1..];
    }
  }

  /** A restart puts every compacted table first, as listed, and then the numbered ones in order. */
  lemma {:induction false} RestartOrder(listing: seq<NamedTable>)
    requires NumbersPositive(listing)
    ensures SortFiles(listing) == CompactedFiles(listing) + SortFiles(NumberedFiles(listing))
  {
    if listing != [] {
      hide InsertFile, SortFiles, CompactedFiles, NumberedFiles;
      var f, rest := listing[0], listing[1..];
      assert listing == [f] + rest && f in listing;
      RestartOrder(rest);
      CompactedOnly(rest);
      FilesCons(f, rest);
      var compacted, numbered := CompactedFiles(rest), SortFiles(NumberedFiles(rest));
      match f.name {
        case Numbered(_) =>
          InsertPast(f, compacted, numbered);
          FilesCons(f, NumberedFiles(rest));
        case NumberedCompacted(_) =>
          InsertFirst(f, compacted + numbered);
          Regroup([f], compacted, numbered);
      }
    } else {
      NoFiles();
    }
  }

  lemma NoFiles()
    ensures SortFiles([]) == CompactedFiles([]) + SortFiles(NumberedFiles([]))
  {}

  lemma FilesCons(f: NamedTable, rest: seq<NamedTable>)
    ensures var all := [f] + rest;
            && SortFiles(all) == InsertFile(f, SortFiles(rest))
            && CompactedFiles(all) ==
               (if f.name.NumberedCompacted? then [f] + CompactedFiles(rest) else CompactedFiles(rest))
            && NumberedFiles(all) == (if f.name.Numbered? then [f] + NumberedFiles(rest) else NumberedFiles(rest))
  {
    hide InsertFile;
    assert ([f] + rest)[1..] == rest;
    assert [] + CompactedFiles(rest) == CompactedFiles(rest);
    assert [] + NumberedFiles(rest) == NumberedFiles(rest);
  }

  lemma InsertFirst(f: NamedTable, fs: seq<NamedTable>)
    requires f.name.NumberedCompacted?
    ensures InsertFile(f, fs) == [f] + fs
  {}

  /** In whatever order the files are listed, numbered ones end up in number order. */
  lemma {:induction false} NumbersSorted(listing: seq<NamedTable>, order: seq<NamedTable>)
    requires NumbersAscend(order) && multiset(listing) == multiset(order)
    ensures SortFiles(listing) == order
    decreases |listing|
  {
    if listing == [] {
      assert |multiset(order)| == 0;
    } else {
      hide NumbersAscend, InsertFile;
      var i := RemoveListed(listing, order);
      var below, above := order[..i], order[i + 1..];
      AscendWithout(order, i);
      NumbersSorted(listing[1..], below + above);
      assert SortFiles(listing) == InsertFile(listing[0], below + above);
      InsertBetween(listing[0], below, above);
      CutOne(order, i);
    }
  }

  lemma CutOne<T>(s: seq<T>, i: nat)
    requires i < |s|
    ensures s == s[..i] + [s[i]] + s[i + 1..]
  {}

  lemma RemoveListed(listing: seq<NamedTable>, order: seq<NamedTable>) returns (i: nat)
    requires listing != [] && multiset(listing) == multiset(order)
    ensures i < |order| && order[i] == listing[0]
    ensures multiset(listing[1..]) == multiset(order[..i] + order[i + 1..])
  {
    var f, rest := listing[0], listing[1..];
    assert listing == [f] + rest;
    assert f in multiset(order);
    i :| 0 <= i < |order| && order[i] == f;
    assert order == order[..i] + [f] + order[i + 1..];
    assert multiset(rest) == multiset(listing) - multiset{f};
  }

  lemma AscendWithout(order: seq<NamedTable>, i: nat)
    requires NumbersAscend(order) && i < |order|
    ensures NumbersAscend(order[..i] + order[i + 1..])
    ensures forall b :: b in order[..i] ==> SortKey(b.name) < SortKey(order[i].name)
    ensures i + 1 < |order| ==> SortKey(order[i].name) <= SortKey(order[i + 1].name)
  {
    hide SortKey;
  }

  lemma {:induction false} InsertBetween(f: NamedTable, below: seq<NamedTable>, above: seq<NamedTable>)
    requires forall b :: b in below ==> SortKey(b.name) < SortKey(f.name)
    requires above != [] ==> SortKey(f.name) <= SortKey(above[0].name)
    ensures InsertFile(f, below + above) == below + [f] + above
  {
    if below == [] {
      assert below + above == above && below + [f] + above == [f] + above;
    } else {
      assert below[0] in below;
      assert (below + above)[1..] == below[1..] + above;
      InsertBetween(f, below[1..], above);
      assert below == [below[0]] + below[1..];
    }
  }

  /** Where the listed files decide after the restart, they answer what the list answered before, and no
      key of the list is missing from them. */
  ghost predicate RestartSafe(before: seq<Table>, listing: seq<NamedTable>) {
    var all, numbered := TablesMap(before), TablesMap(TablesOf(SortFiles(NumberedFiles(listing))));
    var compacted := TablesMap(TablesOf(CompactedFiles(listing)));
    && (forall key :: key in numbered ==> Read(numbered, key) == Read(all, key))
    && (forall key :: key in compacted && key !in numbered ==> Read(compacted, key) == Read(all, key))
    && forall key :: key in all ==> key in numbered || key in compacted
  }

  /** For any table list, any number of compactions and any directory listing, a restart changes no
      read exactly when it is safe. */
  lemma RestartReadsIff(before: seq<Table>, listing: seq<NamedTable>)
    requires NumbersPositive(listing)
    ensures SameReads(TablesMap(TablesOf(SortFiles(listing))), TablesMap(before)) <==> RestartSafe(before, listing)
  {
    hide TablesMap, SortFiles, CompactedFiles, NumberedFiles, NumbersPositive, SameReads;
    var numbered, compacted := TablesOf(SortFiles(NumberedFiles(listing))), TablesOf(CompactedFiles(listing));
    RestartOrder(listing);
    assert TablesOf(SortFiles(listing)) == compacted + numbered;
    TablesMapConcat(compacted, numbered);
    ReadsOfTwo(TablesMap(compacted), TablesMap(numbered), TablesMap(before));
  }

  lemma ReadsOfTwo(low: Contents, high: Contents, all: Contents)
    ensures SameReads(low + high, all) <==>
            && (forall key :: key in high ==> Read(high, key) == Read(all, key))
            && (forall key :: key in low && key !in high ==> Read(low, key) == Read(all, key))
            && forall key :: key in all ==> key in high || key in low
  {
    if SameReads(low + high, all) {
      forall key | key in high ensures Read(high, key) == Read(all, key) {
        assert Read(low + high, key) == Read(all, key);
      }
      forall key | key in low && key !in high ensures Read(low, key) == Read(all, key) {
        assert Read(low + high, key) == Read(all, key);
      }
      forall key | key in all ensures key in high || key in low {
        assert Read(low + high, key) == Read(all, key);
      }
    }
  }

  // ---------- one compacted table ----------

  /** However the files are listed, a single compacted table moves from last to first. */
  lemma CompactedSortsFirst(kept: seq<NamedTable>, out: NamedTable, listing: seq<NamedTable>)
    requires NumbersAscend(kept) && (forall f :: f in kept ==> f.name.Numbered? && f.name.id > 0)
    requires out.name.NumberedCompacted? && multiset(listing) == multiset(kept + [out])
    ensures SortFiles(listing) == [out] + kept
  {
    assert multiset(kept + [out]) == multiset([out] + kept);
    NumbersSorted(listing, [out] + kept);
  }

  /** After one compaction a restart, however it lists the files, changes no read exactly when the
      compacted table agrees with the kept ones on every key they share. */
  lemma RestartAfterCompactionIff(kept: seq<NamedTable>, out: NamedTable, listing: seq<NamedTable>)
    requires NumbersAscend(kept) && (forall f :: f in kept ==> f.name.Numbered? && f.name.id > 0)
    requires out.name.NumberedCompacted? && multiset(listing) == multiset(kept + [out])
    ensures var compacted, others := Replay(out.table.entries), TablesMap(TablesOf(kept));
            SameReads(TablesMap(TablesOf(SortFiles(listing))), TablesMap(TablesOf(kept + [out])))
            <==> forall key :: key in compacted && key in others ==> compacted[key].value == others[key].value
  {
    hide Replay, TablesMap, SortFiles, NumbersAscend, SameReads;
    CompactedSortsFirst(kept, out, listing);
    assert TablesOf([out] + kept) == [out.table] + TablesOf(kept);
    assert TablesOf(kept + [out]) == TablesOf(kept) + [out.table];
    FrontOrBack(TablesOf(kept), out.table);
  }

  lemma FrontOrBack(kept: seq<Table>, out: Table)
    ensures SameReads(TablesMap([out] + kept), TablesMap(kept + [out]))
            <==> forall key :: key in Replay(out.entries) && key in TablesMap(kept) ==>
                   Replay(out.entries)[key].value == TablesMap(kept)[key].value
  {
    hide Replay, TablesMap;
    TablesMapAppend(kept, out);
    TablesMapConcat([out], kept);
    TablesMapOne(out);
    var first, last := TablesMap([out] + kept), TablesMap(kept + [out]);
    if SameReads(first, last) {
      forall key | key in Replay(out.entries) && key in TablesMap(kept)
        ensures Replay(out.entries)[key].value == TablesMap(kept)[key].value
      {
        assert Read(first, key) == Read(last, key);
      }
    }
  }

  // ---------- the names of later outputs ----------

  /** The names of the table files in the directory, with what each holds. */
  type Files = map<FileName, seq<Entry>>

  /** The numbers a restart reads off the names. */
  function NumbersOfNames(names: set<FileName>): set<nat> {
    set n | n in names && n.Numbered? :: n.id
  }

  /** The number of the first file after a restart: compacted names are not counted. */
  function RestartCounter(names: set<FileName>): nat {
    Latest(NumbersOfNames(names)) + 1
  }

  /** The directory after a compaction: the output is created, truncating a file of its name, and then
      the inputs are removed. */
  function DirectoryAfter(files: Files, inputs: set<FileName>, output: FileName, out: seq<Entry>): Files {
    files[output := out] - inputs
  }

  /** Every output named after this restart is a new file and is still there after its compaction. */
  ghost predicate OutputsSurvive(files: Files) {
    forall number: nat, inputs, out :: number >= RestartCounter(files.Keys) && inputs <= files.Keys ==>
      var output := NumberedCompacted(number);
      output !in files && output in DirectoryAfter(files, inputs, output, out)
  }

  /** Exactly when the counter has passed every compacted file. */
  lemma OutputsSurviveIff(files: Files)
    ensures OutputsSurvive(files)
            <==> forall n :: n in files && n.NumberedCompacted? ==> n.id < RestartCounter(files.Keys)
  {
    if OutputsSurvive(files) {
      forall n | n in files && n.NumberedCompacted? ensures n.id < RestartCounter(files.Keys) {
        var none: set<FileName>, nothing: seq<Entry> := {}, [];
        assert n == NumberedCompacted(n.id);
        assert n.id >= RestartCounter(files.Keys) && none <= files.Keys ==>
            n in DirectoryAfter(files, none, n, nothing) && n !in files;
      }
    }
  }

  /** Four tables were compacted into file 5, and a restart counts from 1 again. After four more tables
      the next output is file 5 too: if the live one is an input, it is overwritten and then removed. */
  lemma OutputReplacesInput(merged: seq<Entry>, out: seq<Entry>)
    ensures var live := NumberedCompacted(5);
            var files := map[live := merged];
            && RestartCounter(files.Keys) == 1 && !OutputsSurvive(files)
            && DirectoryAfter(files, {live}, live, out) == map[]
  {
    var live := NumberedCompacted(5);
    var files := map[live := merged];
    assert NumbersOfNames(files.Keys) == {};
    OutputsSurviveIff(files);
    assert live in files;
  }
}
