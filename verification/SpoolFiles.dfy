/** The spool directory: a live file that records are appended to, and claim files renamed aside
    to be replayed. */
module SpoolFiles {

  /** An access record; size is the length of its JSON line. */
  datatype Entry = Entry(id: nat, size: nat)

  /** A number of bytes; there is no line without any. */
  type Size = n: nat | n > 0 witness 1

  /** One line on disk: a record, or a line this binary cannot read, of so many bytes; an open one is
      the piece of a record whose write was cut short, without the newline that ends a line. */
  datatype Line = Record(entry: Entry) | Unreadable(size: Size, open: bool)

  datatype Name = Live | Claim(tag: nat)

  type Files = map<Name, seq<Line>>

  /** What load gets out of a file's lines, in file order. */
  function Readable(lines: seq<Line>): seq<Entry> {
    if lines == [] then []
    else (if lines[0].Record? then [lines[0].entry] else []) + Readable(lines[1..])
  }

  function Skipped(lines: seq<Line>): nat {
    if lines == [] then 0
    else (if lines[0].Record? then 0 else 1) + Skipped(lines[1..])
  }

  /** Every line is read or skipped. */
  lemma {:induction false} ReadOrSkipped(lines: seq<Line>)
    ensures |Readable(lines)| + Skipped(lines) == |lines|
  {
    if lines != [] { ReadOrSkipped(lines[1..]); }
  }

  function SizeOfLine(l: Line): Size {
    if l.Record? then l.entry.size + 1 else l.size
  }

  predicate IsOpen(l: Line) {
    l.Unreadable? && l.open
  }

  predicate EndsOpen(lines: seq<Line>) {
    lines != [] && IsOpen(lines[|lines| - 1])
  }

  /** An open piece and whatever is appended next become one line, which cannot be read. */
  function Joined(size: Size, l: Line): Line {
    Unreadable(size + SizeOfLine(l), IsOpen(l))
  }

  function Extend(lines: seq<Line>, l: Line): (r: seq<Line>)
    ensures r != []
  {
    if EndsOpen(lines) then lines[..|lines| - 1] + [Joined(lines[|lines| - 1].size, l)] else lines + [l]
  }

  /** The records a file gains by what is appended to it. */
  function Gained(lines: seq<Line>, l: Line): seq<Entry> {
    if EndsOpen(lines) then [] else Readable([l])
  }

  function Encode(entries: seq<Entry>): (lines: seq<Line>)
    ensures |lines| == |entries|
  {
    if entries == [] then [] else [Record(entries[0])] + Encode(entries[1..])
  }

  /** What is written back is what is read again, with nothing skipped. */
  lemma {:induction false} EncodeReadable(entries: seq<Entry>)
    ensures Readable(Encode(entries)) == entries && Skipped(Encode(entries)) == 0
  {
    if entries != [] { EncodeReadable(entries[1..]); }
  }

  lemma {:induction false} ReadableAppend(lines: seq<Line>, l: Line)
    ensures Readable(lines + [l]) == Readable(lines) + Readable([l])
  {
    if lines == [] {
      assert lines + [l] == [l];
    } else {
      ReadableAppend(lines[1..], l);
      assert (lines + [l])[1..] == lines[1..] + [l];
    }
  }

  lemma ExtendReadable(lines: seq<Line>, l: Line)
    ensures Readable(Extend(lines, l)) == Readable(lines) + Gained(lines, l)
  {
    if EndsOpen(lines) {
      var front, last := lines[..|lines| - 1], lines[|lines| - 1];
      assert lines == front + [last];
      ReadableAppend(front, last);
      ReadableAppend(front, Joined(last.size, l));
      assert Readable([last]) == [] && Readable([Joined(last.size, l)]) == [];
    } else {
      ReadableAppend(lines, l);
    }
  }

  function EntriesOf(files: Files, path: Name): seq<Entry> {
    if path in files then Readable(files[path]) else []
  }

  function AllEntries(files: Files, queue: seq<Name>): seq<Entry> {
    if queue == [] then [] else EntriesOf(files, queue[0]) + AllEntries(files, queue[1..])
  }

  ghost predicate Distinct(queue: seq<Name>) {
    forall i, j | 0 <= i < j < |queue| :: queue[i] != queue[j]
  }

  /** The queue holds every file of the directory, once. */
  ghost predicate Covers(files: Files, queue: seq<Name>) {
    Distinct(queue) && forall n | n in files :: n in queue
  }

  lemma DistinctRest(queue: seq<Name>)
    requires Distinct(queue) && queue != []
    ensures Distinct(queue[1..]) && queue[0] !in queue[1..]
    ensures forall n | n in queue && n != queue[0] :: n in queue[1..]
  {
    forall i | 0 <= i < |queue| - 1 ensures queue[1..][i] == queue[i + 1] {}
    assert queue == [queue[0]] + queue[1..];
  }

  lemma {:induction false} SameEntries(a: Files, b: Files, queue: seq<Name>)
    requires forall n | n in queue :: EntriesOf(a, n) == EntriesOf(b, n)
    ensures AllEntries(a, queue) == AllEntries(b, queue)
  {
    if queue != [] { SameEntries(a, b, queue[1..]); }
  }

  lemma {:induction false} AllEntriesSplit(files: Files, a: seq<Name>, b: seq<Name>)
    ensures AllEntries(files, a + b) == AllEntries(files, a) + AllEntries(files, b)
  {
    if a == [] {
      assert a + b == b;
    } else {
      assert (a + b)[1..] == a[1..] + b;
      AllEntriesSplit(files, a[1..], b);
    }
  }

  lemma {:induction false} NoFilesNoEntries(files: Files, queue: seq<Name>)
    requires files == map[]
    ensures AllEntries(files, queue) == []
  {
    if queue != [] { NoFilesNoEntries(files, queue[1..]); }
  }

  function Without(queue: seq<Name>, n: Name): seq<Name> {
    if queue == [] then []
    else if queue[0] == n then queue[1..]
    else [queue[0]] + Without(queue[1..], n)
  }

  lemma {:induction false} WithoutMembers(queue: seq<Name>, n: Name)
    requires Distinct(queue)
    ensures Distinct(Without(queue, n)) && forall m :: m in Without(queue, n) <==> m in queue && m != n
  {
    if queue != [] {
      DistinctRest(queue);
      WithoutMembers(queue[1..], n);
    }
  }

  /** Taking one name out of a queue takes out that file's records. */
  lemma {:induction false} TakeOut(files: Files, queue: seq<Name>, n: Name)
    requires n in queue
    ensures multiset(AllEntries(files, queue))
         == multiset(EntriesOf(files, n)) + multiset(AllEntries(files, Without(queue, n)))
  {
    if queue[0] != n { TakeOut(files, queue[1..], n); }
  }

  /** The order of a covering queue does not matter to what it holds. */
  lemma {:induction false} CoveringQueuesAgree(files: Files, a: seq<Name>, b: seq<Name>)
    requires Covers(files, a) && Covers(files, b)
    ensures multiset(AllEntries(files, a)) == multiset(AllEntries(files, b))
    decreases |a|
  {
    if a == [] {
      assert files == map[];
      NoFilesNoEntries(files, b);
    } else {
      var q := a[0];
      var less := files - {q};
      DistinctRest(a);
      SameEntries(files, less, a[1..]);
      if q in b {
        var rest := Without(b, q);
        WithoutMembers(b, q);
        TakeOut(files, b, q);
        SameEntries(files, less, rest);
        CoveringQueuesAgree(less, a[1..], rest);
      } else {
        assert less == files;
        CoveringQueuesAgree(files, a[1..], b);
      }
    }
  }

  lemma {:induction false} QueueExists(files: Files)
    ensures exists q :: Covers(files, q)
    decreases files.Keys
  {
    if files == map[] {
      assert Covers(files, []);
    } else {
      var n :| n in files;
      QueueExists(files - {n});
      var q :| Covers(files - {n}, q);
      if n in q {
        assert Covers(files, q);
      } else {
        assert Covers(files, [n] + q);
      }
    }
  }

  ghost predicate IsDisk(files: Files, entries: multiset<Entry>) {
    forall q | Covers(files, q) :: multiset(AllEntries(files, q)) == entries
  }

  lemma DiskExists(files: Files)
    ensures exists entries :: IsDisk(files, entries)
  {
    QueueExists(files);
    var q :| Covers(files, q);
    forall other | Covers(files, other) ensures multiset(AllEntries(files, other)) == multiset(AllEntries(files, q)) {
      CoveringQueuesAgree(files, other, q);
    }
    assert IsDisk(files, multiset(AllEntries(files, q)));
  }

  /** All readable records on disk, in whatever order the files are taken. */
  ghost function OnDisk(files: Files): multiset<Entry> {
    DiskExists(files);
    var entries :| IsDisk(files, entries);
    entries
  }

  lemma AllEntriesIsDisk(files: Files, queue: seq<Name>)
    requires Covers(files, queue)
    ensures multiset(AllEntries(files, queue)) == OnDisk(files)
  {
    DiskExists(files);
    assert IsDisk(files, OnDisk(files));
  }

  /** Two directories that differ in one file differ in that file's records. */
  lemma OnDiskDiffer(a: Files, b: Files, n: Name) returns (others: multiset<Entry>)
    requires a - {n} == b - {n}
    ensures OnDisk(a) == multiset(EntriesOf(a, n)) + others
    ensures OnDisk(b) == multiset(EntriesOf(b, n)) + others
  {
    var queue := CommonQueue(a, b, n);
    var rest := Without(queue, n);
    AllEntriesIsDisk(a, queue);
    AllEntriesIsDisk(b, queue);
    TakeOut(a, queue, n);
    TakeOut(b, queue, n);
    WithoutMembers(queue, n);
    forall m | m in rest ensures EntriesOf(a, m) == EntriesOf(b, m) {
      assert (m in a - {n} <==> m in b - {n}) && (m in a - {n} ==> (a - {n})[m] == (b - {n})[m]);
    }
    SameEntries(a, b, rest);
    others := multiset(AllEntries(a, rest));
  }

  lemma RemoveFile(files: Files, n: Name)
    requires n in files
    ensures OnDisk(files) == multiset(Readable(files[n])) + OnDisk(files - {n})
  {
    assert files - {n} - {n} == files - {n};
    var others := OnDiskDiffer(files, files - {n}, n);
    assert multiset(EntriesOf(files - {n}, n)) + others == others;
  }

  lemma AddFile(files: Files, n: Name, lines: seq<Line>)
    requires n !in files
    ensures OnDisk(files[n := lines]) == multiset(Readable(lines)) + OnDisk(files)
  {
    var more := files[n := lines];
    assert more - {n} == files;
    RemoveFile(more, n);
  }

  lemma CommonQueue(a: Files, b: Files, n: Name) returns (queue: seq<Name>)
    requires a - {n} == b - {n}
    ensures Covers(a, queue) && Covers(b, queue) && n in queue
  {
    QueueExists(a);
    var q :| Covers(a, q);
    queue := if n in q then q else [n] + q;
    forall m | m in b ensures m in queue {
      assert m != n ==> m in b - {n};
    }
  }

  lemma WhatIsGained(lines: seq<Line>, l: Line)
    ensures Gained(lines, l) == if EndsOpen(lines) || l.Unreadable? then [] else [l.entry]
    ensures EndsOpen(Extend(lines, l)) == IsOpen(l)
  {
    assert Readable([l][1..]) == [];
    var r := Extend(lines, l);
    assert r[|r| - 1] == if EndsOpen(lines) then Joined(lines[|lines| - 1].size, l) else l;
  }

  function LinesOf(files: Files, path: Name): seq<Line> {
    if path in files then files[path] else []
  }

  function WithLine(files: Files, l: Line): Files {
    files[Live := Extend(LinesOf(files, Live), l)]
  }

  lemma AddedTo(a: seq<Entry>, b: seq<Entry>, others: multiset<Entry>)
    ensures multiset(a + b) + others == multiset(a) + others + multiset(b)
  {}

  lemma WithLineAdds(files: Files, l: Line)
    ensures OnDisk(WithLine(files, l)) == OnDisk(files) + multiset(Gained(LinesOf(files, Live), l))
  {
    var after := WithLine(files, l);
    assert after - {Live} == files - {Live};
    var others := OnDiskDiffer(files, after, Live);
    ExtendReadable(LinesOf(files, Live), l);
    assert EntriesOf(files, Live) == Readable(LinesOf(files, Live));
    AddedTo(EntriesOf(files, Live), Gained(LinesOf(files, Live), l), others);
  }

  lemma PlaceholderIsEmpty(files: Files, tag: nat)
    ensures Claim(tag) !in files ==> OnDisk(files[Claim(tag) := []]) == OnDisk(files)
    ensures Claim(tag) in files && files[Claim(tag)] == [] ==> OnDisk(files - {Claim(tag)}) == OnDisk(files)
  {
    if Claim(tag) !in files {
      AddFile(files, Claim(tag), []);
    } else {
      RemoveFile(files, Claim(tag));
    }
  }
}
