/** The spool itself, and LogAccess above it. Every file or network operation may fail. */
module AuditSpool {
  import opened Basics
  import opened SpoolFiles
  import opened SpoolDrain

  const MAX_DRAIN_PER_CALL: nat := 10_000
  const DEFAULT_MAX_BYTES: nat := 0x80_0000

  datatype Result = Result(sent: nat, skipped: nat)

  datatype AppendOutcome = Appended | Full | Failed

  /** Where records are replayed to. A batch sink lands a chunk whole or not at all. trips counts its calls, faults
      those that failed. */
  class Sink {
    const batching: bool
    var log: seq<Entry>
    ghost var faults: nat
    ghost var trips: nat

    constructor (batching: bool)
      ensures this.batching == batching && log == [] && faults == 0 && trips == 0
    {
      this.batching, log, faults, trips := batching, [], 0, 0;
    }

    method Open() returns (ok: bool)
      modifies this`faults
      ensures faults == old(faults) + if ok then 0 else 1
    {
      ok := Happens();
      if !ok { faults := faults + 1; }
    }

    method LogAccess(e: Entry) returns (ok: bool)
      modifies this
      ensures log == old(log) + (if ok then [e] else [])
      ensures faults == old(faults) + (if ok then 0 else 1) && trips == old(trips) + 1
    {
      trips := trips + 1;
      ok := Open();
      if ok { log := log + [e]; }
    }

    method LogAccessBatch(es: seq<Entry>) returns (ok: bool)
      requires batching
      modifies this
      ensures log == old(log) + (if ok then es else [])
      ensures faults == old(faults) + (if ok then 0 else 1) && trips == old(trips) + 1
    {
      trips := trips + 1;
      ok := Open();
      if ok { log := log + es; }
    }
  }

  function SizeOf(lines: seq<Line>): nat {
    if lines == [] then 0
    else SizeOfLine(lines[0]) + SizeOf(lines[1..])
  }

  function TotalSize(files: Files, names: seq<Name>): nat {
    if names == [] then 0
    else (if names[0] in files then SizeOf(files[names[0]]) else 0) + TotalSize(files, names[1..])
  }

  lemma {:induction false} TotalSizeSnoc(files: Files, names: seq<Name>, n: Name)
    ensures TotalSize(files, names + [n]) == TotalSize(files, names) + TotalSize(files, [n])
  {
    if names == [] {
      assert names + [n] == [n];
    } else {
      assert (names + [n])[1..] == names[1..] + [n];
      TotalSizeSnoc(files, names[1..], n);
    }
  }

  predicate AtLeast(files: Files, names: seq<Name>, max: nat) {
    TotalSize(files, names + [Live]) >= max
  }

  /** The claim files of a directory, by name. */
  ghost predicate IsBatchList(files: Files, names: seq<Name>) {
    && (forall n | n in names :: n.Claim? && n in files)
    && (forall n | n in files && n.Claim? :: n in names)
    && (forall i, j | 0 <= i < j < |names| :: names[i].tag < names[j].tag)
  }

  /** The directory's size, in whatever order it is listed, has reached the cap. */
  ghost predicate CapReached(files: Files, max: nat) {
    exists names :: IsBatchList(files, names) && AtLeast(files, names, max)
  }

  /** The queue of a drain: the claims left behind, by name, and behind them what it claims itself. */
  ghost predicate IsQueue(files: Files, tag: nat, queue: seq<Name>) {
    exists names :: IsBatchList(files, names) && queue == names + (if Live in files then [Claim(tag)] else [])
  }

  /** A directory has one list of claims by name. */
  lemma {:induction false} OneBatchList(a: seq<Name>, b: seq<Name>)
    requires forall n | n in a || n in b :: n.Claim?
    requires forall n :: n in a <==> n in b
    requires forall i, j | 0 <= i < j < |a| :: a[i].tag < a[j].tag
    requires forall i, j | 0 <= i < j < |b| :: b[i].tag < b[j].tag
    ensures a == b
    decreases |a|
  {
    if a != [] { assert a[0] in b; }
    if b != [] { assert b[0] in a; }
    if a != [] && b != [] {
      TagsAscend(a);
      TagsAscend(b);
      OneBatchList(a[1..], b[1..]);
      assert a == [a[0]] + a[1..] && b == [b[0]] + b[1..];
    }
  }

  /** So one measurement decides. */
  lemma CapDecided(files: Files, names: seq<Name>, max: nat)
    requires IsBatchList(files, names)
    ensures CapReached(files, max) <==> AtLeast(files, names, max)
  {
    if CapReached(files, max) {
      var other :| IsBatchList(files, other) && AtLeast(files, other, max);
      OneBatchList(names, other);
    }
  }

  ghost predicate CountedIn(files: Files, total: nat, names: seq<Name>, i: nat) {
    && IsBatchList(files, names) && i <= |names| + 1
    && total == |AllEntries(files, (names + [Live])[..i])|
  }

  /** The records of the first files, in the order of names with the live file last. */
  ghost predicate CountedSoFar(files: Files, total: nat) {
    exists names, i: nat :: CountedIn(files, total, names, i)
  }

  /** A count of some files is not more than what is on disk. */
  lemma CountedIsPart(files: Files, total: nat)
    requires CountedSoFar(files, total)
    ensures total <= |OnDisk(files)|
  {
    var names, i: nat :| CountedIn(files, total, names, i);
    var paths := names + [Live];
    BatchListCovers(files, names);
    AllEntriesIsDisk(files, paths);
    AllEntriesSplit(files, paths[..i], paths[i..]);
    assert paths == paths[..i] + paths[i..];
  }

  lemma BatchListCovers(files: Files, names: seq<Name>)
    requires IsBatchList(files, names)
    ensures Covers(files, names + [Live])
  {
    var paths := names + [Live];
    forall n | n in files ensures n in paths {
      assert n == Live ==> paths[|names|] == n;
    }
    forall i, j | 0 <= i < j < |paths| ensures paths[i] != paths[j] {
      assert paths[i] == names[i] && names[i] in names;
    }
  }

  lemma OneMorePath(files: Files, paths: seq<Name>, i: nat)
    requires i < |paths|
    ensures AllEntries(files, paths[..i + 1]) == AllEntries(files, paths[..i]) + EntriesOf(files, paths[i])
  {
    assert paths[..i + 1] == paths[..i] + [paths[i]];
    AllEntriesSplit(files, paths[..i], [paths[i]]);
    assert AllEntries(files, [paths[i]]) == EntriesOf(files, paths[i]);
  }

  function InsertByTag(tag: nat, names: seq<Name>): (r: seq<Name>)
    requires forall n | n in names :: n.Claim? && n.tag != tag
    requires forall i, j | 0 <= i < j < |names| :: names[i].tag < names[j].tag
    ensures forall n :: n in r <==> n == Claim(tag) || n in names
    ensures forall i, j | 0 <= i < j < |r| :: r[i].tag < r[j].tag
  {
    if names == [] then [Claim(tag)]
    else
      TagsAscend(names);
      if tag < names[0].tag then
        TagCons(Claim(tag), names);
        [Claim(tag)] + names
      else
        var rest := InsertByTag(tag, names[1..]);
        TagCons(names[0], rest);
        [names[0]] + rest
  }

  lemma TagsAscend(names: seq<Name>)
    requires names != [] && forall n | n in names :: n.Claim?
    requires forall i, j | 0 <= i < j < |names| :: names[i].tag < names[j].tag
    ensures forall n | n in names[1..] :: names[0].tag < n.tag
    ensures forall i, j | 0 <= i < j < |names| - 1 :: names[1..][i].tag < names[1..][j].tag
    ensures forall n :: n in names <==> n == names[0] || n in names[1..]
  {
    assert names == [names[0]] + names[1..];
  }

  lemma TagCons(n: Name, names: seq<Name>)
    requires n.Claim? && forall m | m in names :: m.Claim? && n.tag < m.tag
    requires forall i, j | 0 <= i < j < |names| :: names[i].tag < names[j].tag
    ensures var r := [n] + names; forall i, j | 0 <= i < j < |r| :: r[i].tag < r[j].tag
  {
    var r := [n] + names;
    forall i, j | 0 <= i < j < |r| ensures r[i].tag < r[j].tag {
      assert r[j] == names[j - 1];
      assert i > 0 ==> r[i] == names[i - 1];
    }
  }

  /** How many round trips carry n records, 500 in each. */
  function RoundTrips(n: nat): nat {
    (n + 499) / 500
  }

  predicate WholeTrips(n: nat) {
    n % 500 == 0
  }

  lemma OneTripMore(n: nat, more: nat)
    requires WholeTrips(n) && 0 < more <= 500
    ensures RoundTrips(n + more) == RoundTrips(n) + 1
    ensures more == 500 ==> WholeTrips(n + more)
  {}

  /** What a failed write may leave: a piece of the record, or all of it when only the sync failed. */
  predicate TornOrWhole(l: Line, e: Entry) {
    (IsOpen(l) && 0 < l.size <= e.size) || l == Record(e)
  }

  lemma {:induction false} SomeBytes(lines: seq<Line>)
    ensures SizeOf(lines) > 0 <==> lines != []
  {
    if lines != [] { SomeBytes(lines[1..]); }
  }

  /** A directory of empty files has no records. */
  lemma EmptyFiles(files: Files)
    requires forall n | n in files :: files[n] == []
    ensures OnDisk(files) == multiset{}
  {
    QueueExists(files);
    var queue :| Covers(files, queue);
    EmptyEntries(files, queue);
    AllEntriesIsDisk(files, queue);
  }

  lemma {:induction false} EmptyEntries(files: Files, queue: seq<Name>)
    requires forall n | n in files :: files[n] == []
    ensures AllEntries(files, queue) == []
  {
    if queue != [] { EmptyEntries(files, queue[1..]); }
  }

  /** The spool directory; faults counts the file operations that failed. */
  class Spool {
    var files: Files
    const maxBytes: nat
    ghost var faults: nat

    constructor (maxBytes: int)
      ensures files == map[] && faults == 0
      ensures this.maxBytes == if maxBytes <= 0 then 8 * 1024 * 1024 else maxBytes
    {
      files, this.maxBytes, faults := map[], if maxBytes <= 0 then DEFAULT_MAX_BYTES else maxBytes, 0;
    }

    /** One file operation. */
    method Does() returns (ok: bool)
      modifies this`faults
      ensures faults == old(faults) + if ok then 0 else 1
    {
      ok := Happens();
      if !ok { faults := faults + 1; }
    }

    method Batches() returns (names: seq<Name>)
      ensures IsBatchList(files, names)
    {
      names := [];
      var todo := set n | n in files && n.Claim?;
      while todo != {}
        invariant todo <= files.Keys && forall n | n in todo :: n.Claim?
        invariant forall n | n in names :: n.Claim? && n in files && n !in todo
        invariant forall n | n in files && n.Claim? :: n in names || n in todo
        invariant forall i, j | 0 <= i < j < |names| :: names[i].tag < names[j].tag
      {
        var n :| n in todo;
        todo := todo - {n};
        names := InsertByTag(n.tag, names);
      }
    }

    /** Measures the live file together with the claims a failing drain left behind. */
    method AtCap() returns (full: bool, ok: bool)
      modifies this`faults
      ensures faults == old(faults) + if ok then 0 else 1
      ensures ok ==> (full <==> CapReached(files, maxBytes))
    {
      full := false;
      ok := Does();
      if !ok { return; }
      var names := Batches();
      var paths := names + [Live];
      var total := 0;
      for i := 0 to |paths|
        invariant total == TotalSize(files, paths[..i]) && faults == old(faults)
      {
        ok := Does();
        if !ok { return; }
        assert paths[..i + 1] == paths[..i] + [paths[i]];
        TotalSizeSnoc(files, paths[..i], paths[i]);
        if paths[i] in files { total := total + SizeOf(files[paths[i]]); }
      }
      assert paths[..|paths|] == paths;
      full, ok := total >= maxBytes, true;
      CapDecided(files, names, maxBytes);
    }

    /** How many records are waiting, in the live file and in claims alike; when a file cannot be read,
        those of the files before it. */
    method Pending() returns (total: nat, ok: bool)
      modifies this`faults
      ensures faults == old(faults) + if ok then 0 else 1
      ensures ok ==> total == |OnDisk(files)|
      ensures CountedSoFar(files, total)
    {
      var names := Batches();
      var paths := names + [Live];
      total := 0;
      assert paths[..0] == [];
      assert CountedIn(files, total, names, 0);
      ok := Does();
      if !ok { return 0, false; }
      for i := 0 to |paths|
        invariant total == |AllEntries(files, paths[..i])| && faults == old(faults)
      {
        assert CountedIn(files, total, names, i);
        ok := Does();
        if !ok { return total, false; }
        OneMorePath(files, paths, i);
        total := total + |EntriesOf(files, paths[i])|;
      }
      assert CountedIn(files, total, names, |paths|);
      assert paths[..|paths|] == paths;
      BatchListCovers(files, names);
      AllEntriesIsDisk(files, paths);
      ok := true;
    }

    /** Whether any file holds anything, unreadable lines included. */
    method HasBacklog() returns (has: bool, ok: bool)
      modifies this`faults
      ensures faults == old(faults) + if ok then 0 else 1
      ensures ok ==> (has <==> exists n :: n in files && files[n] != [])
      ensures ok && !has ==> OnDisk(files) == multiset{}
    {
      has := false;
      ok := Does();
      if !ok { return; }
      var names := Batches();
      var paths := names + [Live];
      for i := 0 to |paths|
        invariant forall j | 0 <= j < i :: paths[j] in files ==> files[paths[j]] == []
        invariant faults == old(faults)
      {
        ok := Does();
        if !ok { return; }
        if paths[i] in files {
          SomeBytes(files[paths[i]]);
          if SizeOf(files[paths[i]]) > 0 { return true, true; }
        }
      }
      ok := true;
      forall n | n in files ensures files[n] == [] {
        assert paths[|names|] == Live && (n in names || n == Live) && n in paths;
        var j :| 0 <= j < |paths| && paths[j] == n;
      }
      EmptyFiles(files);
    }

    /** Never touches a claim file, and never rewrites what the live file holds: a full spool
        refuses the record and keeps the oldest. A failed write may have left a torn line, or
        the record itself when only the sync failed. */
    method Append(e: Entry) returns (r: AppendOutcome)
      modifies this`files, this`faults
      ensures faults == old(faults) + if r.Failed? then 1 else 0
      ensures r.Appended? ==> files == WithLine(old(files), Record(e))
      ensures r.Full? ==> files == old(files) && CapReached(old(files), maxBytes)
      ensures r.Appended? || files != old(files) ==> !CapReached(old(files), maxBytes)
      ensures r.Failed? ==> files == old(files) || exists l :: TornOrWhole(l, e) && files == WithLine(old(files), l)
    {
      var ready := Does();
      if !ready { return Failed; }
      var full, measured := AtCap();
      if !measured { return Failed; }
      if full { return Full; }
      var open := Does();
      if !open { return Failed; }
      var written := Does();
      if !written {
        var cut: nat :| cut <= e.size;
        assert cut > 0 ==> TornOrWhole(Unreadable(cut, true), e);
        if cut > 0 { files := WithLine(files, Unreadable(cut, true)); }
        return Failed;
      }
      assert TornOrWhole(Record(e), e);
      files := WithLine(files, Record(e));
      var synced := Does();
      return if synced then Appended else Failed;
    }

    /** Renames the live file to a name that no file has. */
    method ClaimBatch(tag: nat) returns (claimed: bool, ok: bool)
      requires Claim(tag) !in files
      modifies this`files, this`faults
      ensures ok <==> faults == old(faults)
      ensures old(faults) <= faults
      ensures faults == old(faults) + 1 ==> files == old(files)
      ensures ok ==> files == ClaimLive(old(files), tag) && claimed == (Live in old(files))
      ensures !ok ==> files == old(files) || files == old(files)[Claim(tag) := []]
    {
      claimed := false;
      var statted := Does();
      if !statted { return false, false; }
      if Live !in files { return false, true; }
      var reserved := Does();
      if !reserved { return false, false; }
      files := files[Claim(tag) := []];
      var renamed := Does();
      if !renamed {
        var removed := Does();
        if removed {
          files := files - {Claim(tag)};
          assert files == old(files);
        }
        return false, false;
      }
      files := (files - {Live})[Claim(tag) := files[Live]];
      return true, true;
    }

    /** Lands one chunk: in one round trip when the sink can, record by record when not. */
    method SendChunk(sink: Sink, chunk: seq<Entry>) returns (n: nat, ok: bool)
      requires chunk != []
      modifies sink
      ensures ok <==> n == |chunk|
      ensures n <= |chunk| && sink.log == old(sink.log) + chunk[..n]
      ensures sink.batching && |chunk| > 1 && !ok ==> n == 0
      ensures sink.faults == old(sink.faults) + if ok then 0 else 1
      ensures sink.batching ==> sink.trips == old(sink.trips) + 1
    {
      assert chunk[..|chunk|] == chunk;
      if sink.batching && |chunk| > 1 {
        ok := sink.LogAccessBatch(chunk);
        return if ok then |chunk| else 0, ok;
      }
      for i := 0 to |chunk|
        invariant sink.log == old(sink.log) + chunk[..i] && sink.faults == old(sink.faults)
        invariant sink.trips == old(sink.trips) + i
      {
        assert chunk[..i + 1] == chunk[..i] + [chunk[i]];
        ok := sink.LogAccess(chunk[i]);
        if !ok { return i, false; }
      }
      return |chunk|, true;
    }

    /** Replays one claimed file. What reached the sink is a prefix of the file, of the length
        reported; the file then holds exactly the rest, or, when an operation failed, may still
        hold everything. */
    method DrainBatch(sink: Sink, path: Name, budget: nat) returns (res: Result, ok: bool)
      modifies this`files, this`faults, sink
      ensures ok <==> faults == old(faults) && sink.faults == old(sink.faults)
      ensures old(faults) <= faults && old(sink.faults) <= sink.faults
      ensures var es := EntriesOf(old(files), path);
        && res.sent <= Min(budget, |es|)
        && sink.log == old(sink.log) + es[..res.sent]
        && (ok ==> res.sent == Min(budget, |es|) && files == AfterSending(old(files), path, res.sent))
        && (!ok ==> files == old(files) || files == AfterSending(old(files), path, res.sent))
      ensures faults == old(faults) ==> files == AfterSending(old(files), path, res.sent)
      ensures ok ==> res.skipped == SkippedIn(old(files), path)
      ensures ok && sink.batching ==> sink.trips == old(sink.trips) + RoundTrips(res.sent)
    {
      res := Result(0, 0);
      ok := Does();
      if !ok { return; }
      var es := EntriesOf(files, path);
      res := Result(0, SkippedIn(files, path));
      var toSend := Min(budget, |es|);
      while res.sent < toSend
        invariant res.sent <= toSend && sink.log == old(sink.log) + es[..res.sent]
        invariant files == old(files) && res.skipped == SkippedIn(old(files), path)
        invariant faults == old(faults) && sink.faults == old(sink.faults)
        invariant sink.batching ==> sink.trips == old(sink.trips) + RoundTrips(res.sent)
        invariant res.sent < toSend ==> WholeTrips(res.sent)
      {
        var end := Min(res.sent + REPLAY_CHUNK, toSend);
        var n, sentAll := SendChunk(sink, es[res.sent..end]);
        MoreSent(old(sink.log), es, res.sent, end, n);
        OneTripMore(res.sent, end - res.sent);
        res := res.(sent := res.sent + n);
        if !sentAll {
          var rewritten := Does();
          if rewritten { files := files[path := Encode(es[res.sent..])]; }
          return res, false;
        }
      }
      ok := Does();
      if ok { files := AfterSending(files, path, res.sent); }
    }

    /** Replays the backlog: claims left behind before the records newly claimed. What reached the sink
        is a prefix of what a drain of the whole queue sends; when nothing failed it is all of it.
        Nothing is ever lost. */
    method Drain(sink: Sink, tag: nat, budget: nat) returns (res: Result, ok: bool, ghost queue: seq<Name>)
      requires Claim(tag) !in files
      modifies this`files, this`faults, sink
      ensures ok <==> faults == old(faults) && sink.faults == old(sink.faults)
      ensures old(faults) <= faults && old(sink.faults) <= sink.faults
      ensures if queue == [] then sink.log == old(sink.log) else IsQueue(old(files), tag, queue)
      ensures ok ==> IsQueue(old(files), tag, queue) && Covers(ClaimLive(old(files), tag), queue)
      ensures var whole := DrainAll(ClaimLive(old(files), tag), queue, budget);
        && old(sink.log) <= sink.log <= old(sink.log) + whole.sent
        && |sink.log| == |old(sink.log)| + res.sent
        && (ok ==> Outcome(files, sink.log[|old(sink.log)|..], res.skipped) == whole)
      ensures NothingLost(old(files), old(sink.log), files, sink.log)
      ensures faults == old(faults) ==> NothingRepeated(old(files), old(sink.log), files, sink.log)
    {
      res, queue := Result(0, 0), [];
      ok := Does();
      if !ok { return; }
      var batches := Batches();
      ghost var names := batches;
      var claimed;
      claimed, ok := ClaimBatch(tag);
      if !ok {
        PlaceholderIsEmpty(old(files), tag);
        return;
      }
      ClaimKeepsDisk(old(files), tag);
      if claimed { batches := batches + [Claim(tag)]; }
      queue := batches;
      assert IsBatchList(old(files), names) && queue == names + (if Live in old(files) then [Claim(tag)] else []);
      res, ok := ReplayQueue(sink, batches, budget);
    }

    method ReplayQueue(sink: Sink, queue: seq<Name>, budget: nat) returns (res: Result, ok: bool)
      modifies this`files, this`faults, sink
      ensures ok <==> faults == old(faults) && sink.faults == old(sink.faults)
      ensures old(faults) <= faults && old(sink.faults) <= sink.faults
      ensures queue == [] ==> sink.log == old(sink.log)
      ensures var whole := DrainAll(old(files), queue, budget);
        && old(sink.log) <= sink.log <= old(sink.log) + whole.sent
        && |sink.log| == |old(sink.log)| + res.sent
        && (ok ==> Outcome(files, sink.log[|old(sink.log)|..], res.skipped) == whole)
      ensures NothingLost(old(files), old(sink.log), files, sink.log)
      ensures faults == old(faults) ==> NothingRepeated(old(files), old(sink.log), files, sink.log)
    {
      res, ok := Result(0, 0), true;
      ghost var log0, whole := sink.log, DrainAll(files, queue, budget);
      var i := 0;
      assert queue[0..] == queue;
      while i < |queue| && res.sent < budget
        invariant 0 <= i <= |queue|
        invariant Replaying(whole, log0, files, sink.log, res, queue[i..], budget)
        invariant NothingLost(old(files), log0, files, sink.log) && NothingRepeated(old(files), log0, files, sink.log)
        invariant ok && faults == old(faults) && sink.faults == old(sink.faults)
        invariant i == 0 ==> sink.log == log0
      {
        ghost var before, log, was := files, sink.log, res;
        var r;
        r, ok := DrainBatch(sink, queue[i], budget - res.sent);
        res := Result(res.sent + r.sent, res.skipped + r.skipped);
        TurnKeeps(old(files), log0, before, files, queue[i], r.sent, log, sink.log);
        assert queue[i..][0] == queue[i] && queue[i..][1..] == queue[i + 1..];
        TurnReplays(whole, log0, before, log, was, ok, queue[i..], budget, r, files, sink.log, res);
        if !ok { return; }
        i := i + 1;
      }
      Replayed(whole, log0, files, sink.log, res, queue[i..], budget);
    }
  }

  /** What has been done and what the rest of the queue will bring make up the whole drain. */
  ghost predicate OnCourse(whole: Outcome, log0: seq<Entry>, skipped: nat, log: seq<Entry>, rest: Outcome) {
    && log0 <= log
    && log + rest.sent == log0 + whole.sent
    && skipped + rest.skipped == whole.skipped
    && rest.files == whole.files
  }

  /** Of what is to come, the first records have arrived. */
  lemma Arrived(log: seq<Entry>, front: seq<Entry>, later: seq<Entry>, all: seq<Entry>, n: nat)
    requires log + (front + later) == all && n <= |front|
    ensures log + front[..n] <= all
    ensures n == |front| ==> log + front[..n] + later == all
  {
    assert front == front[..n] + front[n..];
  }

  lemma TurnOnCourse(whole: Outcome, log0: seq<Entry>, skipped: nat, log: seq<Entry>, files: Files,
                     queue: seq<Name>, budget: nat, n: nat, front: seq<Entry>, later: Outcome)
    requires queue != [] && budget > 0 && front == EntriesOf(files, queue[0])[..Min(budget, |EntriesOf(files, queue[0])|)]
    requires n <= |front| && OnCourse(whole, log0, skipped, log, DrainAll(files, queue, budget))
    requires later == DrainAll(AfterSending(files, queue[0], |front|), queue[1..], budget - |front|)
    ensures log0 <= log + front[..n] <= log0 + whole.sent
    ensures n == |front| ==> OnCourse(whole, log0, skipped + SkippedIn(files, queue[0]), log + front[..n], later)
  {
    assert DrainAll(files, queue, budget) == Outcome(later.files, front + later.sent, SkippedIn(files, queue[0]) + later.skipped);
    Arrived(log, front, later.sent, log0 + whole.sent, n);
  }

  /** The state of a replay between two files. */
  ghost predicate Replaying(whole: Outcome, log0: seq<Entry>, files: Files, log: seq<Entry>, res: Result,
      rest: seq<Name>, budget: nat) {
    && res.sent <= budget
    && |log| == |log0| + res.sent
    && OnCourse(whole, log0, res.skipped, log, DrainAll(files, rest, budget - res.sent))
  }

  /** Replaying one more file stays within the whole drain, and on course for it when nothing failed. */
  lemma TurnReplays(whole: Outcome, log0: seq<Entry>, files: Files, log: seq<Entry>, res: Result, ok: bool,
                    queue: seq<Name>, budget: nat, r: Result, files': Files, log': seq<Entry>, res': Result)
    requires Replaying(whole, log0, files, log, res, queue, budget)
    requires queue != [] && res.sent < budget && res' == Result(res.sent + r.sent, res.skipped + r.skipped)
    requires r.sent <= Min(budget - res.sent, |EntriesOf(files, queue[0])|)
    requires log' == log + EntriesOf(files, queue[0])[..r.sent]
    requires ok ==> r == Result(Min(budget - res.sent, |EntriesOf(files, queue[0])|), SkippedIn(files, queue[0]))
    requires ok ==> files' == AfterSending(files, queue[0], r.sent)
    ensures log0 <= log' <= log0 + whole.sent && |log'| == |log0| + res'.sent && res'.sent <= budget
    ensures ok ==> Replaying(whole, log0, files', log', res', queue[1..], budget)
  {
    var es, left := EntriesOf(files, queue[0]), budget - res.sent;
    var front := es[..Min(left, |es|)];
    assert front[..r.sent] == es[..r.sent];
    TurnOnCourse(whole, log0, res.skipped, log, files, queue, left, r.sent, front,
      DrainAll(AfterSending(files, queue[0], |front|), queue[1..], left - |front|));
  }

  lemma Replayed(whole: Outcome, log0: seq<Entry>, files: Files, log: seq<Entry>, res: Result, rest: seq<Name>,
      budget: nat)
    requires Replaying(whole, log0, files, log, res, rest, budget)
    ensures log0 <= log <= log0 + whole.sent
    ensures rest == [] || res.sent == budget ==> Outcome(files, log[|log0|..], res.skipped) == whole
  {
    if rest == [] || res.sent == budget {
      assert DrainAll(files, rest, budget - res.sent) == Outcome(files, [], 0);
      assert log + [] == log && (log0 + whole.sent)[|log0|..] == whole.sent;
    }
  }

  /** Every record on disk or in the sink stays on disk or in the sink. */
  ghost predicate NothingLost(f0: Files, log0: seq<Entry>, files: Files, log: seq<Entry>) {
    OnDisk(f0) + multiset(log0) <= OnDisk(files) + multiset(log)
  }

  /** And no record is in both that was not before. */
  ghost predicate NothingRepeated(f0: Files, log0: seq<Entry>, files: Files, log: seq<Entry>) {
    OnDisk(f0) + multiset(log0) == OnDisk(files) + multiset(log)
  }

  lemma StillNothingLost(f0: Files, log0: seq<Entry>, f1: Files, log1: seq<Entry>, f2: Files, log2: seq<Entry>)
    requires NothingLost(f0, log0, f1, log1) && NothingLost(f1, log1, f2, log2)
    ensures NothingLost(f0, log0, f2, log2)
  {}

  /** Whether or not the file could be rewritten. */
  lemma TurnKeeps(f0: Files, log0: seq<Entry>, before: Files, after: Files, path: Name, n: nat, log: seq<Entry>,
      log': seq<Entry>)
    requires NothingLost(f0, log0, before, log)
    requires n <= |EntriesOf(before, path)| && log' == log + EntriesOf(before, path)[..n]
    requires after == before || after == AfterSending(before, path, n)
    ensures NothingLost(f0, log0, after, log')
    ensures NothingRepeated(f0, log0, before, log) && after == AfterSending(before, path, n) ==>
      NothingRepeated(f0, log0, after, log')
  {
    AfterSendingConserves(before, path, n);
    StillNothingLost(f0, log0, before, log, after, log');
  }

  lemma MoreSent(log: seq<Entry>, es: seq<Entry>, a: nat, end: nat, n: nat)
    requires a <= a + n <= end <= |es|
    ensures log + es[..a] + es[a..end][..n] == log + es[..a + n]
  {}

  datatype AccessOutcome = Logged | Spooled(pending: nat) | Lost

  /** The number reported with a spooled record: what is on disk when every file could be read, and never
      more. */
  ghost predicate PendingIs(files: Files, pending: nat, counted: bool) {
    pending <= |OnDisk(files)| && (counted ==> pending == |OnDisk(files)|)
  }

  /** A record is safe once it is in the database, or in the spool and not right behind a torn write. */
  predicate Safe(r: AccessOutcome, before: Files) {
    r.Logged? || (r.Spooled? && !EndsOpen(LinesOf(before, Live)))
  }

  /** Records one access: in the database when it answers, else in the spool. Only when both fail
      is the record reported lost; nothing recorded earlier ever is. What is appended right behind a
      torn write joins it in one line, and is the one record reported spooled that is not. */
  method LogAccess(sp: Spool, db: Sink, e: Entry, tag: nat) returns (r: AccessOutcome, ghost counted: bool)
    requires Claim(tag) !in sp.files
    modifies sp`files, sp`faults, db
    ensures sp.faults == old(sp.faults) && db.faults == old(db.faults) ==>
      r.Logged? && CaughtUp(old(sp.files), old(db.log) + [e], tag, sp.files, db.log)
    ensures !r.Logged? ==> db.faults > old(db.faults)
    ensures r.Lost? ==> sp.faults > old(sp.faults) || CapReached(old(sp.files), sp.maxBytes)
    ensures NothingLost(old(sp.files), old(db.log) + (if Safe(r, old(sp.files)) then [e] else []), sp.files, db.log)
    ensures r.Spooled? ==> PendingIs(sp.files, r.pending, counted) && db.log == old(db.log)
    ensures r.Spooled? && !Safe(r, old(sp.files)) ==> OnDisk(sp.files) == OnDisk(old(sp.files))
    ensures r.Logged? ==> e in db.log
  {
    var ok := db.Open();
    if ok { ok := db.LogAccess(e); }
    if !ok {
      r, counted := SpoolAccess(sp, e);
      assert old(db.log) + [] == old(db.log);
      WithEntry(old(sp.files), old(db.log), e, sp.files, r);
      return;
    }
    var backlog, known := sp.HasBacklog();
    if known && backlog {
      var res, drained;
      ghost var queue;
      res, drained, queue := sp.Drain(db, tag, MAX_DRAIN_PER_CALL);
      if drained { DrainedAll(old(sp.files), old(db.log) + [e], tag, queue, sp.files, db.log); }
    }
    r, counted := Logged, false;
    assert old(db.log) + [e] <= db.log;
    assert db.log[|old(db.log)|] == e;
  }

  /** The spool drained as far as one call goes; or there was nothing to drain. */
  ghost predicate CaughtUp(f0: Files, log0: seq<Entry>, tag: nat, files: Files, log: seq<Entry>) {
    if exists n :: n in f0 && f0[n] != [] then exists queue :: DrainedVia(f0, log0, tag, queue, files, log)
    else files == f0 && log == log0
  }

  ghost predicate DrainedVia(f0: Files, log0: seq<Entry>, tag: nat, queue: seq<Name>, files: Files, log: seq<Entry>) {
    && IsQueue(f0, tag, queue)
    && var whole := DrainAll(ClaimLive(f0, tag), queue, 10_000);
       files == whole.files && log == log0 + whole.sent
  }

  lemma DrainedAll(f0: Files, log0: seq<Entry>, tag: nat, queue: seq<Name>, files: Files, log: seq<Entry>)
    requires IsQueue(f0, tag, queue) && log0 <= log
    requires var whole := DrainAll(ClaimLive(f0, tag), queue, MAX_DRAIN_PER_CALL);
      files == whole.files && log[|log0|..] == whole.sent
    ensures DrainedVia(f0, log0, tag, queue, files, log)
  {
    assert log == log0 + log[|log0|..];
  }

  lemma WithEntry(f0: Files, log: seq<Entry>, e: Entry, files: Files, r: AccessOutcome)
    requires !r.Logged? && OnDisk(f0) + multiset(if Safe(r, f0) then [e] else []) <= OnDisk(files)
    ensures NothingLost(f0, log + (if Safe(r, f0) then [e] else []), files, log)
  {}

  method SpoolAccess(sp: Spool, e: Entry) returns (r: AccessOutcome, ghost counted: bool)
    modifies sp`files, sp`faults
    ensures sp.faults >= old(sp.faults)
    ensures r.Lost? ==> sp.faults > old(sp.faults) || CapReached(old(sp.files), sp.maxBytes)
    ensures sp.faults == old(sp.faults) && r.Spooled? ==> counted
    ensures !r.Logged?
    ensures OnDisk(old(sp.files)) + multiset(if Safe(r, old(sp.files)) then [e] else []) <= OnDisk(sp.files)
    ensures r.Spooled? ==> OnDisk(sp.files) == OnDisk(old(sp.files)) + multiset(if Safe(r, old(sp.files)) then [e] else [])
    ensures r.Spooled? ==> PendingIs(sp.files, r.pending, counted)
  {
    ghost var before := sp.files;
    var appended := sp.Append(e);
    AppendKeeps(before, e, appended, sp.files);
    if !appended.Appended? { return Lost, false; }
    var pending, ok := sp.Pending();
    CountedIsPart(sp.files, pending);
    r, counted := Spooled(pending), ok;
  }

  /** What an append does to the records on disk. */
  lemma AppendKeeps(before: Files, e: Entry, r: AppendOutcome, after: Files)
    requires r.Appended? ==> after == WithLine(before, Record(e))
    requires !r.Appended? ==> after == before || exists l :: TornOrWhole(l, e) && after == WithLine(before, l)
    ensures OnDisk(before) <= OnDisk(after)
    ensures r.Appended? ==> OnDisk(after) == OnDisk(before) + multiset(if EndsOpen(LinesOf(before, Live)) then [] else [e])
  {
    if r.Appended? {
      WithLineAdds(before, Record(e));
      assert Readable([Record(e)]) == [e];
    } else if after != before {
      var l :| TornOrWhole(l, e) && after == WithLine(before, l);
      WithLineAdds(before, l);
    }
  }
}
