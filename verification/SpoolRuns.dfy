/** Every run of one drainer, with appends between any two of its file operations and a stop
    between any two of them. */
module SpoolRuns {
  import opened SpoolFiles
  import opened SpoolDrain

  datatype Config = Config(budget: nat, batching: bool)

  /** A record that reached the sink, with the file it came from and its place in that file. */
  datatype Delivery = Delivery(file: nat, at: nat, entry: Entry)

  /** All the records ever written to one file, and how many of them have been taken off its front. */
  datatype Track = Track(written: seq<Entry>, gone: nat)

  datatype Phase =
    | Idle
    | Listed(batches: seq<Name>)
    | Reserved(batches: seq<Name>, tag: nat)
    | Between(queue: seq<Name>, sent: nat)
    | Sending(path: Name, entries: seq<Entry>, k: nat, queue: seq<Name>, sent: nat)

  /** The directory, the sink and the drainer; then what the run is judged by: which file each name
      holds, the history of every file, every record an append wrote whole, those spoiled by being
      appended right behind a torn write, those sent but left on disk when a drain stopped, the size
      of the sink when the drain began, and how many writes were torn. */
  datatype State = State(
    files: Files, sink: seq<Delivery>, phase: Phase,
    ids: map<Name, nat>, tracks: seq<Track>, offered: seq<Entry>, spoiled: seq<Entry>,
    replayed: seq<Entry>, mark: nat, tears: nat)

  /** Append stands for every append that wrote its whole record, reported as failed when the sync
      behind the write fails; Tear for one cut short. Stop stands for a crash and for every file
      operation that fails, a rewrite or a remove after sending included; SendFails is the sink failing
      with the remainder put back. */
  datatype Action =
    | Append(e: Entry, synced: bool) | Tear(size: Size)
    | Start(batches: seq<Name>) | NoLive | Reserve(tag: nat) | Rename | Unreserve
    | Load | Send | SendFails | Close | Finish | Stop

  const Init := State(map[], [], Idle, map[], [], [], [], [], 0, 0)

  /** The claim files, in whatever order their names sort. */
  ghost predicate Lists(files: Files, batches: seq<Name>) {
    Distinct(batches) && forall n :: n in batches <==> n in files && n.Claim?
  }

  /** Every name has its file. */
  ghost predicate Sound(s: State) {
    s.ids.Keys == s.files.Keys && forall n | n in s.ids :: s.ids[n] < |s.tracks|
  }

  function TrackOf(s: State, n: Name): Track
    requires n in s.ids && s.ids[n] < |s.tracks|
  {
    s.tracks[s.ids[n]]
  }

  /** The records the live file gains by what is appended now. */
  function NewIn(s: State, l: Line): seq<Entry> {
    Gained(LinesOf(s.files, Live), l)
  }

  ghost function Write(s: State, l: Line): (r: State)
    requires Sound(s)
    ensures Sound(r)
  {
    var files := WithLine(s.files, l);
    if Live in s.files then
      s.(files := files, tracks := s.tracks[s.ids[Live] := Track(TrackOf(s, Live).written + NewIn(s, l), TrackOf(s, Live).gone)])
    else
      s.(files := files, ids := s.ids[Live := |s.tracks|], tracks := s.tracks + [Track(NewIn(s, l), 0)])
  }

  /** A record appended behind a torn write becomes part of a line that cannot be read. */
  function Spoils(files: Files, e: Entry): seq<Entry> {
    if EndsOpen(LinesOf(files, Live)) then [e] else []
  }

  function UpTo(c: Config, p: Phase): (n: nat)
    requires p.Sending?
    ensures n <= |p.entries|
  {
    if p.sent <= c.budget then Min(c.budget - p.sent, |p.entries|) else 0
  }

  function ChunkSize(c: Config, p: Phase): (n: nat)
    requires p.Sending? && p.k < UpTo(c, p)
    ensures 0 < n <= UpTo(c, p) - p.k
  {
    if c.batching then Min(REPLAY_CHUNK, UpTo(c, p) - p.k) else 1
  }

  function Deliveries(id: nat, from: nat, entries: seq<Entry>): (r: seq<Delivery>)
    ensures |r| == |entries|
  {
    seq(|entries|, i requires 0 <= i < |entries| => Delivery(id, from + i, entries[i]))
  }

  ghost function SendNext(c: Config, s: State): (r: State)
    requires Sound(s) && s.phase.Sending? && s.phase.k < UpTo(c, s.phase) && s.phase.path in s.files
    ensures Sound(r)
  {
    var p := s.phase;
    var n := ChunkSize(c, p);
    var chunk := Deliveries(s.ids[p.path], TrackOf(s, p.path).gone + p.k, p.entries[p.k..p.k + n]);
    s.(sink := s.sink + chunk, phase := p.(k := p.k + n))
  }

  /** Takes the k sent records off the front of the file. */
  ghost function TakeOff(s: State, path: Name, k: nat): (r: State)
    requires Sound(s) && k <= |EntriesOf(s.files, path)|
    ensures Sound(r)
  {
    if path !in s.files then s
    else
      var files := AfterSending(s.files, path, k);
      var tracks := s.tracks[s.ids[path] := Track(TrackOf(s, path).written, TrackOf(s, path).gone + k)];
      s.(files := files, ids := if path in files then s.ids else s.ids - {path}, tracks := tracks)
  }

  ghost function AddPlaceholder(s: State, tag: nat): (r: State)
    requires Sound(s) && Claim(tag) !in s.files
    ensures Sound(r)
  {
    s.(files := s.files[Claim(tag) := []], ids := s.ids[Claim(tag) := |s.tracks|], tracks := s.tracks + [Track([], 0)])
  }

  ghost function MoveAside(s: State, tag: nat): (r: State)
    requires Sound(s) && Live in s.files
    ensures Sound(r)
  {
    s.(files := (s.files - {Live})[Claim(tag) := s.files[Live]], ids := (s.ids - {Live})[Claim(tag) := s.ids[Live]])
  }

  /** The records of the file being sent that are both in the sink and on disk. */
  function InFlight(p: Phase): seq<Entry> {
    if p.Sending? && p.k <= |p.entries| then p.entries[..p.k] else []
  }

  /** One step of the drainer, of an append, or a stop; an action that does not apply changes nothing. */
  ghost function Step(c: Config, s: State, a: Action): (r: State)
    requires Sound(s)
    ensures Sound(r)
  {
    var p := s.phase;
    match a
    case Append(e, _) =>
      Write(s, Record(e)).(offered := s.offered + [e], spoiled := s.spoiled + Spoils(s.files, e))
    case Tear(size) => Write(s, Unreadable(size, true)).(tears := s.tears + 1)
    case Start(batches) => if p.Idle? && Lists(s.files, batches) then s.(phase := Listed(batches), mark := |s.sink|) else s
    case NoLive => if p.Listed? && Live !in s.files then s.(phase := Between(p.batches, 0)) else s
    case Reserve(tag) =>
      if p.Listed? && Live in s.files && Claim(tag) !in s.files then
        AddPlaceholder(s, tag).(phase := Reserved(p.batches, tag))
      else s
    case Rename =>
      if p.Reserved? && Live in s.files then MoveAside(s, p.tag).(phase := Between(p.batches + [Claim(p.tag)], 0)) else s
    case Unreserve =>
      if p.Reserved? then s.(files := s.files - {Claim(p.tag)}, ids := s.ids - {Claim(p.tag)}, phase := Idle) else s
    case Load =>
      if p.Between? && p.queue != [] && p.sent < c.budget then
        s.(phase := Sending(p.queue[0], EntriesOf(s.files, p.queue[0]), 0, p.queue[1..], p.sent))
      else s
    case Send => if p.Sending? && p.k < UpTo(c, p) && p.path in s.files then SendNext(c, s) else s
    case SendFails =>
      if p.Sending? && p.k < UpTo(c, p) && p.k <= |EntriesOf(s.files, p.path)| then
        TakeOff(s, p.path, p.k).(phase := Idle)
      else s
    case Close =>
      if p.Sending? && p.k == UpTo(c, p) && p.k <= |EntriesOf(s.files, p.path)| then
        TakeOff(s, p.path, p.k).(phase := Between(p.queue, p.sent + p.k))
      else s
    case Finish => if p.Between? && (p.queue == [] || p.sent >= c.budget) then s.(phase := Idle) else s
    case Stop => s.(phase := Idle, replayed := s.replayed + InFlight(p))
  }

  ghost function Run(c: Config, actions: seq<Action>): (s: State)
    ensures Sound(s)
  {
    if actions == [] then Init else Step(c, Run(c, actions[..|actions| - 1]), actions[|actions| - 1])
  }

  lemma Then(c: Config, before: seq<Action>, a: Action)
    ensures Run(c, before + [a]) == Step(c, Run(c, before), a)
  {
    assert (before + [a])[..|before|] == before;
  }

  function Sent(sink: seq<Delivery>): seq<Entry> {
    seq(|sink|, i requires 0 <= i < |sink| => sink[i].entry)
  }

  // ---- What every state keeps ----

  /** The drainer only ever works on claim files, and knows what is in the one it is sending. */
  ghost predicate AtWork(c: Config, s: State) {
    match s.phase
    case Idle => true
    case Listed(batches) => forall n | n in batches :: n.Claim?
    case Reserved(batches, tag) =>
      (forall n | n in batches :: n.Claim?) && Claim(tag) in s.files && s.files[Claim(tag)] == [] && Live in s.files
    case Between(queue, sent) => forall n | n in queue :: n.Claim?
    case Sending(path, entries, k, queue, sent) =>
      && path.Claim? && (forall n | n in queue :: n.Claim?)
      && entries == EntriesOf(s.files, path) && k <= UpTo(c, s.phase)
  }

  /** A claim that does not come to its rename and is taken back leaves no trace. */
  lemma TakenBack(c: Config, s: State, tag: nat)
    requires Sound(s) && s.phase.Listed? && Live in s.files && Claim(tag) !in s.files
    ensures var r := Step(c, Step(c, s, Reserve(tag)), Unreserve); r.files == s.files && r.ids == s.ids && r.sink == s.sink
  {
    var r := Step(c, s, Reserve(tag));
    assert r.files - {Claim(tag)} == s.files && r.ids - {Claim(tag)} == s.ids;
  }

  lemma {:induction false} FreeTag(names: set<Name>) returns (tag: nat)
    ensures forall n | n in names && n.Claim? :: n.tag < tag
    decreases names
  {
    tag := 0;
    if n :| n in names {
      tag := FreeTag(names - {n});
      if n.Claim? && n.tag >= tag { tag := n.tag + 1; }
    }
  }

  /** A drain that has begun never gets stuck: some step of its own takes it on, without a stop. */
  lemma DrainerMoves(c: Config, s: State) returns (a: Action)
    requires Sound(s) && AtWork(c, s) && !s.phase.Idle?
    ensures !a.Append? && !a.Tear? && !a.Stop? && Step(c, s, a).phase != s.phase
  {
    var p := s.phase;
    if p.Listed? {
      if Live in s.files {
        var tag := FreeTag(s.files.Keys);
        a := Reserve(tag);
      } else {
        a := NoLive;
      }
    } else if p.Reserved? {
      a := Rename;
    } else if p.Between? {
      a := if p.queue != [] && p.sent < c.budget then Load else Finish;
    } else {
      a := if p.k < UpTo(c, p) then Send else Close;
    }
  }

  /** A batch sink has taken whole chunks of 500 of the file, or all that is to be sent of it. */
  ghost predicate WholeChunks(c: Config, p: Phase) {
    c.batching && p.Sending? ==> p.k % 500 == 0 || p.k == UpTo(c, p)
  }

  lemma {:induction false} ChunksLandWhole(c: Config, actions: seq<Action>)
    ensures WholeChunks(c, Run(c, actions).phase)
  {
    if actions != [] {
      var before := actions[..|actions| - 1];
      ChunksLandWhole(c, before);
      NextChunkWhole(c, Run(c, before), actions[|actions| - 1]);
    }
  }

  lemma NextChunkWhole(c: Config, s: State, a: Action)
    requires Sound(s) && WholeChunks(c, s.phase)
    ensures WholeChunks(c, Step(c, s, a).phase)
  {}

  /** rest is what a sequence holds beyond its first gone members. */
  predicate IsRest(written: seq<Entry>, gone: nat, rest: seq<Entry>) {
    gone + |rest| == |written| && forall i | 0 <= i < |rest| :: rest[i] == written[gone + i]
  }

  lemma RestGrows(written: seq<Entry>, gone: nat, rest: seq<Entry>, more: seq<Entry>)
    requires IsRest(written, gone, rest)
    ensures IsRest(written + more, gone, rest + more)
  {}

  lemma RestShrinks(written: seq<Entry>, gone: nat, rest: seq<Entry>, k: nat)
    requires IsRest(written, gone, rest) && k <= |rest|
    ensures IsRest(written, gone + k, rest[k..])
  {}

  /** A file holds what was written to it beyond what was taken off its front. */
  ghost predicate FileKept(s: State, n: Name)
    requires Sound(s) && n in s.files
  {
    IsRest(TrackOf(s, n).written, TrackOf(s, n).gone, Readable(s.files[n]))
  }

  ghost predicate FilesKept(s: State)
    requires Sound(s)
  {
    OneNameEach(s) && forall n | n in s.files :: FileKept(s, n)
  }

  ghost predicate OneNameEach(s: State)
    requires Sound(s)
  {
    forall m, n | m in s.ids && n in s.ids && m != n :: s.ids[m] != s.ids[n]
  }

  lemma LiveKept(s: State, l: Line)
    requires Sound(s) && FilesKept(s)
    ensures FileKept(Write(s, l), Live)
  {
    ExtendReadable(LinesOf(s.files, Live), l);
    if Live in s.files {
      assert FileKept(s, Live);
      RestGrows(TrackOf(s, Live).written, TrackOf(s, Live).gone, Readable(s.files[Live]), NewIn(s, l));
    }
  }

  lemma WriteKeepsFiles(s: State, l: Line)
    requires Sound(s) && FilesKept(s)
    ensures FilesKept(Write(s, l))
  {
    LiveKept(s, l);
    WriteElsewhere(s, l);
    ElsewhereKept(s, Write(s, l), Live);
  }

  /** Every other file has the lines and the history it had. */
  ghost predicate SameElsewhere(s: State, r: State, path: Name)
    requires Sound(s) && Sound(r)
  {
    && OneNameEach(r)
    && forall n | n in r.files && n != path ::
      n in s.files && s.files[n] == r.files[n] && TrackOf(s, n) == TrackOf(r, n)
  }

  lemma WriteElsewhere(s: State, l: Line)
    requires Sound(s) && FilesKept(s)
    ensures SameElsewhere(s, Write(s, l), Live)
  {
    WriteTracked(s, l);
  }

  lemma WriteTracked(s: State, l: Line)
    requires Sound(s) && OneNameEach(s)
    ensures var r := Write(s, l);
      OneNameEach(r) && forall n | n in r.ids && n != Live :: n in s.ids && TrackOf(r, n) == TrackOf(s, n)
  {}

  lemma ElsewhereKept(s: State, r: State, path: Name)
    requires Sound(s) && FilesKept(s) && Sound(r) && SameElsewhere(s, r, path)
    requires path in r.files ==> FileKept(r, path)
    ensures FilesKept(r)
  {
    forall n | n in r.files && n != path ensures FileKept(r, n) {
      assert FileKept(s, n);
    }
  }

  lemma PathKept(s: State, path: Name, k: nat)
    requires Sound(s) && FilesKept(s) && k <= |EntriesOf(s.files, path)| && path in TakeOff(s, path, k).files
    ensures FileKept(TakeOff(s, path, k), path)
  {
    if path in s.files {
      RestStays(s.files, path, k);
      assert FileKept(s, path);
      RestShrinks(TrackOf(s, path).written, TrackOf(s, path).gone, Readable(s.files[path]), k);
    }
  }

  lemma TakeOffKeepsFiles(s: State, path: Name, k: nat)
    requires Sound(s) && FilesKept(s) && k <= |EntriesOf(s.files, path)|
    ensures FilesKept(TakeOff(s, path, k))
  {
    if path in TakeOff(s, path, k).files { PathKept(s, path, k); }
    TakeOffElsewhere(s, path, k);
    ElsewhereKept(s, TakeOff(s, path, k), path);
  }

  lemma TakeOffElsewhere(s: State, path: Name, k: nat)
    requires Sound(s) && FilesKept(s) && k <= |EntriesOf(s.files, path)|
    ensures SameElsewhere(s, TakeOff(s, path, k), path)
  {
    if path in s.files { OthersUntouched(s.files, path, k); }
    OthersTracked(s, path, k);
  }

  lemma OthersUntouched(files: Files, path: Name, k: nat)
    requires k <= |EntriesOf(files, path)| && path in files
    ensures var after := AfterSending(files, path, k);
      forall n | n in after && n != path :: n in files && after[n] == files[n]
  {}

  lemma OthersTracked(s: State, path: Name, k: nat)
    requires Sound(s) && OneNameEach(s) && k <= |EntriesOf(s.files, path)|
    ensures var r := TakeOff(s, path, k);
      OneNameEach(r) && forall n | n in r.ids && n != path :: n in s.ids && TrackOf(r, n) == TrackOf(s, n)
  {}

  lemma NamesKeepFiles(s: State, tag: nat)
    requires Sound(s) && FilesKept(s)
    ensures Claim(tag) !in s.files ==> FilesKept(AddPlaceholder(s, tag))
    ensures Live in s.files ==> FilesKept(MoveAside(s, tag))
  {}

  /** Only the files, their names and their histories matter. */
  lemma SameFilesKept(s: State, r: State)
    requires Sound(s) && Sound(r) && FilesKept(s) && r.files == s.files && r.ids == s.ids && r.tracks == s.tracks
    ensures FilesKept(r)
  {
    forall n | n in r.files ensures FileKept(r, n) {
      assert FileKept(s, n);
    }
  }

  lemma UnreserveKeepsFiles(s: State, r: State, name: Name)
    requires Sound(s) && Sound(r) && FilesKept(s)
    requires r.files == s.files - {name} && r.ids == s.ids - {name} && r.tracks == s.tracks
    ensures FilesKept(r)
  {
    forall n | n in r.files ensures FileKept(r, n) {
      assert FileKept(s, n);
    }
  }

  lemma StepKeepsFiles(c: Config, s: State, a: Action, r: State)
    requires Sound(s) && FilesKept(s) && r == Step(c, s, a)
    ensures FilesKept(r)
  {
    var p := s.phase;
    if a.Append? {
      WriteKeepsFiles(s, Record(a.e));
      SameFilesKept(Write(s, Record(a.e)), r);
    } else if a.Tear? {
      WriteKeepsFiles(s, Unreadable(a.size, true));
      SameFilesKept(Write(s, Unreadable(a.size, true)), r);
    } else if r.files == s.files && r.ids == s.ids && r.tracks == s.tracks {
      SameFilesKept(s, r);
    } else {
      StepChangesFiles(c, s, a, r);
    }
  }

  lemma StepChangesFiles(c: Config, s: State, a: Action, r: State)
    requires Sound(s) && FilesKept(s) && r == Step(c, s, a) && !a.Append? && !a.Tear?
    requires r.files != s.files || r.ids != s.ids || r.tracks != s.tracks
    ensures FilesKept(r)
  {
    var p := s.phase;
    match a
    case Reserve(tag) =>
      NamesKeepFiles(s, tag);
      SameFilesKept(AddPlaceholder(s, tag), r);
    case Rename =>
      NamesKeepFiles(s, p.tag);
      SameFilesKept(MoveAside(s, p.tag), r);
    case Unreserve => UnreserveKeepsFiles(s, r, Claim(p.tag));
    case SendFails =>
      TakeOffKeepsFiles(s, p.path, p.k);
      SameFilesKept(TakeOff(s, p.path, p.k), r);
    case Close =>
      TakeOffKeepsFiles(s, p.path, p.k);
      SameFilesKept(TakeOff(s, p.path, p.k), r);
    case _ =>
  }

  lemma StepKeepsWork(c: Config, s: State, a: Action)
    requires Sound(s) && AtWork(c, s)
    ensures AtWork(c, Step(c, s, a))
  {
  }

  lemma {:induction false} RunKeepsFiles(c: Config, actions: seq<Action>)
    ensures FilesKept(Run(c, actions)) && AtWork(c, Run(c, actions))
  {
    if actions != [] {
      var before := actions[..|actions| - 1];
      RunKeepsFiles(c, before);
      StepKeepsFiles(c, Run(c, before), actions[|actions| - 1], Run(c, actions));
      StepKeepsWork(c, Run(c, before), actions[|actions| - 1]);
    }
  }

  // ---- Nothing is lost, nothing is invented ----

  /** How many copies of one record there are. */
  function Times(entries: seq<Entry>, e: Entry): nat {
    if entries == [] then 0
    else Times(entries[..|entries| - 1], e) + if entries[|entries| - 1] == e then 1 else 0
  }

  lemma {:induction false} TimesIsMultiset(entries: seq<Entry>, e: Entry)
    ensures Times(entries, e) == multiset(entries)[e]
  {
    if entries != [] {
      TimesIsMultiset(entries[..|entries| - 1], e);
      assert entries == entries[..|entries| - 1] + [entries[|entries| - 1]];
    }
  }

  lemma TimesAppended(a: seq<Entry>, b: seq<Entry>, e: Entry)
    ensures Times(a + b, e) == Times(a, e) + Times(b, e)
  {
    TimesIsMultiset(a, e);
    TimesIsMultiset(b, e);
    TimesIsMultiset(a + b, e);
  }

  /** The copies of e in the sink, on disk and spoiled are those offered, plus one more for each left
      behind by a drain after sending it, plus those in flight. */
  ghost predicate Conserved(s: State, e: Entry) {
    Times(Sent(s.sink), e) + OnDisk(s.files)[e] + Times(s.spoiled, e)
      == Times(s.offered, e) + Times(s.replayed, e) + Times(InFlight(s.phase), e)
  }

  lemma SentMore(sink: seq<Delivery>, id: nat, from: nat, entries: seq<Entry>, k: nat, n: nat, e: Entry)
    requires k + n <= |entries|
    ensures var chunk := entries[k..k + n];
      && Times(Sent(sink + Deliveries(id, from, chunk)), e) == Times(Sent(sink), e) + Times(chunk, e)
      && Times(entries[..k + n], e) == Times(entries[..k], e) + Times(chunk, e)
  {
    var chunk := entries[k..k + n];
    assert Sent(sink + Deliveries(id, from, chunk)) == Sent(sink) + chunk;
    assert entries[..k + n] == entries[..k] + chunk;
    TimesAppended(Sent(sink), chunk, e);
    TimesAppended(entries[..k], chunk, e);
  }

  lemma SendConserves(s: State, id: nat, from: nat, n: nat, e: Entry, after: State)
    requires Conserved(s, e) && s.phase.Sending? && s.phase.k + n <= |s.phase.entries| && after.files == s.files
    requires after.offered == s.offered && after.spoiled == s.spoiled && after.replayed == s.replayed
    requires after.sink == s.sink + Deliveries(id, from, s.phase.entries[s.phase.k..s.phase.k + n])
    requires InFlight(after.phase) == s.phase.entries[..s.phase.k + n]
    ensures Conserved(after, e)
  {
    SentMore(s.sink, id, from, s.phase.entries, s.phase.k, n, e);
  }

  lemma DiskLoses(files: Files, path: Name, k: nat, e: Entry)
    requires k <= |EntriesOf(files, path)|
    ensures Times(EntriesOf(files, path)[..k], e) + OnDisk(AfterSending(files, path, k))[e] == OnDisk(files)[e]
  {
    AfterSendingConserves(files, path, k);
    TimesIsMultiset(EntriesOf(files, path)[..k], e);
  }

  lemma TakeOffConserves(s: State, path: Name, k: nat, next: Phase, e: Entry, after: State)
    requires Sound(s) && k <= |EntriesOf(s.files, path)| && Conserved(s, e)
    requires InFlight(s.phase) == EntriesOf(s.files, path)[..k] && !next.Sending?
    requires after == TakeOff(s, path, k).(phase := next)
    ensures Conserved(after, e)
  {
    DiskLoses(s.files, path, k, e);
    if path !in s.files { assert AfterSending(s.files, path, k) == s.files; }
  }

  lemma DiskGains(files: Files, l: Line, e: Entry)
    ensures OnDisk(WithLine(files, l))[e] == OnDisk(files)[e] + Times(Gained(LinesOf(files, Live), l), e)
  {
    WithLineAdds(files, l);
    TimesIsMultiset(Gained(LinesOf(files, Live), l), e);
  }

  lemma AppendConserves(s: State, x: Entry, e: Entry, after: State)
    requires Sound(s) && Conserved(s, e) && after.files == WithLine(s.files, Record(x))
    requires after.sink == s.sink && after.phase == s.phase && after.replayed == s.replayed
    requires after.offered == s.offered + [x] && after.spoiled == s.spoiled + Spoils(s.files, x)
    ensures Conserved(after, e)
  {
    DiskGains(s.files, Record(x), e);
    WhatIsGained(LinesOf(s.files, Live), Record(x));
    TimesAppended(s.offered, [x], e);
    TimesAppended(s.spoiled, Spoils(s.files, x), e);
  }

  lemma TearConserves(s: State, size: Size, e: Entry, after: State)
    requires Sound(s) && Conserved(s, e) && after.files == WithLine(s.files, Unreadable(size, true))
    requires SameBooks(s, after) && after.phase == s.phase
    ensures Conserved(after, e)
  {
    DiskGains(s.files, Unreadable(size, true), e);
    WhatIsGained(LinesOf(s.files, Live), Unreadable(size, true));
  }

  predicate SameBooks(s: State, after: State) {
    after.sink == s.sink && after.spoiled == s.spoiled && after.offered == s.offered && after.replayed == s.replayed
  }

  lemma SameDisk(s: State, e: Entry, after: State)
    requires Conserved(s, e) && OnDisk(after.files) == OnDisk(s.files) && SameBooks(s, after)
    requires InFlight(after.phase) == InFlight(s.phase)
    ensures Conserved(after, e)
  {}

  lemma MovingIsAdding(files: Files, n: Name, lines: seq<Line>)
    ensures (files - {n})[n := lines] == files[n := lines]
  {}

  lemma RenameKeepsDisk(files: Files, tag: nat, rest: Files)
    requires Live in files && rest == files - {Live} && Claim(tag) in rest && rest[Claim(tag)] == []
    ensures OnDisk(rest[Claim(tag) := files[Live]]) == OnDisk(files)
  {
    RemoveFile(files, Live);
    PlaceholderIsEmpty(rest, tag);
    AddFile(rest - {Claim(tag)}, Claim(tag), files[Live]);
    MovingIsAdding(rest, Claim(tag), files[Live]);
  }

  lemma ReserveConserves(c: Config, s: State, tag: nat, e: Entry, after: State)
    requires Sound(s) && Conserved(s, e) && after == Step(c, s, Reserve(tag))
    ensures Conserved(after, e)
  {
    PlaceholderIsEmpty(s.files, tag);
    if s.phase.Listed? && Live in s.files && Claim(tag) !in s.files { SameDisk(s, e, after); }
  }

  lemma RenameConserves(c: Config, s: State, e: Entry, after: State)
    requires Sound(s) && AtWork(c, s) && Conserved(s, e) && after == Step(c, s, Rename)
    ensures Conserved(after, e)
  {
    if s.phase.Reserved? {
      RenameKeepsDisk(s.files, s.phase.tag, s.files - {Live});
      SameDisk(s, e, after);
    }
  }

  lemma UnreserveConserves(c: Config, s: State, e: Entry, after: State)
    requires Sound(s) && AtWork(c, s) && Conserved(s, e) && after == Step(c, s, Unreserve)
    ensures Conserved(after, e)
  {
    if s.phase.Reserved? {
      PlaceholderIsEmpty(s.files, s.phase.tag);
      SameDisk(s, e, after);
    }
  }

  lemma SendNextConserves(c: Config, s: State, e: Entry)
    requires Sound(s) && s.phase.Sending? && s.phase.k < UpTo(c, s.phase) && s.phase.path in s.files && Conserved(s, e)
    ensures Conserved(SendNext(c, s), e)
  {
    var p := s.phase;
    SendConserves(s, s.ids[p.path], TrackOf(s, p.path).gone + p.k, ChunkSize(c, p), e, SendNext(c, s));
  }

  lemma SendingConserves(c: Config, s: State, e: Entry, after: State)
    requires Sound(s) && Conserved(s, e) && after == Step(c, s, Send)
    ensures Conserved(after, e)
  {
    var p := s.phase;
    if p.Sending? && p.k < UpTo(c, p) && p.path in s.files { SendNextConserves(c, s, e); }
  }

  lemma SendFailsConserves(c: Config, s: State, e: Entry, after: State)
    requires Sound(s) && AtWork(c, s) && Conserved(s, e) && after == Step(c, s, SendFails)
    ensures Conserved(after, e)
  {
    var p := s.phase;
    if p.Sending? && p.k < UpTo(c, p) { TakeOffConserves(s, p.path, p.k, Idle, e, after); }
  }

  lemma CloseConserves(c: Config, s: State, e: Entry, after: State)
    requires Sound(s) && AtWork(c, s) && Conserved(s, e) && after == Step(c, s, Close)
    ensures Conserved(after, e)
  {
    if s.phase.Sending? && s.phase.k == UpTo(c, s.phase) { ClosedConserves(c, s, e); }
  }

  lemma ClosedConserves(c: Config, s: State, e: Entry)
    requires Sound(s) && AtWork(c, s) && Conserved(s, e) && s.phase.Sending? && s.phase.k == UpTo(c, s.phase)
    ensures Conserved(Step(c, s, Close), e)
  {
    var p := s.phase;
    TakeOffConserves(s, p.path, p.k, Between(p.queue, p.sent + p.k), e, Step(c, s, Close));
  }

  lemma StopConserves(s: State, e: Entry, after: State)
    requires Conserved(s, e) && after == s.(phase := Idle, replayed := s.replayed + InFlight(s.phase))
    ensures Conserved(after, e)
  {
    TimesAppended(s.replayed, InFlight(s.phase), e);
  }

  lemma OthersConserve(c: Config, s: State, a: Action, e: Entry, after: State)
    requires Sound(s) && Conserved(s, e) && after == Step(c, s, a) && (a.Start? || a.NoLive? || a.Load? || a.Finish?)
    ensures Conserved(after, e)
  {
    assert after.files == s.files && InFlight(after.phase) == InFlight(s.phase);
    SameDisk(s, e, after);
  }

  lemma StepConserves(c: Config, s: State, a: Action, e: Entry, after: State)
    requires Sound(s) && AtWork(c, s) && Conserved(s, e) && after == Step(c, s, a)
    ensures Conserved(after, e)
  {
    if a.Append? { AppendConserves(s, a.e, e, after); }
    else if a.Tear? { TearConserves(s, a.size, e, after); }
    else if a.Reserve? { ReserveConserves(c, s, a.tag, e, after); }
    else if a.Rename? { RenameConserves(c, s, e, after); }
    else if a.Unreserve? { UnreserveConserves(c, s, e, after); }
    else if a.Send? { SendingConserves(c, s, e, after); }
    else if a.SendFails? { SendFailsConserves(c, s, e, after); }
    else if a.Close? { CloseConserves(c, s, e, after); }
    else if a.Stop? { StopConserves(s, e, after); }
    else { OthersConserve(c, s, a, e, after); }
  }

  lemma InitIsEmpty()
    ensures OnDisk(map[]) == multiset{}
  {
    AllEntriesIsDisk(map[], []);
  }

  /** Record by record, nothing is created and nothing disappears. */
  lemma {:induction false} RunConserves(c: Config, actions: seq<Action>, e: Entry)
    ensures Conserved(Run(c, actions), e)
  {
    if actions == [] {
      InitIsEmpty();
    } else {
      var before := actions[..|actions| - 1];
      RunKeepsFiles(c, before);
      RunConserves(c, before, e);
      StepConserves(c, Run(c, before), actions[|actions| - 1], e, Run(c, actions));
    }
  }

  function OpenEnds(files: Files): nat {
    if EndsOpen(LinesOf(files, Live)) then 1 else 0
  }

  /** Each torn write spoils at most one record, the one appended right behind it. */
  lemma {:induction false} EachTearSpoilsAtMostOne(c: Config, actions: seq<Action>)
    ensures var s := Run(c, actions); |s.spoiled| + OpenEnds(s.files) <= s.tears
  {
    if actions != [] {
      var before := actions[..|actions| - 1];
      EachTearSpoilsAtMostOne(c, before);
      RunKeepsFiles(c, before);
      StepSpoils(c, Run(c, before), actions[|actions| - 1], Run(c, actions));
    }
  }

  lemma StepSpoils(c: Config, s: State, a: Action, after: State)
    requires Sound(s) && AtWork(c, s) && after == Step(c, s, a)
    ensures a.Append? ==>
      |after.spoiled| == |s.spoiled| + OpenEnds(s.files) && after.tears == s.tears && OpenEnds(after.files) == 0
    ensures a.Tear? ==> after.spoiled == s.spoiled && after.tears == s.tears + 1
    ensures !a.Append? && !a.Tear? ==>
      after.spoiled == s.spoiled && after.tears == s.tears && OpenEnds(after.files) <= OpenEnds(s.files)
  {
    if a.Append? { WhatIsGained(LinesOf(s.files, Live), Record(a.e)); }
  }

  /** No append ever landed right behind a torn write. */
  ghost predicate NoneBehindTear(c: Config, actions: seq<Action>) {
    if actions == [] then true
    else
      var before, a := actions[..|actions| - 1], actions[|actions| - 1];
      NoneBehindTear(c, before) && (a.Append? ==> !EndsOpen(LinesOf(Run(c, before).files, Live)))
  }

  lemma StepSpoilsWhat(c: Config, s: State, a: Action)
    requires Sound(s)
    ensures Step(c, s, a).spoiled == if a.Append? then s.spoiled + Spoils(s.files, a.e) else s.spoiled
  {}

  lemma {:induction false} SpoiledComeFromTears(c: Config, actions: seq<Action>)
    ensures Run(c, actions).spoiled == [] <==> NoneBehindTear(c, actions)
  {
    if actions != [] {
      var before, a := actions[..|actions| - 1], actions[|actions| - 1];
      SpoiledComeFromTears(c, before);
      StepSpoilsWhat(c, Run(c, before), a);
    }
  }

  /** Every stop came when nothing of the file being sent had reached the sink. */
  ghost predicate StopsClean(c: Config, actions: seq<Action>) {
    if actions == [] then true
    else
      var before, a := actions[..|actions| - 1], actions[|actions| - 1];
      StopsClean(c, before) && (a.Stop? ==> InFlight(Run(c, before).phase) == [])
  }

  lemma StepReplays(c: Config, s: State, a: Action)
    requires Sound(s)
    ensures Step(c, s, a).replayed == if a.Stop? then s.replayed + InFlight(s.phase) else s.replayed
  {}

  lemma {:induction false} ReplaysComeFromStops(c: Config, actions: seq<Action>)
    ensures Run(c, actions).replayed == [] <==> StopsClean(c, actions)
  {
    if actions != [] {
      var before := actions[..|actions| - 1];
      ReplaysComeFromStops(c, before);
      StepReplays(c, Run(c, before), actions[|actions| - 1]);
    }
  }

  /** The balance of all records at once. */
  ghost predicate Balanced(here: multiset<Entry>, spoiled: seq<Entry>, offered: seq<Entry>, extra: seq<Entry>) {
    here + multiset(spoiled) == multiset(offered) + multiset(extra)
  }

  /** What is in the sink or on disk. */
  ghost function Here(s: State): multiset<Entry> {
    multiset(Sent(s.sink)) + OnDisk(s.files)
  }

  lemma RunBalanced(c: Config, actions: seq<Action>)
    ensures var s := Run(c, actions); Balanced(Here(s), s.spoiled, s.offered, s.replayed + InFlight(s.phase))
  {
    var s := Run(c, actions);
    var extra := s.replayed + InFlight(s.phase);
    forall e ensures (Here(s) + multiset(s.spoiled))[e] == (multiset(s.offered) + multiset(extra))[e] {
      RunConserves(c, actions, e);
      CopiesOf(s, e);
    }
  }

  lemma CopiesOf(s: State, e: Entry)
    requires Conserved(s, e)
    ensures (Here(s) + multiset(s.spoiled))[e] == (multiset(s.offered) + multiset(s.replayed + InFlight(s.phase)))[e]
  {
    TimesIsMultiset(Sent(s.sink), e);
    TimesIsMultiset(s.spoiled, e);
    TimesIsMultiset(s.offered, e);
    TimesIsMultiset(s.replayed, e);
    TimesIsMultiset(InFlight(s.phase), e);
  }

  lemma Shares(here: multiset<Entry>, spoiled: seq<Entry>, offered: seq<Entry>, extra: seq<Entry>)
    requires Balanced(here, spoiled, offered, extra)
    ensures multiset(offered) <= here + multiset(spoiled)
    ensures multiset(offered) <= here <==> multiset(spoiled) <= multiset(extra)
    ensures here + multiset(spoiled) == multiset(offered) <==> extra == []
    ensures here == multiset(offered) <==> multiset(spoiled) == multiset(extra)
  {
    forall e ensures here[e] + multiset(spoiled)[e] == multiset(offered)[e] + multiset(extra)[e] {
      assert (here + multiset(spoiled))[e] == (multiset(offered) + multiset(extra))[e];
    }
    if extra != [] {
      assert extra[0] in multiset(extra);
    }
  }

  /** Whenever the sink fails and wherever the drainer stops, every record an append wrote whole is in
      the sink or on disk, unless it was appended right behind a torn write. */
  lemma NothingIsLost(c: Config, actions: seq<Action>)
    ensures var s := Run(c, actions);
      && multiset(s.offered) <= Here(s) + multiset(s.spoiled)
      && (NoneBehindTear(c, actions) ==> multiset(s.offered) <= Here(s))
  {
    var s := Run(c, actions);
    RunBalanced(c, actions);
    SpoiledComeFromTears(c, actions);
    Shares(Here(s), s.spoiled, s.offered, s.replayed + InFlight(s.phase));
  }

  /** The exact condition: a record is missing when it was spoiled and no copy too many stands for it;
      after clean stops there are no copies too many. */
  lemma NothingIsMissingIff(c: Config, actions: seq<Action>)
    ensures var s := Run(c, actions);
      && (multiset(s.offered) <= Here(s) <==> multiset(s.spoiled) <= multiset(s.replayed + InFlight(s.phase)))
      && (StopsClean(c, actions) && !s.phase.Sending? ==>
            (multiset(s.offered) <= Here(s) <==> NoneBehindTear(c, actions)))
  {
    var s := Run(c, actions);
    RunBalanced(c, actions);
    SpoiledComeFromTears(c, actions);
    ReplaysComeFromStops(c, actions);
    Shares(Here(s), s.spoiled, s.offered, s.replayed + InFlight(s.phase));
  }

  /** Exactly once: whenever no file is being sent, each record offered is in the sink, on disk or
      spoiled exactly once, if and only if no stop ever came between sending records and taking them
      off their file; with none spoiled, sink and disk hold each offered record once. */
  lemma ExactlyOnceIff(c: Config, actions: seq<Action>)
    ensures var s := Run(c, actions); !s.phase.Sending? ==>
      && (Here(s) + multiset(s.spoiled) == multiset(s.offered) <==> StopsClean(c, actions))
      && (NoneBehindTear(c, actions) ==> (Here(s) == multiset(s.offered) <==> StopsClean(c, actions)))
      && (StopsClean(c, actions) ==> (Here(s) == multiset(s.offered) <==> NoneBehindTear(c, actions)))
  {
    var s := Run(c, actions);
    RunBalanced(c, actions);
    ReplaysComeFromStops(c, actions);
    SpoiledComeFromTears(c, actions);
    Shares(Here(s), s.spoiled, s.offered, s.replayed + InFlight(s.phase));
  }
}
