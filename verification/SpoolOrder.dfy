/** Which record goes where in a run: what reached the sink is each file's records in file order,
    with no gap, and what has left the disk has reached the sink. */
module SpoolOrder {
  import opened SpoolFiles
  import opened SpoolDrain
  import opened SpoolRuns

  ghost predicate Delivered(sink: seq<Delivery>, id: nat, at: nat) {
    exists i | 0 <= i < |sink| :: sink[i].file == id && sink[i].at == at
  }

  /** Every record of a file got there after the one before it in the file. */
  ghost predicate NoGap(sink: seq<Delivery>) {
    forall i | 0 <= i < |sink| && sink[i].at > 0 :: Delivered(sink[..i], sink[i].file, sink[i].at - 1)
  }

  predicate Genuine(tracks: seq<Track>, d: Delivery) {
    d.file < |tracks| && d.at < |tracks[d.file].written| && tracks[d.file].written[d.at] == d.entry
  }

  ghost predicate AllGenuine(s: State) {
    forall i | 0 <= i < |s.sink| :: Genuine(s.tracks, s.sink[i])
  }

  ghost predicate DeliveredUpTo(sink: seq<Delivery>, id: nat, n: nat) {
    forall at | 0 <= at < n :: Delivered(sink, id, at)
  }

  ghost predicate GoneDelivered(s: State) {
    forall id | 0 <= id < |s.tracks| :: DeliveredUpTo(s.sink, id, s.tracks[id].gone)
  }

  ghost predicate Held(s: State, id: nat) {
    exists n | n in s.ids :: s.ids[n] == id
  }

  /** A file whose records are not all taken off is in the directory under some name. */
  ghost predicate RestHeld(s: State) {
    forall id | 0 <= id < |s.tracks| :: s.tracks[id].gone < |s.tracks[id].written| ==> Held(s, id)
  }

  ghost predicate FlightDelivered(s: State)
    requires Sound(s)
  {
    s.phase.Sending? && s.phase.path in s.files ==>
      DeliveredUpTo(s.sink, s.ids[s.phase.path], TrackOf(s, s.phase.path).gone + s.phase.k)
  }

  ghost predicate InOrder(s: State)
    requires Sound(s)
  {
    NoGap(s.sink) && AllGenuine(s) && GoneDelivered(s) && FlightDelivered(s)
  }

  lemma StillDelivered(before: seq<Delivery>, sink: seq<Delivery>)
    requires before <= sink
    ensures forall id, at :: Delivered(before, id, at) ==> Delivered(sink, id, at)
  {
    forall id, at | Delivered(before, id, at) ensures Delivered(sink, id, at) {
      var i :| 0 <= i < |before| && before[i].file == id && before[i].at == at;
      assert sink[i] == before[i];
    }
  }

  lemma ChunkDelivered(before: seq<Delivery>, id: nat, from: nat, chunk: seq<Entry>, sink: seq<Delivery>)
    requires DeliveredUpTo(before, id, from) && sink == before + Deliveries(id, from, chunk)
    ensures DeliveredUpTo(sink, id, from + |chunk|)
  {
    StillDelivered(before, sink);
    forall at | 0 <= at < from + |chunk| ensures Delivered(sink, id, at) {
      if at >= from { assert sink[|before| + (at - from)].at == at; }
    }
  }

  lemma ChunkNoGap(before: seq<Delivery>, id: nat, from: nat, chunk: seq<Entry>, sink: seq<Delivery>)
    requires NoGap(before) && DeliveredUpTo(before, id, from) && sink == before + Deliveries(id, from, chunk)
    ensures NoGap(sink)
  {
    forall i | 0 <= i < |sink| && sink[i].at > 0 ensures Delivered(sink[..i], sink[i].file, sink[i].at - 1) {
      if i < |before| {
        assert sink[..i] == before[..i];
      } else {
        PredecessorSent(before, sink, id, from, i);
      }
    }
  }

  lemma ChunkGenuine(tracks: seq<Track>, before: seq<Delivery>, id: nat, from: nat, chunk: seq<Entry>,
      sink: seq<Delivery>)
    requires id < |tracks| && forall i | 0 <= i < |before| :: Genuine(tracks, before[i])
    requires from + |chunk| <= |tracks[id].written| && chunk == tracks[id].written[from..from + |chunk|]
    requires sink == before + Deliveries(id, from, chunk)
    ensures forall i | 0 <= i < |sink| :: Genuine(tracks, sink[i])
  {
    forall i | 0 <= i < |sink| ensures Genuine(tracks, sink[i]) {
      assert i < |before| ==> sink[i] == before[i];
    }
  }

  lemma PredecessorSent(before: seq<Delivery>, sink: seq<Delivery>, id: nat, from: nat, i: nat)
    requires |before| <= i < |sink| && before <= sink && DeliveredUpTo(before, id, from)
    requires forall k | |before| <= k < |sink| :: sink[k].file == id && sink[k].at == from + (k - |before|)
    ensures sink[i].at > 0 ==> Delivered(sink[..i], id, sink[i].at - 1)
  {
    if sink[i].at > 0 {
      var at := sink[i].at - 1;
      if i == |before| {
        assert Delivered(before, id, at);
        var j :| 0 <= j < |before| && before[j].file == id && before[j].at == at;
        assert sink[..i][j] == before[j];
      } else {
        assert sink[..i][i - 1].at == at;
      }
    }
  }

  lemma ChunkIsNext(written: seq<Entry>, gone: nat, entries: seq<Entry>, k: nat, n: nat)
    requires IsRest(written, gone, entries) && k + n <= |entries|
    ensures entries[k..k + n] == written[gone + k..gone + k + n]
  {}

  lemma SendingInOrder(c: Config, s: State, id: nat, t: Track, n: nat, after: State)
    requires Sound(s) && InOrder(s) && s.phase.Sending? && s.phase.path in s.files
    requires id == s.ids[s.phase.path] && t == TrackOf(s, s.phase.path)
    requires IsRest(t.written, t.gone, s.phase.entries) && s.phase.k + n <= |s.phase.entries|
    requires var p := s.phase; after == s.(
      sink := s.sink + Deliveries(id, t.gone + p.k, p.entries[p.k..p.k + n]), phase := p.(k := p.k + n))
    ensures InOrder(after)
  {
    var p := s.phase;
    ChunkIsNext(t.written, t.gone, p.entries, p.k, n);
    var from, chunk := t.gone + p.k, p.entries[p.k..p.k + n];
    ChunkDelivered(s.sink, id, from, chunk, after.sink);
    ChunkNoGap(s.sink, id, from, chunk, after.sink);
    ChunkGenuine(s.tracks, s.sink, id, from, chunk, after.sink);
    StillDelivered(s.sink, after.sink);
    forall j | 0 <= j < |after.tracks| ensures DeliveredUpTo(after.sink, j, after.tracks[j].gone) {
      assert DeliveredUpTo(s.sink, j, s.tracks[j].gone);
    }
  }

  /** Steps that send nothing and take nothing off: files may grow or appear. */
  ghost predicate Quiet(s: State, after: State)
    requires Sound(s) && Sound(after)
  {
    && after.sink == s.sink && |s.tracks| <= |after.tracks|
    && (forall id | 0 <= id < |after.tracks| :: TrackGrew(s, after, id))
    && (after.phase.Sending? && after.phase.k > 0 ==> after.phase == s.phase)
    && (after.phase.Sending? && after.phase.k > 0 && after.phase.path in after.files ==>
          after.phase.path in s.files && after.ids[after.phase.path] == s.ids[after.phase.path])
  }

  predicate TrackGrew(s: State, after: State, id: nat)
    requires id < |after.tracks|
  {
    if id < |s.tracks| then
      s.tracks[id].written <= after.tracks[id].written && s.tracks[id].gone == after.tracks[id].gone
    else after.tracks[id].gone == 0
  }

  lemma QuietInOrder(s: State, after: State)
    requires Sound(s) && InOrder(s) && Sound(after) && Quiet(s, after)
    ensures InOrder(after)
  {
    forall i | 0 <= i < |after.sink| ensures Genuine(after.tracks, after.sink[i]) {
      assert Genuine(s.tracks, s.sink[i]) && TrackGrew(s, after, s.sink[i].file);
    }
    forall id | 0 <= id < |after.tracks| ensures DeliveredUpTo(after.sink, id, after.tracks[id].gone) {
      assert TrackGrew(s, after, id);
    }
    if after.phase.Sending? && after.phase.path in after.files {
      assert TrackGrew(s, after, after.ids[after.phase.path]);
    }
  }

  lemma TakeOffInOrder(s: State, path: Name, k: nat, after: State)
    requires Sound(s) && InOrder(s) && k <= |EntriesOf(s.files, path)|
    requires path in s.files ==> DeliveredUpTo(s.sink, s.ids[path], TrackOf(s, path).gone + k)
    requires after == TakeOff(s, path, k).(phase := after.phase) && !after.phase.Sending?
    ensures InOrder(after)
  {
    forall i | 0 <= i < |after.sink| ensures Genuine(after.tracks, after.sink[i]) {
      assert Genuine(s.tracks, s.sink[i]);
    }
    forall id | 0 <= id < |after.tracks| ensures DeliveredUpTo(after.sink, id, after.tracks[id].gone) {
      assert DeliveredUpTo(s.sink, id, s.tracks[id].gone);
    }
  }

  lemma SendFailsInOrder(c: Config, s: State, after: State)
    requires Sound(s) && AtWork(c, s) && InOrder(s) && after == Step(c, s, SendFails)
    ensures InOrder(after)
  {
    var p := s.phase;
    if p.Sending? && p.k < UpTo(c, p) { TakeOffInOrder(s, p.path, p.k, after); }
  }

  lemma CloseInOrder(c: Config, s: State, after: State)
    requires Sound(s) && AtWork(c, s) && InOrder(s) && after == Step(c, s, Close)
    ensures InOrder(after)
  {
    var p := s.phase;
    if p.Sending? && p.k == UpTo(c, p) { TakeOffInOrder(s, p.path, p.k, after); }
  }

  lemma WriteQuiet(s: State, l: Line, after: State)
    requires Sound(s) && Sound(after) && s.sink == after.sink && s.phase == after.phase
    requires (s.phase.Sending? ==> s.phase.path.Claim?) && after.files == Write(s, l).files
    requires after.ids == Write(s, l).ids && after.tracks == Write(s, l).tracks
    ensures Quiet(s, after)
  {}

  lemma StepQuiet(c: Config, s: State, a: Action, after: State)
    requires Sound(s) && AtWork(c, s) && after == Step(c, s, a) && !a.Send? && !a.SendFails? && !a.Close?
    ensures Quiet(s, after)
  {
    if a.Append? {
      WriteQuiet(s, Record(a.e), after);
    } else if a.Tear? {
      WriteQuiet(s, Unreadable(a.size, true), after);
    }
  }

  lemma EntriesAreRest(c: Config, s: State)
    requires Sound(s) && AtWork(c, s) && FilesKept(s) && s.phase.Sending? && s.phase.path in s.files
    ensures IsRest(TrackOf(s, s.phase.path).written, TrackOf(s, s.phase.path).gone, s.phase.entries)
  {
    assert FileKept(s, s.phase.path);
  }

  lemma SendNextInOrder(c: Config, s: State)
    requires Sound(s) && AtWork(c, s) && FilesKept(s) && InOrder(s)
    requires s.phase.Sending? && s.phase.k < UpTo(c, s.phase) && s.phase.path in s.files
    ensures InOrder(SendNext(c, s))
  {
    EntriesAreRest(c, s);
    SendingInOrder(c, s, s.ids[s.phase.path], TrackOf(s, s.phase.path), ChunkSize(c, s.phase), SendNext(c, s));
  }

  lemma SendInOrder(c: Config, s: State, after: State)
    requires Sound(s) && AtWork(c, s) && FilesKept(s) && InOrder(s) && after == Step(c, s, Send)
    ensures InOrder(after)
  {
    var p := s.phase;
    if p.Sending? && p.k < UpTo(c, p) && p.path in s.files { SendNextInOrder(c, s); }
  }

  lemma StepInOrder(c: Config, s: State, a: Action, after: State)
    requires Sound(s) && AtWork(c, s) && FilesKept(s) && InOrder(s) && after == Step(c, s, a)
    ensures InOrder(after)
  {
    if !a.Send? && !a.SendFails? && !a.Close? {
      StepQuiet(c, s, a, after);
      QuietInOrder(s, after);
    } else if a.Send? {
      SendInOrder(c, s, after);
    } else if a.SendFails? {
      SendFailsInOrder(c, s, after);
    } else {
      CloseInOrder(c, s, after);
    }
  }

  // ---- Nothing disappears ----

  /** A file that is removed had nothing left. */
  lemma RemovedIsEmpty(s: State, path: Name, k: nat)
    requires Sound(s) && path in s.files && FileKept(s, path) && k <= |EntriesOf(s.files, path)|
    ensures var t := TakeOff(s, path, k).tracks[s.ids[path]];
      path in TakeOff(s, path, k).ids || t.gone == |t.written|
  {}

  lemma TakeOffRestHeld(s: State, path: Name, k: nat, after: State)
    requires Sound(s) && FilesKept(s) && RestHeld(s) && k <= |EntriesOf(s.files, path)|
    requires after.ids == TakeOff(s, path, k).ids && after.tracks == TakeOff(s, path, k).tracks
    ensures RestHeld(after)
  {
    if path in s.files {
      assert FileKept(s, path);
      RemovedIsEmpty(s, path, k);
    }
    forall id | 0 <= id < |after.tracks| && after.tracks[id].gone < |after.tracks[id].written| ensures Held(after, id) {
      assert Held(s, id);
      var n :| n in s.ids && s.ids[n] == id;
      assert n in after.ids;
    }
  }

  lemma SendFailsRestHeld(c: Config, s: State, after: State)
    requires Sound(s) && AtWork(c, s) && FilesKept(s) && RestHeld(s) && after == Step(c, s, SendFails)
    ensures RestHeld(after)
  {
    var p := s.phase;
    if p.Sending? && p.k < UpTo(c, p) { TakeOffRestHeld(s, p.path, p.k, after); }
  }

  lemma CloseRestHeld(c: Config, s: State, after: State)
    requires Sound(s) && AtWork(c, s) && FilesKept(s) && RestHeld(s) && after == Step(c, s, Close)
    ensures RestHeld(after)
  {
    var p := s.phase;
    if p.Sending? && p.k == UpTo(c, p) { TakeOffRestHeld(s, p.path, p.k, after); }
  }

  lemma RenameRestHeld(c: Config, s: State, after: State)
    requires Sound(s) && AtWork(c, s) && FilesKept(s) && RestHeld(s) && after == Step(c, s, Rename)
    ensures RestHeld(after)
  {
    if s.phase.Reserved? {
      var claim := Claim(s.phase.tag);
      assert FileKept(s, claim);
      forall id | 0 <= id < |after.tracks| && after.tracks[id].gone < |after.tracks[id].written| ensures Held(after, id) {
        assert Held(s, id);
        var n :| n in s.ids && s.ids[n] == id;
        assert after.ids[if n == Live then claim else n] == id;
      }
    }
  }

  lemma ReserveRestHeld(c: Config, s: State, tag: nat, after: State)
    requires Sound(s) && RestHeld(s) && after == Step(c, s, Reserve(tag))
    ensures RestHeld(after)
  {
    forall id | 0 <= id < |after.tracks| && after.tracks[id].gone < |after.tracks[id].written| ensures Held(after, id) {
      assert Held(s, id);
      var n :| n in s.ids && s.ids[n] == id;
      assert after.ids[n] == id;
    }
  }

  lemma UnreserveRestHeld(c: Config, s: State, after: State)
    requires Sound(s) && AtWork(c, s) && FilesKept(s) && RestHeld(s) && after == Step(c, s, Unreserve)
    ensures RestHeld(after)
  {
    if s.phase.Reserved? {
      assert FileKept(s, Claim(s.phase.tag));
      forall id | 0 <= id < |after.tracks| && after.tracks[id].gone < |after.tracks[id].written| ensures Held(after, id) {
        assert Held(s, id);
        var n :| n in s.ids && s.ids[n] == id;
        assert after.ids[n] == id;
      }
    }
  }

  lemma WriteRestHeld(s: State, l: Line, after: State)
    requires Sound(s) && RestHeld(s) && after.ids == Write(s, l).ids && after.tracks == Write(s, l).tracks
    ensures RestHeld(after)
  {
    forall id | 0 <= id < |after.tracks| && after.tracks[id].gone < |after.tracks[id].written| ensures Held(after, id) {
      if after.ids[Live] != id {
        assert Held(s, id);
        var n :| n in s.ids && s.ids[n] == id;
        assert after.ids[n] == id;
      }
    }
  }

  lemma StepRestHeld(c: Config, s: State, a: Action, after: State)
    requires Sound(s) && AtWork(c, s) && FilesKept(s) && RestHeld(s) && after == Step(c, s, a)
    ensures RestHeld(after)
  {
    if a.Append? { WriteRestHeld(s, Record(a.e), after); }
    else if a.Tear? { WriteRestHeld(s, Unreadable(a.size, true), after); }
    else if a.Rename? { RenameRestHeld(c, s, after); }
    else if a.Reserve? { ReserveRestHeld(c, s, a.tag, after); }
    else if a.Unreserve? { UnreserveRestHeld(c, s, after); }
    else if a.SendFails? { SendFailsRestHeld(c, s, after); }
    else if a.Close? { CloseRestHeld(c, s, after); }
    else { SameNames(s, after); }
  }

  lemma SameNames(s: State, after: State)
    requires RestHeld(s) && after.ids == s.ids && after.tracks == s.tracks
    ensures RestHeld(after)
  {
    forall id | 0 <= id < |after.tracks| && after.tracks[id].gone < |after.tracks[id].written| ensures Held(after, id) {
      assert Held(s, id);
      var n :| n in s.ids && s.ids[n] == id;
      assert after.ids[n] == id;
    }
  }

  ghost predicate WrittenOffered(s: State) {
    forall id, at | 0 <= id < |s.tracks| && 0 <= at < |s.tracks[id].written| :: s.tracks[id].written[at] in s.offered
  }

  lemma WriteWrites(s: State, l: Line, after: State)
    requires Sound(s) && WrittenOffered(s) && after.tracks == Write(s, l).tracks
    requires s.offered <= after.offered && forall e | e in NewIn(s, l) :: e in after.offered
    ensures WrittenOffered(after)
  {
    forall id, at | 0 <= id < |after.tracks| && 0 <= at < |after.tracks[id].written|
      ensures after.tracks[id].written[at] in after.offered
    {
      if id < |s.tracks| && at < |s.tracks[id].written| {
        assert s.tracks[id].written[at] in s.offered;
      } else {
        assert after.tracks[id].written[at] in NewIn(s, l);
      }
    }
  }

  lemma StepWrites(c: Config, s: State, a: Action, after: State)
    requires Sound(s) && WrittenOffered(s) && after == Step(c, s, a)
    ensures WrittenOffered(after)
  {
    if a.Append? {
      WhatIsGained(LinesOf(s.files, Live), Record(a.e));
      WriteWrites(s, Record(a.e), after);
    } else if a.Tear? {
      WhatIsGained(LinesOf(s.files, Live), Unreadable(a.size, true));
      WriteWrites(s, Unreadable(a.size, true), after);
    }
  }

  lemma {:induction false} RunInOrder(c: Config, actions: seq<Action>)
    ensures var s := Run(c, actions); InOrder(s) && RestHeld(s) && WrittenOffered(s)
  {
    if actions != [] {
      var before, a := actions[..|actions| - 1], actions[|actions| - 1];
      var s := Run(c, before);
      RunInOrder(c, before);
      RunKeepsFiles(c, before);
      StepInOrder(c, s, a, Run(c, actions));
      StepRestHeld(c, s, a, Run(c, actions));
      StepWrites(c, s, a, Run(c, actions));
    }
  }

  /** The sink only ever holds records that were offered, each at its place in its file and after the record
      before it there: across any number of drains, failures and stops, no record is skipped. */
  lemma SinkInFileOrder(c: Config, actions: seq<Action>)
    ensures var s := Run(c, actions);
      && NoGap(s.sink)
      && forall i | 0 <= i < |s.sink| :: Genuine(s.tracks, s.sink[i]) && s.sink[i].entry in s.offered
  {
    RunInOrder(c, actions);
  }

  ghost predicate OnDiskAt(s: State, id: nat, at: nat)
    requires Sound(s)
  {
    exists n | n in s.files :: HeldAt(s, n, id, at)
  }

  ghost predicate HeldAt(s: State, n: Name, id: nat, at: nat)
    requires Sound(s) && n in s.files
  {
    && s.ids[n] == id && TrackOf(s, n).gone <= at < |TrackOf(s, n).written|
    && var rest := Readable(s.files[n]);
       at - TrackOf(s, n).gone < |rest| && rest[at - TrackOf(s, n).gone] == TrackOf(s, n).written[at]
  }

  /** Every record written to any file has reached the sink or is still in that file, whatever name
      the file now has. */
  lemma EveryRecordIsAccountedFor(c: Config, actions: seq<Action>, id: nat, at: nat)
    requires var s := Run(c, actions); id < |s.tracks| && at < |s.tracks[id].written|
    ensures var s := Run(c, actions); Delivered(s.sink, id, at) || OnDiskAt(s, id, at)
  {
    var s := Run(c, actions);
    RunInOrder(c, actions);
    RunKeepsFiles(c, actions);
    RecordAt(s, id, at);
  }

  lemma RecordAt(s: State, id: nat, at: nat)
    requires Sound(s) && FilesKept(s) && GoneDelivered(s) && RestHeld(s)
    requires id < |s.tracks| && at < |s.tracks[id].written|
    ensures Delivered(s.sink, id, at) || OnDiskAt(s, id, at)
  {
    if at < s.tracks[id].gone {
      assert DeliveredUpTo(s.sink, id, s.tracks[id].gone);
    } else {
      assert Held(s, id);
      var n :| n in s.ids && s.ids[n] == id;
      assert FileKept(s, n) && HeldAt(s, n, id, at);
    }
  }

  // ---- The budget ----

  ghost predicate WithinBudget(c: Config, s: State) {
    && s.mark <= |s.sink| <= s.mark + c.budget
    && match s.phase
       case Idle => true
       case Between(_, sent) => |s.sink| == s.mark + sent
       case Sending(_, entries, k, _, sent) => |s.sink| == s.mark + sent + k && k <= |entries| && sent <= c.budget
       case _ => |s.sink| == s.mark
  }

  lemma StepWithinBudget(c: Config, s: State, a: Action)
    requires Sound(s) && WithinBudget(c, s)
    ensures WithinBudget(c, Step(c, s, a))
  {}

  lemma {:induction false} RunWithinBudget(c: Config, actions: seq<Action>)
    ensures WithinBudget(c, Run(c, actions))
  {
    if actions != [] {
      var before := actions[..|actions| - 1];
      RunWithinBudget(c, before);
      StepWithinBudget(c, Run(c, before), actions[|actions| - 1]);
    }
  }

  lemma MarkMoves(c: Config, s: State, a: Action)
    requires Sound(s)
    ensures Step(c, s, a).mark == if a.Start? && Step(c, s, a) != s then |s.sink| else s.mark
  {}

  /** From any moment until the next drain starts, at most one budget of records reaches the sink. */
  lemma {:induction false} DrainSendsWithinBudget(c: Config, actions: seq<Action>, from: nat)
    requires from <= |actions| && forall i | from <= i < |actions| :: !actions[i].Start?
    ensures |Run(c, actions).sink| <= |Run(c, actions[..from]).sink| + c.budget
  {
    RunWithinBudget(c, actions);
    RunWithinBudget(c, actions[..from]);
    SameMark(c, actions, from);
  }

  lemma {:induction false} SameMark(c: Config, actions: seq<Action>, from: nat)
    requires from <= |actions| && forall i | from <= i < |actions| :: !actions[i].Start?
    ensures Run(c, actions).mark == Run(c, actions[..from]).mark
  {
    if |actions| == from {
      assert actions[..from] == actions;
    } else {
      var before := actions[..|actions| - 1];
      assert before[..from] == actions[..from];
      SameMark(c, before, from);
      MarkMoves(c, Run(c, before), actions[|actions| - 1]);
    }
  }
}
