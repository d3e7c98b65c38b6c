/** The drainer's steps, with nothing appended and nothing failing in between, do what DrainAll says. */
module SpoolUndisturbed {
  import opened SpoolFiles
  import opened SpoolDrain
  import opened SpoolRuns

  function Left(c: Config, sent: nat): nat {
    if sent <= c.budget then c.budget - sent else 0
  }

  ghost predicate Draining(c: Config, s: State)
    requires Sound(s)
  {
    AtWork(c, s) && (s.phase.Between? || s.phase.Sending?)
  }

  /** The files, the queue and the budget of a drain once it is through with the file being sent. */
  ghost predicate Upcoming(c: Config, files: Files, p: Phase, next: Files, queue: seq<Name>, left: nat)
    requires p.Between? || (p.Sending? && UpTo(c, p) <= |EntriesOf(files, p.path)|)
  {
    && queue == p.queue
    && if p.Between? then next == files && left == Left(c, p.sent)
       else next == AfterSending(files, p.path, UpTo(c, p)) && left == Left(c, p.sent) - UpTo(c, p)
  }

  /** What becomes of the files after the one being sent. */
  ghost predicate RestIs(c: Config, files: Files, p: Phase, rest: Outcome)
    requires p.Between? || (p.Sending? && UpTo(c, p) <= |EntriesOf(files, p.path)|)
  {
    forall next, queue, left: nat | Upcoming(c, files, p, next, queue, left) :: rest == DrainAll(next, queue, left)
  }

  /** What is still to send of the file being sent. */
  function OfThisFile(c: Config, p: Phase): seq<Entry> {
    if p.Sending? && p.k <= UpTo(c, p) then p.entries[p.k..UpTo(c, p)] else []
  }

  predicate SumsTo(sink: seq<Entry>, now: seq<Entry>, later: seq<Entry>, all: seq<Entry>) {
    sink + (now + later) == all
  }

  /** The sink and the directory when the drain is through. */
  ghost predicate HeadsFor(c: Config, s: State, rest: Outcome, files: Files, sent: seq<Entry>)
    requires Sound(s)
  {
    && Draining(c, s) && RestIs(c, s.files, s.phase, rest) && rest.files == files
    && SumsTo(Sent(s.sink), OfThisFile(c, s.phase), rest.sent, sent)
  }

  lemma Takes(sink: seq<Entry>, entries: seq<Entry>, k: nat, m: nat, n: nat, later: seq<Entry>, all: seq<Entry>)
    requires k + m <= n <= |entries| && SumsTo(sink, entries[k..n], later, all)
    ensures SumsTo(sink + entries[k..k + m], entries[k + m..n], later, all)
  {
    assert entries[k..n] == entries[k..k + m] + entries[k + m..n];
  }

  lemma NextFile(sink: seq<Entry>, now: seq<Entry>, later: seq<Entry>, all: seq<Entry>)
    requires SumsTo(sink, [], now + later, all)
    ensures SumsTo(sink, now, later, all)
  {
    assert [] + (now + later) == now + later;
  }

  // ---- Loading ----

  lemma DrainUnfolds(files: Files, queue: seq<Name>, left: nat, n: nat)
    requires queue != [] && left > 0 && n == Min(left, |EntriesOf(files, queue[0])|)
    ensures var all, later := DrainAll(files, queue, left), DrainAll(AfterSending(files, queue[0], n), queue[1..], left - n);
      all.files == later.files && all.sent == EntriesOf(files, queue[0])[..n] + later.sent
  {}

  lemma RestFromHere(c: Config, files: Files, p: Phase, rest: Outcome)
    requires p.Between? && RestIs(c, files, p, rest)
    ensures rest == DrainAll(files, p.queue, Left(c, p.sent))
  {
    assert Upcoming(c, files, p, files, p.queue, Left(c, p.sent));
  }

  lemma RestBehind(c: Config, files: Files, p: Phase) returns (later: Outcome)
    requires p.Sending? && UpTo(c, p) <= |EntriesOf(files, p.path)|
    ensures UpTo(c, p) <= Left(c, p.sent)
    ensures later == DrainAll(AfterSending(files, p.path, UpTo(c, p)), p.queue, Left(c, p.sent) - UpTo(c, p))
    ensures RestIs(c, files, p, later)
  {
    later := DrainAll(AfterSending(files, p.path, UpTo(c, p)), p.queue, Left(c, p.sent) - UpTo(c, p));
  }

  lemma AllOfThisFile(c: Config, p: Phase)
    requires p.Sending? && p.k == 0
    ensures OfThisFile(c, p) == p.entries[..UpTo(c, p)]
    ensures p.sent < c.budget ==> UpTo(c, p) == Min(Left(c, p.sent), |p.entries|)
  {}

  lemma LoadedRest(c: Config, files: Files, p: Phase, rest: Outcome, next: Phase) returns (later: Outcome)
    requires p.Between? && p.queue != [] && p.sent < c.budget && RestIs(c, files, p, rest)
    requires next == Sending(p.queue[0], EntriesOf(files, p.queue[0]), 0, p.queue[1..], p.sent)
    ensures RestIs(c, files, next, later) && later.files == rest.files && OfThisFile(c, next) + later.sent == rest.sent
  {
    RestFromHere(c, files, p, rest);
    AllOfThisFile(c, next);
    DrainUnfolds(files, p.queue, Left(c, p.sent), UpTo(c, next));
    later := RestBehind(c, files, next);
  }

  lemma LoadOnCourse(c: Config, s: State, rest: Outcome, files: Files, sent: seq<Entry>, after: State)
    returns (later: Outcome)
    requires Sound(s) && HeadsFor(c, s, rest, files, sent) && after == Step(c, s, Load)
    ensures HeadsFor(c, after, later, files, sent)
  {
    var p := s.phase;
    later := rest;
    if p.Between? && p.queue != [] && p.sent < c.budget {
      later := LoadedRest(c, s.files, p, rest, after.phase);
      NextFile(Sent(s.sink), OfThisFile(c, after.phase), later.sent, sent);
    }
  }

  // ---- Sending ----

  lemma SentDeliveries(sink: seq<Delivery>, id: nat, from: nat, chunk: seq<Entry>)
    ensures Sent(sink + Deliveries(id, from, chunk)) == Sent(sink) + chunk
  {}

  lemma ChunkTaken(c: Config, p: Phase, m: nat, sink: seq<Entry>, later: seq<Entry>, all: seq<Entry>)
    requires p.Sending? && p.k + m <= UpTo(c, p) && SumsTo(sink, OfThisFile(c, p), later, all)
    ensures SumsTo(sink + p.entries[p.k..p.k + m], OfThisFile(c, p.(k := p.k + m)), later, all)
  {
    Takes(sink, p.entries, p.k, m, UpTo(c, p), later, all);
  }

  lemma SameRest(c: Config, files: Files, p: Phase, rest: Outcome, m: nat)
    requires p.Sending? && p.k + m <= UpTo(c, p) <= |EntriesOf(files, p.path)| && RestIs(c, files, p, rest)
    ensures UpTo(c, p.(k := p.k + m)) == UpTo(c, p) && RestIs(c, files, p.(k := p.k + m), rest)
  {
    forall next, queue, left: nat | Upcoming(c, files, p.(k := p.k + m), next, queue, left)
      ensures rest == DrainAll(next, queue, left)
    {
      assert Upcoming(c, files, p, next, queue, left);
    }
  }

  lemma MoreSent(c: Config, s: State, m: nat, rest: Outcome, files: Files, sent: seq<Entry>, after: State)
    requires Sound(s) && Sound(after) && HeadsFor(c, s, rest, files, sent) && Draining(c, after)
    requires s.phase.Sending? && s.phase.k + m <= UpTo(c, s.phase)
    requires after.phase == s.phase.(k := s.phase.k + m) && after.files == s.files
    requires Sent(after.sink) == Sent(s.sink) + s.phase.entries[s.phase.k..s.phase.k + m]
    ensures HeadsFor(c, after, rest, files, sent)
  {
    SameRest(c, s.files, s.phase, rest, m);
    ChunkTaken(c, s.phase, m, Sent(s.sink), rest.sent, sent);
  }

  lemma SendNextIs(c: Config, s: State, after: State)
    requires Sound(s) && Draining(c, s) && s.phase.Sending? && s.phase.k < UpTo(c, s.phase) && s.phase.path in s.files
    requires after == SendNext(c, s)
    ensures Draining(c, after) && after.files == s.files
    ensures var p := s.phase; var m := ChunkSize(c, p);
      && after.phase == p.(k := p.k + m)
      && Sent(after.sink) == Sent(s.sink) + p.entries[p.k..p.k + m]
  {
    var p := s.phase;
    SentDeliveries(s.sink, s.ids[p.path], TrackOf(s, p.path).gone + p.k, p.entries[p.k..p.k + ChunkSize(c, p)]);
  }

  lemma SendNextOnCourse(c: Config, s: State, rest: Outcome, files: Files, sent: seq<Entry>, after: State)
    requires Sound(s) && HeadsFor(c, s, rest, files, sent)
    requires s.phase.Sending? && s.phase.k < UpTo(c, s.phase) && s.phase.path in s.files && after == SendNext(c, s)
    ensures HeadsFor(c, after, rest, files, sent)
  {
    SendNextIs(c, s, after);
    MoreSent(c, s, ChunkSize(c, s.phase), rest, files, sent, after);
  }

  lemma SendOnCourse(c: Config, s: State, rest: Outcome, files: Files, sent: seq<Entry>, after: State)
    requires Sound(s) && HeadsFor(c, s, rest, files, sent) && after == Step(c, s, Send)
    ensures HeadsFor(c, after, rest, files, sent)
  {
    var p := s.phase;
    if p.Sending? && p.k < UpTo(c, p) && p.path in s.files { SendNextOnCourse(c, s, rest, files, sent, after); }
  }

  // ---- Closing ----

  lemma ClosedRest(c: Config, files: Files, p: Phase, rest: Outcome, after: Files)
    requires p.Sending? && p.k == UpTo(c, p) <= |EntriesOf(files, p.path)| && RestIs(c, files, p, rest)
    requires after == AfterSending(files, p.path, p.k)
    ensures RestIs(c, after, Between(p.queue, p.sent + p.k), rest) && OfThisFile(c, p) == []
  {
    forall next, queue, left: nat | Upcoming(c, after, Between(p.queue, p.sent + p.k), next, queue, left)
      ensures rest == DrainAll(next, queue, left)
    {
      assert Upcoming(c, files, p, next, queue, left);
    }
  }

  lemma TakeOffFiles(s: State, path: Name, k: nat)
    requires Sound(s) && k <= |EntriesOf(s.files, path)|
    ensures TakeOff(s, path, k).files == AfterSending(s.files, path, k) && TakeOff(s, path, k).sink == s.sink
  {
    if path !in s.files { assert s.files - {path} == s.files; }
  }

  lemma CloseOnCourse(c: Config, s: State, rest: Outcome, files: Files, sent: seq<Entry>, after: State)
    requires Sound(s) && HeadsFor(c, s, rest, files, sent) && after == Step(c, s, Close)
    ensures HeadsFor(c, after, rest, files, sent)
  {
    var p := s.phase;
    if p.Sending? && p.k == UpTo(c, p) {
      TakeOffFiles(s, p.path, p.k);
      ClosedRest(c, s.files, p, rest, after.files);
    }
  }

  /** Loading, sending and closing, the drainer heads for one outcome. */
  lemma {:induction false} OnCourse(c: Config, before: seq<Action>, more: seq<Action>, rest: Outcome,
      files: Files, sent: seq<Entry>) returns (later: Outcome)
    requires HeadsFor(c, Run(c, before), rest, files, sent)
    requires forall i | 0 <= i < |more| :: more[i].Load? || more[i].Send? || more[i].Close?
    ensures HeadsFor(c, Run(c, before + more), later, files, sent)
  {
    later := rest;
    if more == [] {
      assert before + more == before;
    } else {
      var fewer, a := more[..|more| - 1], more[|more| - 1];
      var s := Run(c, before + fewer);
      later := OnCourse(c, before, fewer, rest, files, sent);
      assert (before + more)[..|before + more| - 1] == before + fewer;
      var after := Run(c, before + more);
      if a.Load? { later := LoadOnCourse(c, s, later, files, sent, after); }
      else if a.Send? { SendOnCourse(c, s, later, files, sent, after); }
      else { CloseOnCourse(c, s, later, files, sent, after); }
    }
  }

  // ---- From start to finish ----

  /** The steps that list the claims and set the live file, if there is one, aside. */
  function Beginning(files: Files, batches: seq<Name>, tag: nat): seq<Action> {
    if Live in files then [Start(batches), Reserve(tag), Rename] else [Start(batches), NoLive]
  }

  function Queue(files: Files, batches: seq<Name>, tag: nat): seq<Name> {
    if Live in files then batches + [Claim(tag)] else batches
  }

  lemma Covering(files: Files, batches: seq<Name>, tag: nat)
    requires Lists(files, batches) && Claim(tag) !in files
    ensures Covers(ClaimLive(files, tag), Queue(files, batches, tag))
  {
    var queue := Queue(files, batches, tag);
    forall n | n in ClaimLive(files, tag) ensures n in queue {
      if n != Claim(tag) {
        assert n in batches && n in files;
        var i :| 0 <= i < |batches| && batches[i] == n;
        assert queue[i] == n;
      } else {
        assert queue[|queue| - 1] == n;
      }
    }
  }

  lemma NoLiveBegins(c: Config, before: seq<Action>, batches: seq<Name>)
    requires var s := Run(c, before); s.phase.Idle? && Lists(s.files, batches) && Live !in s.files
    ensures var r := Run(c, before + [Start(batches), NoLive]);
      r.phase == Between(batches, 0) && r.files == Run(c, before).files && r.sink == Run(c, before).sink
  {
    Then(c, before, Start(batches));
    Then(c, before + [Start(batches)], NoLive);
    assert before + [Start(batches)] + [NoLive] == before + [Start(batches), NoLive];
  }

  lemma LiveReserved(c: Config, before: seq<Action>, batches: seq<Name>, tag: nat)
    requires var s := Run(c, before);
      s.phase.Idle? && Lists(s.files, batches) && Live in s.files && Claim(tag) !in s.files
    ensures var r := Run(c, before + [Start(batches)] + [Reserve(tag)]);
      && r.phase == Reserved(batches, tag) && r.files == Run(c, before).files[Claim(tag) := []]
      && r.sink == Run(c, before).sink
  {
    Then(c, before, Start(batches));
    Then(c, before + [Start(batches)], Reserve(tag));
  }

  lemma LiveBegins(c: Config, before: seq<Action>, batches: seq<Name>, tag: nat)
    requires var s := Run(c, before);
      s.phase.Idle? && Lists(s.files, batches) && Live in s.files && Claim(tag) !in s.files
    ensures var r := Run(c, before + [Start(batches), Reserve(tag), Rename]);
      && r.phase == Between(batches + [Claim(tag)], 0) && r.files == ClaimLive(Run(c, before).files, tag)
      && r.sink == Run(c, before).sink
  {
    var files, reserved := Run(c, before).files, before + [Start(batches)] + [Reserve(tag)];
    LiveReserved(c, before, batches, tag);
    Then(c, reserved, Rename);
    assert reserved + [Rename] == before + [Start(batches), Reserve(tag), Rename];
    RenamedOver(files, tag);
  }

  /** Over its placeholder a rename leaves what a rename to a free name does. */
  lemma RenamedOver(files: Files, tag: nat)
    requires Live in files && Claim(tag) !in files
    ensures (files[Claim(tag) := []] - {Live})[Claim(tag) := files[Live]] == ClaimLive(files, tag)
  {}

  lemma Begins(c: Config, before: seq<Action>, batches: seq<Name>, tag: nat)
    requires var s := Run(c, before); s.phase.Idle? && Lists(s.files, batches) && Claim(tag) !in s.files
    ensures var s := Run(c, before); var r := Run(c, before + Beginning(s.files, batches, tag));
      && r.phase == Between(Queue(s.files, batches, tag), 0)
      && r.files == ClaimLive(s.files, tag) && r.sink == s.sink
  {
    if Live in Run(c, before).files {
      LiveBegins(c, before, batches, tag);
    } else {
      NoLiveBegins(c, before, batches);
    }
  }

  lemma Finished(c: Config, s: State, rest: Outcome, files: Files, sent: seq<Entry>)
    requires Sound(s) && HeadsFor(c, s, rest, files, sent) && Step(c, s, Finish).phase.Idle?
    ensures Step(c, s, Finish).files == files && Sent(Step(c, s, Finish).sink) == sent
  {
    assert s.phase.Between? && Upcoming(c, s.files, s.phase, s.files, s.phase.queue, Left(c, s.phase.sent));
    assert rest == Outcome(s.files, [], 0);
  }

  lemma AtTheStart(c: Config, s: State, queue: seq<Name>, done: Outcome)
    requires Sound(s) && AtWork(c, s) && s.phase == Between(queue, 0) && done == DrainAll(s.files, queue, c.budget)
    ensures HeadsFor(c, s, done, done.files, Sent(s.sink) + done.sent)
  {
    assert [] + done.sent == done.sent;
  }

  lemma Through(c: Config, begun: seq<Action>, more: seq<Action>, queue: seq<Name>, done: Outcome)
    requires var s := Run(c, begun); s.phase == Between(queue, 0) && done == DrainAll(s.files, queue, c.budget)
    requires forall i | 0 <= i < |more| :: more[i].Load? || more[i].Send? || more[i].Close?
    requires Run(c, begun + more + [Finish]).phase.Idle?
    ensures var after := Run(c, begun + more + [Finish]);
      after.files == done.files && Sent(after.sink) == Sent(Run(c, begun).sink) + done.sent
  {
    var s := Run(c, begun);
    RunKeepsFiles(c, begun);
    AtTheStart(c, s, queue, done);
    var later := OnCourse(c, begun, more, done, done.files, Sent(s.sink) + done.sent);
    Then(c, begun + more, Finish);
    Finished(c, Run(c, begun + more), later, done.files, Sent(s.sink) + done.sent);
  }

  /** A drain from start to finish that nothing comes between, however its sends are cut up, is one
      undisturbed drain of the directory: it sends the first budget of records and leaves the rest. */
  lemma UndisturbedDrain(c: Config, before: seq<Action>, batches: seq<Name>, tag: nat, more: seq<Action>)
    requires var s := Run(c, before); s.phase.Idle? && Lists(s.files, batches) && Claim(tag) !in s.files
    requires forall i | 0 <= i < |more| :: more[i].Load? || more[i].Send? || more[i].Close?
    requires Run(c, before + Beginning(Run(c, before).files, batches, tag) + more + [Finish]).phase.Idle?
    ensures var s, queue := Run(c, before), Queue(Run(c, before).files, batches, tag);
      var after := Run(c, before + Beginning(s.files, batches, tag) + more + [Finish]);
      && DrainsVia(s.files, after.files, c.budget, tag, queue)
      && Sent(after.sink) == Sent(s.sink) + Reached(AllEntries(ClaimLive(s.files, tag), queue), c.budget)
  {
    var s := Run(c, before);
    var begun, queue := before + Beginning(s.files, batches, tag), Queue(s.files, batches, tag);
    Begins(c, before, batches, tag);
    Covering(s.files, batches, tag);
    DrainSendsPrefix(ClaimLive(s.files, tag), queue, c.budget);
    Through(c, begun, more, queue, DrainAll(ClaimLive(s.files, tag), queue, c.budget));
  }
}
