/** Which repo version the cluster shows over time: what holds under full interleaving, what holds when
    a projection's two reads are one, and a run that tells the two apart. */
module DnsOrder {
  import opened Basics
  import opened DnsText
  import opened DnsZones
  import opened DnsRuns

  /** A writer that reports success has put a version holding its edit, at or after its own commit, on
      the cluster; and at that moment the cluster serves that version. */
  lemma SuccessShows(c: Config, s: State, actions: seq<Action>, w: nat)
    requires Fresh(c, s) && w < |c.edits|
    ensures var r := Run(c, s, actions);
      |r.writers| == |c.edits| && (r.writers[w].Succeeded? ==>
        HoldsEdit(c, r, w, r.writers[w].own) && r.writers[w].own <= r.writers[w].patched < |r.repo|)
    ensures var r := Run(c, s, actions);
      actions != [] && actions[|actions| - 1] == Patch(w, true) && r.writers[w].Succeeded?
        && !Run(c, s, actions[..|actions| - 1]).writers[w].Succeeded?
      ==> r.live.shown == r.writers[w].patched && Serves(r)
  {
    var r := Run(c, s, actions);
    RunLosesNoUpdate(c, s, actions);
    RunServes(c, s, actions);
    assert Sound(r, w) && Earned(c, r, w);
  }

  /** A patch about to land with a version older than the one already shown when its resourceVersion was
      read. */
  ghost predicate Stale(s: State, a: Action) {
    && a.Patch? && Exists(s, a.w) && s.writers[a.w].HasBoth?
    && s.writers[a.w].rv == s.live.rv && s.writers[a.w].seen < s.writers[a.w].over
  }

  /** Of all that can happen, a stale patch and nothing else takes the cluster back. */
  lemma StepGoesBackIff(c: Config, s: State, a: Action)
    requires Valid(c, s)
    ensures Step(c, s, a).live.shown < s.live.shown <==> Stale(s, a)
  {
    if a.Patch? && Exists(s, a.w) { assert Sound(s, a.w); }
  }

  ghost predicate NoStalePatch(c: Config, s: State, actions: seq<Action>)
    requires Fresh(c, s)
    decreases |actions|
  {
    if actions == [] then true
    else
      var before := actions[..|actions| - 1];
      NoStalePatch(c, s, before) && !Stale(Run(c, s, before), actions[|actions| - 1])
  }

  /** The version the cluster showed at the start and after every step. */
  ghost function History(c: Config, s: State, actions: seq<Action>): seq<nat>
    requires Fresh(c, s)
    decreases |actions|
  {
    if actions == [] then [s.live.shown]
    else History(c, s, actions[..|actions| - 1]) + [Run(c, s, actions).live.shown]
  }

  lemma HistoryEnds(c: Config, s: State, actions: seq<Action>)
    requires Fresh(c, s)
    ensures var h := History(c, s, actions); h != [] && h[|h| - 1] == Run(c, s, actions).live.shown
  {}

  predicate Ascending(h: seq<nat>) {
    forall i, j | 0 <= i <= j < |h| :: h[i] <= h[j]
  }

  lemma OneMore(h: seq<nat>, next: nat)
    requires h != []
    ensures Ascending(h + [next]) <==> Ascending(h) && h[|h| - 1] <= next
  {
    var after := h + [next];
    if Ascending(after) {
      assert after[|h| - 1] <= after[|h|];
      forall i, j | 0 <= i <= j < |h| ensures h[i] <= h[j] {
        assert after[i] <= after[j];
      }
    }
  }

  ghost predicate NeverGoesBack(c: Config, s: State, actions: seq<Action>)
    requires Fresh(c, s)
  {
    Ascending(History(c, s, actions))
  }

  /** In every run the version the cluster shows never goes back if and only if no stale patch lands. */
  lemma {:induction false} NeverGoesBackIff(c: Config, s: State, actions: seq<Action>)
    requires Fresh(c, s)
    ensures NeverGoesBack(c, s, actions) <==> NoStalePatch(c, s, actions)
    decreases |actions|
  {
    if actions != [] {
      var before := actions[..|actions| - 1];
      NeverGoesBackIff(c, s, before);
      StepGoesBackIff(c, Run(c, s, before), actions[|actions| - 1]);
      HistoryEnds(c, s, before);
      OneMore(History(c, s, before), Run(c, s, actions).live.shown);
    }
  }

  /** No projection leaves the cluster answering nothing, unless the version its own writer ended with answered
      nothing. */
  lemma ProjectionNeverEmpties(c: Config, s: State, w: nat, heard: bool)
    requires Valid(c, s) && w < |s.writers| && s.writers[w].HasBoth? && Step(c, s, Patch(w, heard)).live != s.live
    ensures Answering(s.repo[s.writers[w].own].data) ==> Answering(Step(c, s, Patch(w, heard)).live.data)
  {
    assert Sound(s, w);
    var seen, after := s.repo[s.writers[w].seen].data, Step(c, s, Patch(w, heard)).live.data;
    HasRecordsIff(s.repo[s.writers[w].own].data);
    HasRecordsIff(seen);
    if Answering(seen) {
      var k, host :| k in seen && Lookup(seen[k], host).Some?;
      assert k in after && after[k] == seen[k];
    }
  }

  // ---- Whose patch is carried ----

  ghost predicate ShowsAllPatched(s: State) {
    forall w | 0 <= w < |s.writers| :: s.writers[w].Succeeded? ==> s.writers[w].patched <= s.live.shown
  }

  lemma StepShowsAllPatched(c: Config, s: State, a: Action, r: State)
    requires Valid(c, s) && ShowsAllPatched(s) && r == Step(c, s, a) && s.live.shown <= r.live.shown
    ensures ShowsAllPatched(r)
  {
    if a.Patch? && Exists(s, a.w) { assert Sound(s, a.w); }
  }

  lemma {:induction false} ShowsAllPatchedUnlessStale(c: Config, s: State, actions: seq<Action>)
    requires Fresh(c, s) && NoStalePatch(c, s, actions)
    ensures ShowsAllPatched(Run(c, s, actions))
    decreases |actions|
  {
    if actions != [] {
      var before := actions[..|actions| - 1];
      ShowsAllPatchedUnlessStale(c, s, before);
      StepGoesBackIff(c, Run(c, s, before), actions[|actions| - 1]);
      StepShowsAllPatched(c, Run(c, s, before), actions[|actions| - 1], Run(c, s, actions));
    }
  }

  /** With writers landing commits back to back and no stale patch, once they have succeeded the cluster
      shows a version at or after every one of their commits: whichever patches last carries all of them. */
  lemma {:induction false} LastPatchCarriesAll(c: Config, s: State, actions: seq<Action>, w: nat)
    requires Fresh(c, s) && NoStalePatch(c, s, actions) && w < |c.edits|
    ensures var r := Run(c, s, actions);
      |r.writers| == |c.edits| && (r.writers[w].Succeeded? ==> r.writers[w].own <= r.live.shown && Serves(r))
  {
    ShowsAllPatchedUnlessStale(c, s, actions);
    RunServes(c, s, actions);
    assert Sound(Run(c, s, actions), w);
  }

  // ---- When the two reads are one step ----

  /** Nobody holds a version older than what the cluster showed when its resourceVersion was read. */
  ghost predicate UpToDate(s: State) {
    forall w | 0 <= w < |s.writers| :: ReadTogether(s.writers[w])
  }

  ghost predicate ReadTogether(p: Phase) {
    !p.HasRepo? && (p.HasBoth? ==> p.over <= p.seen)
  }

  lemma AtomicStep(c: Config, s: State, a: Action, r: State)
    requires c.atomic && Valid(c, s) && UpToDate(s) && r == Step(c, s, a)
    ensures UpToDate(r) && !Stale(s, a)
  {}

  /** Then no patch is stale, so the version the cluster shows never goes back. */
  lemma {:induction false} AtomicNeverStale(c: Config, s: State, actions: seq<Action>)
    requires Fresh(c, s) && c.atomic
    ensures UpToDate(Run(c, s, actions)) && NoStalePatch(c, s, actions)
    decreases |actions|
  {
    if actions != [] {
      var before := actions[..|actions| - 1];
      AtomicNeverStale(c, s, before);
      AtomicStep(c, Run(c, s, before), actions[|actions| - 1], Run(c, s, actions));
    }
  }

  lemma AtomicNeverGoesBack(c: Config, s: State, actions: seq<Action>)
    requires Fresh(c, s) && c.atomic
    ensures NeverGoesBack(c, s, actions)
  {
    AtomicNeverStale(c, s, actions);
    NeverGoesBackIff(c, s, actions);
  }

  // ---- Under full interleaving it need not ----

  const ZONE: string := "sre.hosts"

  /** An add, when the bindings serve every host from one zone file. */
  ghost function Filing(host: string, ip: string): Data -> Edit {
    (d: Data) => AddOutcome(d, if ZONE in d then Some(ZONE) else None, host, ip)
  }

  lemma Then(c: Config, s: State, actions: seq<Action>, a: Action, r: State, r': State)
    requires Fresh(c, s) && Run(c, s, actions) == r && Valid(c, r) && Step(c, r, a) == r'
    ensures Run(c, s, actions + [a]) == r' && Valid(c, r')
  {
    assert (actions + [a])[..|actions|] == actions;
  }

  const A := Record("1", ["a"])
  const B := Record("2", ["b"])
  const NEITHER: Data := map[ZONE := []]
  const ONLY_A: Data := map[ZONE := [A]]
  const BOTH: Data := map[ZONE := [A, B]]

  ghost function TwoAdds(): Config {
    Config([Filing("a", "1"), Filing("b", "2")], false)
  }

  function Before(live: Live, n: nat, first: Phase, second: Phase): State
    requires n <= 3
  {
    State([Hosts(NEITHER, true), Hosts(ONLY_A, true), Hosts(BOTH, true)][..n], [Hand, Writer(0), Writer(1)][..n], live,
          [first, second])
  }

  function Begin(): State {
    Before(Live(NEITHER, 0, 0), 1, Start(1), Start(1))
  }

  lemma NothingFiled(d: Data, host: string, ip: string)
    requires d.Keys == {ZONE} && Lookup(d[ZONE], host) == None && IsHostname(host) && SpaceFree(host)
    ensures Filing(host, ip)(d) == Edited(d[ZONE := d[ZONE] + [Record(ip, [host])]])
  {
    OnlyWordIff(host);
    forall k | k in d ensures !Conflicts(d, k, host, ip) && !Matches(d, k, host, ip) {
      assert k == ZONE;
    }
  }

  lemma FilingFiles()
    ensures Filing("a", "1")(NEITHER) == Edited(ONLY_A) && Filing("b", "2")(ONLY_A) == Edited(BOTH)
  {
    BothAnswer();
    PlainNames();
    NothingFiled(NEITHER, "a", "1");
    NothingFiled(ONLY_A, "b", "2");
    NextVersions();
  }

  lemma PlainNames()
    ensures IsHostname("a") && IsHostname("b") && SpaceFree("a") && SpaceFree("b")
  {}

  lemma NextVersions()
    ensures NEITHER[ZONE := NEITHER[ZONE] + [A]] == ONLY_A && ONLY_A[ZONE := ONLY_A[ZONE] + [B]] == BOTH
  {
    assert NEITHER[ZONE] + [A] == [A] && ONLY_A[ZONE] + [B] == [A, B];
  }

  lemma FiledAlready()
    ensures Filing("a", "1")(ONLY_A) == NoChange
  {
    BothAnswer();
    assert Matches(ONLY_A, ZONE, "a", "1");
  }

  /** The first writer commits and reads the repo to project it. */
  lemma FirstCommits(actions: seq<Action>)
    requires actions == [ReadFile(0), Update(0, true), ReadRepo(0)]
    ensures Fresh(TwoAdds(), Begin())
    ensures Run(TwoAdds(), Begin(), actions) == Before(Live(NEITHER, 0, 0), 2, HasRepo(1, 1, 1), Start(1))
  {
    var c, live := TwoAdds(), Live(NEITHER, 0, 0);
    var s := Begin();
    var r1, r2 := Before(live, 1, Editing(1, 0), Start(1)), Before(live, 2, Committed(1, 1), Start(1));
    FilingFiles();
    Then(c, s, [], ReadFile(0), s, r1);
    Then(c, s, [] + [ReadFile(0)], Update(0, true), r1, r2);
    Then(c, s, [] + [ReadFile(0)] + [Update(0, true)], ReadRepo(0), r2, Before(live, 2, HasRepo(1, 1, 1), Start(1)));
    assert actions == [] + [ReadFile(0)] + [Update(0, true)] + [ReadRepo(0)];
  }

  lemma SecondUpdates(actions: seq<Action>)
    requires Fresh(TwoAdds(), Begin())
    requires Run(TwoAdds(), Begin(), actions) == Before(Live(NEITHER, 0, 0), 2, HasRepo(1, 1, 1), Start(1))
    ensures Run(TwoAdds(), Begin(), actions + [ReadFile(1)] + [Update(1, true)])
         == Before(Live(NEITHER, 0, 0), 3, HasRepo(1, 1, 1), Committed(1, 2))
  {
    var c, live, w := TwoAdds(), Live(NEITHER, 0, 0), HasRepo(1, 1, 1);
    FilingFiles();
    var r3, r4 := Before(live, 2, w, Start(1)), Before(live, 2, w, Editing(1, 1));
    Then(c, Begin(), actions, ReadFile(1), r3, r4);
    Then(c, Begin(), actions + [ReadFile(1)], Update(1, true), r4, Before(live, 3, w, Committed(1, 2)));
  }

  /** The second writer commits in between, */
  lemma SecondCommits(actions: seq<Action>, more: seq<Action>)
    requires actions == [ReadFile(0), Update(0, true), ReadRepo(0)]
    requires more == [ReadFile(1), Update(1, true), ReadRepo(1)]
    ensures Run(TwoAdds(), Begin(), actions + more) == Before(Live(NEITHER, 0, 0), 3, HasRepo(1, 1, 1), HasRepo(1, 2, 2))
  {
    var live, w := Live(NEITHER, 0, 0), HasRepo(1, 1, 1);
    var updated := actions + [ReadFile(1)] + [Update(1, true)];
    FirstCommits(actions);
    SecondUpdates(actions);
    Then(TwoAdds(), Begin(), updated, ReadRepo(1), Before(live, 3, w, Committed(1, 2)), Before(live, 3, w, HasRepo(1, 2, 2)));
    assert actions + more == updated + [ReadRepo(1)];
  }

  /** and patches the cluster. */
  lemma SecondPatches(actions: seq<Action>)
    requires Fresh(TwoAdds(), Begin())
    requires Run(TwoAdds(), Begin(), actions) == Before(Live(NEITHER, 0, 0), 3, HasRepo(1, 1, 1), HasRepo(1, 2, 2))
    ensures Run(TwoAdds(), Begin(), actions + [ReadLive(1)] + [Patch(1, true)])
         == Before(Live(BOTH, 1, 2), 3, HasRepo(1, 1, 1), Succeeded(2, 2))
  {
    var c, live, w := TwoAdds(), Live(NEITHER, 0, 0), HasRepo(1, 1, 1);
    var r6, r7 := Before(live, 3, w, HasRepo(1, 2, 2)), Before(live, 3, w, HasBoth(1, 2, 2, 0, 0));
    assert NEITHER + BOTH == BOTH;
    BothAnswer();
    Then(c, Begin(), actions, ReadLive(1), r6, r7);
    Then(c, Begin(), actions + [ReadLive(1)], Patch(1, true), r7, Before(Live(BOTH, 1, 2), 3, w, Succeeded(2, 2)));
  }

  /** Then the first reads the cluster and patches it with what it had read of the repo before. */
  lemma FirstPatches(actions: seq<Action>)
    requires Fresh(TwoAdds(), Begin())
    requires Run(TwoAdds(), Begin(), actions) == Before(Live(BOTH, 1, 2), 3, HasRepo(1, 1, 1), Succeeded(2, 2))
    ensures Run(TwoAdds(), Begin(), actions + [ReadLive(0)] + [Patch(0, true)])
         == Before(Live(ONLY_A, 2, 1), 3, Succeeded(1, 1), Succeeded(2, 2))
  {
    var c, live, done := TwoAdds(), Live(BOTH, 1, 2), Succeeded(2, 2);
    var r8, r9 := Before(live, 3, HasRepo(1, 1, 1), done), Before(live, 3, HasBoth(1, 1, 1, 1, 2), done);
    assert BOTH + ONLY_A == ONLY_A;
    BothAnswer();
    Then(c, Begin(), actions, ReadLive(0), r8, r9);
    Then(c, Begin(), actions + [ReadLive(0)], Patch(0, true), r9, Before(Live(ONLY_A, 2, 1), 3, Succeeded(1, 1), done));
  }

  lemma BothAnswer()
    ensures Lookup(BOTH[ZONE], "a") == Some("1") && Lookup(BOTH[ZONE], "b") == Some("2")
    ensures Lookup(ONLY_A[ZONE], "a") == Some("1") && Lookup(ONLY_A[ZONE], "b") == None
    ensures HasRecords(BOTH) && HasRecords(ONLY_A)
  {
    assert [A, B][1..] == [B] && [A][1..] == [];
    assert BOTH[ZONE][0].Record? && ONLY_A[ZONE][0].Record?;
  }

  /** Two adds; the first reads the repo before the second commits, and the cluster after the second has
      patched it. Both succeed and both records are in the repo, but the cluster answers only for the
      first: without the two reads in one step, the last patch need not carry both records. */
  lemma SuccessfulAddRevertedWitness() returns (actions: seq<Action>)
    ensures Fresh(TwoAdds(), Begin())
    ensures var r := Run(TwoAdds(), Begin(), actions);
      && |r.writers| == 2 && r.writers[0].Succeeded? && r.writers[1].Succeeded?
      && r.repo[Head(r)] == Hosts(BOTH, true) && r.live.data == ONLY_A
    ensures Lookup(BOTH[ZONE], "b") == Some("2") && Lookup(ONLY_A[ZONE], "b") == None
  {
    var first := [ReadFile(0), Update(0, true), ReadRepo(0)];
    var second := [ReadFile(1), Update(1, true), ReadRepo(1)];
    FirstCommits(first);
    SecondCommits(first, second);
    SecondPatches(first + second);
    actions := first + second + [ReadLive(1)] + [Patch(1, true)];
    FirstPatches(actions);
    actions := actions + [ReadLive(0)] + [Patch(0, true)];
    BothAnswer();
  }

  // ---- A zone file dropped from the repo ----

  const OLD: string := "old.hosts"
  const OLD_B: Data := map[ZONE := [], OLD := [B]]
  const OLD_AND_A: Data := map[ZONE := [A], OLD := [B]]

  ghost function OneAdd(): Config {
    Config([Filing("a", "1")], false)
  }

  function Pushed(live: Live, n: nat, p: Phase): State
    requires n <= 2
  {
    State([Hosts(OLD_B, true), Hosts(ONLY_A, true)][..n], [Hand, Hand][..n], live, [p])
  }

  /** A push drops the zone file, and a writer whose record is already filed finds nothing to commit */
  lemma PushedAndRead(actions: seq<Action>)
    requires actions == [Push(Hosts(ONLY_A, true)), ReadFile(0), Update(0, true)]
    ensures Fresh(OneAdd(), Pushed(Live(OLD_B, 0, 0), 1, Start(1)))
    ensures Run(OneAdd(), Pushed(Live(OLD_B, 0, 0), 1, Start(1)), actions) == Pushed(Live(OLD_B, 0, 0), 2, Committed(1, 1))
  {
    var c, live := OneAdd(), Live(OLD_B, 0, 0);
    var s, r1, r2 := Pushed(live, 1, Start(1)), Pushed(live, 2, Start(1)), Pushed(live, 2, Editing(1, 1));
    FiledAlready();
    Then(c, s, [], actions[0], s, r1);
    Then(c, s, [] + [actions[0]], actions[1], r1, r2);
    Then(c, s, [] + [actions[0]] + [actions[1]], actions[2], r2, Pushed(live, 2, Committed(1, 1)));
    assert actions == [] + [actions[0]] + [actions[1]] + [actions[2]];
  }

  lemma PushedAndSeen(actions: seq<Action>)
    requires Fresh(OneAdd(), Pushed(Live(OLD_B, 0, 0), 1, Start(1)))
    requires Run(OneAdd(), Pushed(Live(OLD_B, 0, 0), 1, Start(1)), actions) == Pushed(Live(OLD_B, 0, 0), 2, Committed(1, 1))
    ensures Run(OneAdd(), Pushed(Live(OLD_B, 0, 0), 1, Start(1)), actions + [ReadRepo(0)] + [ReadLive(0)])
         == Pushed(Live(OLD_B, 0, 0), 2, HasBoth(1, 1, 1, 0, 0))
  {
    var c, live := OneAdd(), Live(OLD_B, 0, 0);
    var s, r4 := Pushed(live, 1, Start(1)), Pushed(live, 2, HasRepo(1, 1, 1));
    BothAnswer();
    Then(c, s, actions, ReadRepo(0), Pushed(live, 2, Committed(1, 1)), r4);
    Then(c, s, actions + [ReadRepo(0)], ReadLive(0), r4, Pushed(live, 2, HasBoth(1, 1, 1, 0, 0)));
  }

  /** but projects the version it found. */
  lemma PushedAndShown(actions: seq<Action>, more: seq<Action>)
    requires Fresh(OneAdd(), Pushed(Live(OLD_B, 0, 0), 1, Start(1)))
    requires Run(OneAdd(), Pushed(Live(OLD_B, 0, 0), 1, Start(1)), actions) == Pushed(Live(OLD_B, 0, 0), 2, Committed(1, 1))
    requires more == [ReadRepo(0), ReadLive(0), Patch(0, true)]
    ensures Run(OneAdd(), Pushed(Live(OLD_B, 0, 0), 1, Start(1)), actions + more)
         == Pushed(Live(OLD_AND_A, 1, 1), 2, Succeeded(1, 1))
  {
    var s, seen := Pushed(Live(OLD_B, 0, 0), 1, Start(1)), actions + [ReadRepo(0)] + [ReadLive(0)];
    var r5, r6 := Pushed(Live(OLD_B, 0, 0), 2, HasBoth(1, 1, 1, 0, 0)), Pushed(Live(OLD_AND_A, 1, 1), 2, Succeeded(1, 1));
    assert OLD_B + ONLY_A == OLD_AND_A;
    PushedAndSeen(actions);
    Then(OneAdd(), s, seen, Patch(0, true), r5, r6);
    assert actions + more == seen + [Patch(0, true)];
  }

  /** The cluster goes on answering for a record whose zone file the repo no longer has: what it serves
      is no version of the repo. */
  lemma DroppedZoneWitness() returns (actions: seq<Action>)
    ensures Fresh(OneAdd(), Pushed(Live(OLD_B, 0, 0), 1, Start(1)))
    ensures var r := Run(OneAdd(), Pushed(Live(OLD_B, 0, 0), 1, Start(1)), actions);
      && |r.writers| == 1 && r.writers[0].Succeeded?
      && r.repo == [Hosts(OLD_B, true), Hosts(ONLY_A, true)] && r.live.shown == 1
      && OLD in r.live.data && Lookup(r.live.data[OLD], "b") == Some("2")
      && forall i | 0 <= i < |r.repo| :: r.live.data != r.repo[i].data
  {
    var first, more := [Push(Hosts(ONLY_A, true)), ReadFile(0), Update(0, true)], [ReadRepo(0), ReadLive(0), Patch(0, true)];
    PushedAndRead(first);
    PushedAndShown(first, more);
    actions := first + more;
    assert OLD !in ONLY_A && OLD_B[ZONE] != OLD_AND_A[ZONE];
  }
}
