/** Runs at the inputs where the spool delivers a record twice or not at all. */
module SpoolWitnesses {
  import opened SpoolFiles
  import opened SpoolRuns

  /** The part of a state the witnesses follow. */
  ghost predicate At(s: State, files: Files, phase: Phase, sent: seq<Entry>, offered: seq<Entry>) {
    Sound(s) && s.files == files && s.phase == phase && Sent(s.sink) == sent && s.offered == offered
  }

  lemma OneLine(e: Entry)
    ensures Readable([Record(e)]) == [e] && Extend([], Record(e)) == [Record(e)]
  {
    assert Readable([Record(e)][1..]) == [];
  }

  // ---- One step each ----

  lemma Started(c: Config, before: seq<Action>, files: Files, batches: seq<Name>, sent: seq<Entry>,
      offered: seq<Entry>)
    requires At(Run(c, before), files, Idle, sent, offered) && Lists(files, batches)
    ensures At(Run(c, before + [Start(batches)]), files, Listed(batches), sent, offered)
  {
    Then(c, before, Start(batches));
  }

  lemma ReservedName(c: Config, before: seq<Action>, files: Files, tag: nat, offered: seq<Entry>)
    requires At(Run(c, before), files, Listed([]), [], offered) && Live in files && Claim(tag) !in files
    ensures At(Run(c, before + [Reserve(tag)]), files[Claim(tag) := []], Reserved([], tag), [], offered)
  {
    Then(c, before, Reserve(tag));
  }

  lemma Renamed(c: Config, before: seq<Action>, files: Files, tag: nat, offered: seq<Entry>)
    requires At(Run(c, before), files, Reserved([], tag), [], offered) && Live in files
    ensures At(Run(c, before + [Rename]), (files - {Live})[Claim(tag) := files[Live]], Between([Claim(tag)], 0), [], offered)
  {
    Then(c, before, Rename);
    assert [] + [Claim(tag)] == [Claim(tag)];
  }

  lemma NothingNew(c: Config, before: seq<Action>, files: Files, batches: seq<Name>, sent: seq<Entry>,
      offered: seq<Entry>)
    requires At(Run(c, before), files, Listed(batches), sent, offered) && Live !in files
    ensures At(Run(c, before + [NoLive]), files, Between(batches, 0), sent, offered)
  {
    Then(c, before, NoLive);
  }

  lemma Loaded(c: Config, before: seq<Action>, path: Name, e: Entry, sent: seq<Entry>, offered: seq<Entry>)
    requires c.budget > 0 && At(Run(c, before), map[path := [Record(e)]], Between([path], 0), sent, offered)
    ensures At(Run(c, before + [Load]), map[path := [Record(e)]], Sending(path, [e], 0, [], 0), sent, offered)
  {
    Then(c, before, Load);
    OneLine(e);
    assert [path][1..] == [];
  }

  lemma SentOne(c: Config, before: seq<Action>, path: Name, e: Entry, sent: seq<Entry>, offered: seq<Entry>)
    requires c.budget > 0
    requires At(Run(c, before), map[path := [Record(e)]], Sending(path, [e], 0, [], 0), sent, offered)
    ensures At(Run(c, before + [Send]), map[path := [Record(e)]], Sending(path, [e], 1, [], 0), sent + [e], offered)
  {
    Then(c, before, Send);
    var s := Run(c, before);
    assert ChunkSize(c, s.phase) == 1 && [e][0..1] == [e];
    assert Sent(SendNext(c, s).sink) == Sent(s.sink) + [e];
  }

  lemma Stopped(c: Config, before: seq<Action>, files: Files, phase: Phase, sent: seq<Entry>, offered: seq<Entry>)
    requires At(Run(c, before), files, phase, sent, offered)
    ensures At(Run(c, before + [Stop]), files, Idle, sent, offered)
  {
    Then(c, before, Stop);
  }

  // ---- The runs ----

  /** One record appended and claimed. */
  const CLAIMED := [Start([]), Reserve(0), Rename]

  /** The record loaded and sent, and the drain stopped before the file is removed. */
  const INTERRUPTED := [Load, Send, Stop]

  /** The next drain finds the claim file. */
  const RESUMED := [Start([Claim(0)]), NoLive, Load, Send]

  lemma Appended(c: Config, e: Entry)
    ensures At(Run(c, [Append(e, true)]), map[Live := [Record(e)]], Idle, [], [e])
  {
    Then(c, [], Append(e, true));
    OneLine(e);
    assert [] + [Append(e, true)] == [Append(e, true)];
  }

  lemma Claimed(c: Config, e: Entry)
    ensures At(Run(c, [Append(e, true)] + CLAIMED), map[Claim(0) := [Record(e)]], Between([Claim(0)], 0), [], [e])
  {
    var live := map[Live := [Record(e)]];
    var actions := [Append(e, true)];
    Appended(c, e);
    Started(c, actions, live, [], [], [e]);
    ReservedName(c, actions + [Start([])], live, 0, [e]);
    Renamed(c, actions + [Start([])] + [Reserve(0)], live[Claim(0) := []], 0, [e]);
    assert (live[Claim(0) := []] - {Live})[Claim(0) := [Record(e)]] == map[Claim(0) := [Record(e)]];
    assert actions + [Start([])] + [Reserve(0)] + [Rename] == actions + CLAIMED;
  }

  lemma Interrupted(c: Config, before: seq<Action>, e: Entry)
    requires c.budget > 0
    requires At(Run(c, before), map[Claim(0) := [Record(e)]], Between([Claim(0)], 0), [], [e])
    ensures At(Run(c, before + INTERRUPTED), map[Claim(0) := [Record(e)]], Idle, [e], [e])
  {
    Loaded(c, before, Claim(0), e, [], [e]);
    SentOne(c, before + [Load], Claim(0), e, [], [e]);
    assert [] + [e] == [e];
    Stopped(c, before + [Load] + [Send], map[Claim(0) := [Record(e)]], Sending(Claim(0), [e], 1, [], 0), [e], [e]);
    assert before + [Load] + [Send] + [Stop] == before + INTERRUPTED;
  }

  lemma Resumed(c: Config, before: seq<Action>, e: Entry)
    requires c.budget > 0 && At(Run(c, before), map[Claim(0) := [Record(e)]], Idle, [e], [e])
    ensures At(Run(c, before + RESUMED), map[Claim(0) := [Record(e)]], Sending(Claim(0), [e], 1, [], 0), [e, e], [e])
  {
    var files, batches := map[Claim(0) := [Record(e)]], [Claim(0)];
    Started(c, before, files, batches, [e], [e]);
    NothingNew(c, before + [Start(batches)], files, batches, [e], [e]);
    Loaded(c, before + [Start(batches)] + [NoLive], Claim(0), e, [e], [e]);
    SentOne(c, before + [Start(batches)] + [NoLive] + [Load], Claim(0), e, [e], [e]);
    assert before + [Start(batches)] + [NoLive] + [Load] + [Send] == before + RESUMED && [e] + [e] == [e, e];
  }

  lemma ClaimHolds(e: Entry)
    ensures OnDisk(map[Claim(0) := [Record(e)]]) == multiset{e}
  {
    var files := map[Claim(0) := [Record(e)]];
    AllEntriesIsDisk(files, [Claim(0)]);
    OneLine(e);
    assert AllEntries(files, [Claim(0)]) == [e];
  }

  /** One record, and one stop between sending it and removing its file: the next drain sends it again. */
  lemma ReplayWitness(c: Config, e: Entry)
    requires c.budget > 0
    ensures var actions := [Append(e, true)] + CLAIMED + INTERRUPTED;
      && !StopsClean(c, actions)
      && Sent(Run(c, actions + RESUMED).sink) == [e, e] && Run(c, actions + RESUMED).offered == [e]
  {
    var actions := [Append(e, true)] + CLAIMED + INTERRUPTED;
    Claimed(c, e);
    Interrupted(c, [Append(e, true)] + CLAIMED, e);
    Resumed(c, actions, e);
    ExactlyOnceIff(c, actions);
    ClaimHolds(e);
    assert (Here(Run(c, actions)) + multiset(Run(c, actions).spoiled))[e] > multiset([e])[e];
  }

  /** One torn write, and one record appended behind it: it is neither in the sink nor on disk. */
  lemma SpoiledWitness(c: Config, e: Entry)
    ensures var actions := [Tear(3), Append(e, true)]; var s := Run(c, actions);
      && s.sink == [] && OnDisk(s.files) == multiset{} && s.offered == [e]
      && !NoneBehindTear(c, actions)
  {
    Then(c, [], Tear(3));
    Then(c, [Tear(3)], Append(e, true));
    assert [] + [Tear(3)] == [Tear(3)] && [Tear(3)] + [Append(e, true)] == [Tear(3), Append(e, true)];
    var torn, s := Run(c, [Tear(3)]), Run(c, [Tear(3), Append(e, true)]);
    assert torn.files == map[Live := [Unreadable(3, true)]];
    SpoiledBehind(torn, e);
    assert s.spoiled == [e];
    SpoiledComeFromTears(c, [Tear(3), Append(e, true)]);
    AllEntriesIsDisk(s.files, [Live]);
  }

  lemma SpoiledBehind(torn: State, e: Entry)
    requires torn.files == map[Live := [Unreadable(3, true)]]
    ensures Spoils(torn.files, e) == [e] && AllEntries(WithLine(torn.files, Record(e)), [Live]) == []
  {
    var lines := Extend([Unreadable(3, true)], Record(e));
    assert lines == [Joined(3, Record(e))];
    assert Readable(lines[1..]) == [];
  }
}
