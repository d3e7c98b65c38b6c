/** Every interleaving of any number of DNS writers, hand pushes to the repo, syncs of the cluster
    and other changes of the live ConfigMap. */
module DnsRuns {
  import opened DnsZones

  const ATTEMPTS: nat := 3

  /** The repo file at one commit: zone files, canonically rendered or reformatted by hand; or not the
      ConfigMap at all. */
  datatype File = Hosts(data: Data, canonical: bool) | Garbage

  datatype Author = Hand | Writer(w: nat)

  /** What the cluster serves, its resourceVersion, and which repo version was last put on it. */
  datatype Live = Live(data: Data, rv: nat, shown: nat)

  /** Where a writer is. own is the repo version its commit call ended with, seen the one it read to
      project, over the version the cluster showed when its resourceVersion was read. */
  datatype Phase =
    | Start(attempt: nat)
    | Editing(attempt: nat, base: nat)
    | Committed(attempt: nat, own: nat)
    | HasRepo(attempt: nat, own: nat, seen: nat)
    | HasBoth(attempt: nat, own: nat, seen: nat, rv: nat, over: nat)
    | Succeeded(own: nat, patched: nat)
    | Failed

  /** Each writer's edit, and whether the two reads of a projection happen at one instant. */
  datatype Config = Config(edits: seq<Data -> Edit>, atomic: bool)

  datatype State = State(repo: seq<File>, authors: seq<Author>, live: Live, writers: seq<Phase>)

  datatype Action =
    | ReadFile(w: nat)
    | Update(w: nat, heard: bool)
    | ReadRepo(w: nat)
    | ReadLive(w: nat)
    | Patch(w: nat, heard: bool)
    | Crash(w: nat)
    | Push(file: File)
    | Sync
    | Touch

  function Head(s: State): nat
    requires s.repo != []
  {
    |s.repo| - 1
  }

  function At(s: State, w: nat, p: Phase): (r: State)
    requires w < |s.writers|
    ensures |r.writers| == |s.writers|
  {
    s.(writers := s.writers[w := p])
  }

  predicate Exists(s: State, w: nat) {
    w < |s.writers|
  }

  /** The repo as it was when the edit was computed may have moved: then the update is refused. */
  function Updated(c: Config, s: State, w: nat, heard: bool): State
    requires s.repo != [] && w < |s.writers| && w < |c.edits| && s.writers[w].Editing? && s.writers[w].base < |s.repo|
  {
    var p := s.writers[w];
    var file := s.repo[p.base];
    if file.Garbage? then At(s, w, Failed)
    else match c.edits[w](file.data)
      case Refused(_) => At(s, w, Failed)
      case NoChange => At(s, w, Committed(1, p.base))
      case Edited(data) =>
        if data == file.data && file.canonical then At(s, w, Committed(1, p.base))
        else if p.base != Head(s) then At(s, w, if p.attempt < ATTEMPTS then Start(p.attempt + 1) else Failed)
        else
          At(s, w, if heard then Committed(1, |s.repo|) else Failed)
            .(repo := s.repo + [Hosts(data, true)], authors := s.authors + [Writer(w)])
  }

  function WithRepo(c: Config, s: State, w: nat): State
    requires s.repo != [] && w < |s.writers| && s.writers[w].Committed?
  {
    var p := s.writers[w];
    if s.repo[Head(s)].Garbage? then At(s, w, Failed)
    else
      var read := At(s, w, HasRepo(p.attempt, p.own, Head(s)));
      if c.atomic then WithLive(read, w) else read
  }

  /** A repo emptied since this writer's commit is not put on the cluster. */
  function WithLive(s: State, w: nat): State
    requires w < |s.writers| && s.writers[w].HasRepo?
  {
    var p := s.writers[w];
    if p.own < |s.repo| && p.seen < |s.repo| && s.repo[p.seen].Hosts? && s.repo[p.own].Hosts?
       && !HasRecords(s.repo[p.seen].data) && HasRecords(s.repo[p.own].data)
    then At(s, w, Failed)
    else At(s, w, HasBoth(p.attempt, p.own, p.seen, s.live.rv, s.live.shown))
  }

  /** A merge patch: zone keys the patch does not name stay as they are. */
  function Patched(s: State, w: nat, heard: bool): State
    requires w < |s.writers| && s.writers[w].HasBoth? && s.writers[w].seen < |s.repo| && s.repo[s.writers[w].seen].Hosts?
  {
    var p := s.writers[w];
    if p.rv != s.live.rv then At(s, w, if p.attempt < ATTEMPTS then Committed(p.attempt + 1, p.own) else Failed)
    else
      At(s, w, if heard then Succeeded(p.own, p.seen) else Failed)
        .(live := Live(s.live.data + s.repo[p.seen].data, s.live.rv + 1, p.seen))
  }

  // ---- What every state keeps ----

  ghost predicate IsVersion(s: State, k: nat) {
    k < |s.repo| && s.repo[k].Hosts?
  }

  /** own and seen are versions of the repo, and what is projected is no older than what was committed. */
  ghost predicate Sound(s: State, w: nat)
    requires w < |s.writers|
  {
    match s.writers[w]
    case Start(_) => true
    case Editing(_, base) => base < |s.repo|
    case Committed(_, own) => IsVersion(s, own)
    case HasRepo(_, own, seen) => IsVersion(s, own) && IsVersion(s, seen) && own <= seen
    case HasBoth(_, own, seen, rv, over) =>
      && IsVersion(s, own) && IsVersion(s, seen) && own <= seen && rv <= s.live.rv
      && (HasRecords(s.repo[own].data) ==> HasRecords(s.repo[seen].data))
      && (rv == s.live.rv ==> over == s.live.shown)
    case Succeeded(own, patched) => IsVersion(s, own) && IsVersion(s, patched) && own <= patched
    case Failed => true
  }

  ghost predicate Valid(c: Config, s: State) {
    && s.repo != [] && |s.authors| == |s.repo| && |c.edits| == |s.writers|
    && IsVersion(s, s.live.shown)
    && forall w | 0 <= w < |s.writers| :: Sound(s, w)
  }

  /** One step; an action that does not apply changes nothing. */
  ghost function Step(c: Config, s: State, a: Action): State
    requires Valid(c, s)
  {
    match a
    case ReadFile(w) =>
      if Exists(s, w) && s.writers[w].Start? then At(s, w, Editing(s.writers[w].attempt, Head(s))) else s
    case Update(w, heard) => if Exists(s, w) && s.writers[w].Editing? && Sound(s, w) then Updated(c, s, w, heard) else s
    case ReadRepo(w) => if Exists(s, w) && s.writers[w].Committed? then WithRepo(c, s, w) else s
    case ReadLive(w) => if Exists(s, w) && s.writers[w].HasRepo? then WithLive(s, w) else s
    case Patch(w, heard) => if Exists(s, w) && s.writers[w].HasBoth? && Sound(s, w) then Patched(s, w, heard) else s
    case Crash(w) => if Exists(s, w) && !s.writers[w].Succeeded? then At(s, w, Failed) else s
    case Push(file) => s.(repo := s.repo + [file], authors := s.authors + [Hand])
    case Sync => if s.repo[Head(s)].Hosts? then s.(live := Live(s.repo[Head(s)].data, s.live.rv + 1, Head(s))) else s
    case Touch => s.(live := s.live.(rv := s.live.rv + 1))
  }

  /** What a step of writer w may do to the rest of the state. */
  ghost predicate Moves(s: State, r: State, w: nat)
    requires w < |s.writers|
  {
    && |r.writers| == |s.writers| && r.writers == s.writers[w := r.writers[w]]
    && s.repo <= r.repo && |r.authors| == |r.repo| && IsVersion(r, r.live.shown)
    && s.live.rv <= r.live.rv && (r.live.rv == s.live.rv ==> r.live.shown == s.live.shown)
    && Sound(r, w)
  }

  lemma MovesValid(c: Config, s: State, r: State, w: nat)
    requires Valid(c, s) && w < |s.writers| && Moves(s, r, w)
    ensures Valid(c, r)
  {
    forall v | 0 <= v < |r.writers| ensures Sound(r, v) {
      assert Sound(s, v);
    }
  }

  lemma UpdateMoves(c: Config, s: State, w: nat, heard: bool)
    requires Valid(c, s) && w < |s.writers|
    ensures Moves(s, Step(c, s, Update(w, heard)), w)
  {
    assert Sound(s, w);
  }

  lemma RepoReadMoves(c: Config, s: State, w: nat)
    requires Valid(c, s) && w < |s.writers|
    ensures Moves(s, Step(c, s, ReadRepo(w)), w)
  {
    assert Sound(s, w);
  }

  lemma LiveReadMoves(c: Config, s: State, w: nat)
    requires Valid(c, s) && w < |s.writers|
    ensures Moves(s, Step(c, s, ReadLive(w)), w)
  {
    assert Sound(s, w);
  }

  lemma PatchMoves(c: Config, s: State, w: nat, heard: bool)
    requires Valid(c, s) && w < |s.writers|
    ensures Moves(s, Step(c, s, Patch(w, heard)), w)
  {
    assert Sound(s, w);
  }

  lemma OthersMove(c: Config, s: State, w: nat)
    requires Valid(c, s) && w < |s.writers|
    ensures Moves(s, Step(c, s, ReadFile(w)), w)
    ensures Moves(s, Step(c, s, Crash(w)), w)
  {
    assert Sound(s, w);
  }

  lemma EnvironmentValid(c: Config, s: State, a: Action)
    requires Valid(c, s) && (a.Push? || a.Sync? || a.Touch?)
    ensures Valid(c, Step(c, s, a))
  {
    var r := Step(c, s, a);
    forall v | 0 <= v < |r.writers| ensures Sound(r, v) {
      assert Sound(s, v);
    }
  }

  lemma StepValid(c: Config, s: State, a: Action)
    requires Valid(c, s)
    ensures Valid(c, Step(c, s, a))
  {
    if a.Push? || a.Sync? || a.Touch? {
      EnvironmentValid(c, s, a);
    } else if Exists(s, a.w) {
      match a {
        case Update(w, heard) => UpdateMoves(c, s, w, heard);
        case Patch(w, heard) => PatchMoves(c, s, w, heard);
        case ReadRepo(w) => RepoReadMoves(c, s, w);
        case ReadLive(w) => LiveReadMoves(c, s, w);
        case ReadFile(w) => OthersMove(c, s, w);
        case Crash(w) => OthersMove(c, s, w);
        case _ =>
      }
      MovesValid(c, s, Step(c, s, a), a.w);
    }
  }

  // ---- Runs ----

  /** One repo version, on the cluster, and every writer about to begin. */
  ghost predicate Fresh(c: Config, s: State) {
    && |s.repo| == 1 && s.repo[0].Hosts? && s.authors == [Hand]
    && s.live.data == s.repo[0].data && s.live.shown == 0
    && |s.writers| == |c.edits| && forall w | 0 <= w < |s.writers| :: s.writers[w] == Start(1)
  }

  ghost function Run(c: Config, s: State, actions: seq<Action>): (r: State)
    requires Fresh(c, s)
    ensures Valid(c, r)
    decreases |actions|
  {
    if actions == [] then s
    else
      var before := Run(c, s, actions[..|actions| - 1]);
      StepValid(c, before, actions[|actions| - 1]);
      Step(c, before, actions[|actions| - 1])
  }

  // ---- No lost update ----

  /** Version i is its writer's edit of the version just before it. */
  ghost predicate IsEdit(c: Config, s: State, i: nat) {
    && 0 < i < |s.repo| && i < |s.authors| && s.authors[i].Writer? && s.authors[i].w < |c.edits|
    && s.repo[i - 1].Hosts? && s.repo[i].Hosts?
    && c.edits[s.authors[i].w](s.repo[i - 1].data) == Edited(s.repo[i].data)
  }

  ghost predicate NoLostUpdate(c: Config, s: State)
    requires |s.authors| == |s.repo|
  {
    forall i | 0 <= i < |s.repo| && s.authors[i].Writer? :: IsEdit(c, s, i)
  }

  /** The version a writer's commit ended with: its own commit, or one that already held its edit. */
  ghost predicate Earned(c: Config, s: State, w: nat)
    requires w < |s.writers| && |c.edits| == |s.writers| && |s.authors| == |s.repo|
  {
    var p := s.writers[w];
    p.Committed? || p.HasRepo? || p.HasBoth? || p.Succeeded? ==> HoldsEdit(c, s, w, p.own)
  }

  ghost predicate HoldsEdit(c: Config, s: State, w: nat, own: nat)
    requires w < |c.edits| && |s.authors| == |s.repo|
  {
    && own < |s.repo| && s.repo[own].Hosts?
    && (s.authors[own] == Writer(w)
        || c.edits[w](s.repo[own].data) == NoChange
        || (c.edits[w](s.repo[own].data) == Edited(s.repo[own].data) && s.repo[own].canonical))
  }

  lemma StepEdits(c: Config, s: State, a: Action, r: State)
    requires Valid(c, s) && NoLostUpdate(c, s) && r == Step(c, s, a) && Valid(c, r)
    ensures NoLostUpdate(c, r) && s.repo <= r.repo && s.authors <= r.authors
  {
    forall i | 0 <= i < |r.repo| && r.authors[i].Writer? ensures IsEdit(c, r, i) {
      if i < |s.repo| { assert IsEdit(c, s, i); }
    }
  }

  lemma StillEarned(c: Config, s: State, r: State, w: nat)
    requires w < |s.writers| == |c.edits| == |r.writers| && |s.authors| == |s.repo| && |r.authors| == |r.repo|
    requires s.repo <= r.repo && s.authors <= r.authors && Earned(c, s, w)
    requires r.writers[w] == s.writers[w] || (r.writers[w].Committed? && HoldsEdit(c, r, w, r.writers[w].own))
      || r.writers[w].Failed? || r.writers[w].Start? || r.writers[w].Editing?
      || (!s.writers[w].Start? && !s.writers[w].Editing? && !s.writers[w].Failed? && !r.writers[w].Failed?
          && r.writers[w].own == s.writers[w].own)
    ensures Earned(c, r, w)
  {}

  lemma UpdateEarns(c: Config, s: State, w: nat, heard: bool, r: State)
    requires Valid(c, s) && w < |s.writers| && r == Step(c, s, Update(w, heard)) && Valid(c, r)
    requires Earned(c, s, w) && s.repo <= r.repo && s.authors <= r.authors
    ensures Earned(c, r, w)
  {
    assert Sound(s, w);
  }

  lemma StepEarns(c: Config, s: State, a: Action, r: State)
    requires Valid(c, s) && r == Step(c, s, a) && Valid(c, r) && s.repo <= r.repo && s.authors <= r.authors
    requires forall w | 0 <= w < |s.writers| :: Earned(c, s, w)
    ensures forall w | 0 <= w < |r.writers| :: Earned(c, r, w)
  {
    forall w | 0 <= w < |r.writers| ensures Earned(c, r, w) {
      assert Earned(c, s, w);
      if a.Update? && a.w == w {
        UpdateEarns(c, s, w, a.heard, r);
      } else {
        StillEarned(c, s, r, w);
      }
    }
  }

  /** Every commit is its edit of the version immediately before it, under any interleaving; and what a
      writer goes on to project is a version that holds its edit. */
  lemma {:induction false} RunLosesNoUpdate(c: Config, s: State, actions: seq<Action>)
    requires Fresh(c, s)
    ensures var r := Run(c, s, actions); NoLostUpdate(c, r) && forall w | 0 <= w < |r.writers| :: Earned(c, r, w)
    decreases |actions|
  {
    if actions != [] {
      var before, a := actions[..|actions| - 1], actions[|actions| - 1];
      RunLosesNoUpdate(c, s, before);
      StepEdits(c, Run(c, s, before), a, Run(c, s, actions));
      StepEarns(c, Run(c, s, before), a, Run(c, s, actions));
    }
  }

  // ---- What the cluster shows ----

  /** The cluster serves every zone file of the version it shows. */
  ghost predicate Serves(s: State) {
    && IsVersion(s, s.live.shown)
    && forall k | k in s.repo[s.live.shown].data :: k in s.live.data && s.live.data[k] == s.repo[s.live.shown].data[k]
  }

  lemma StepServes(c: Config, s: State, a: Action, r: State)
    requires Valid(c, s) && Serves(s) && r == Step(c, s, a) && s.repo <= r.repo
    ensures Serves(r)
  {
    if a.Patch? && Exists(s, a.w) { assert Sound(s, a.w); }
  }

  /** A patch over the resourceVersion it was made for. */
  predicate Lands(s: State, a: Action) {
    a.Patch? && Exists(s, a.w) && s.writers[a.w].HasBoth? && s.writers[a.w].rv == s.live.rv
  }

  predicate Replaces(s: State, a: Action)
    requires s.repo != []
  {
    a.Sync? && s.repo[Head(s)].Hosts?
  }

  /** The versions put on the cluster since a sync last replaced all of it, in order: those patched in,
      behind the one it held then. */
  ghost function PutSince(c: Config, s: State, actions: seq<Action>): seq<nat>
    requires Fresh(c, s)
    decreases |actions|
  {
    if actions == [] then [0]
    else
      var fewer, a := actions[..|actions| - 1], actions[|actions| - 1];
      var before, put := Run(c, s, fewer), PutSince(c, s, fewer);
      if Replaces(before, a) then [Head(before)]
      else if Lands(before, a) then put + [before.writers[a.w].seen]
      else put
  }

  ghost predicate AreVersions(repo: seq<File>, put: seq<nat>) {
    forall j | 0 <= j < |put| :: put[j] < |repo| && repo[put[j]].Hosts?
  }

  // ---- Every writer ends ----

  predicate InAttempts(p: Phase) {
    p.Start? || p.Editing? || p.Committed? || p.HasRepo? || p.HasBoth? ==> 1 <= p.attempt <= 3
  }

  /** How many steps a writer has left at most: two for each attempt to commit, three for each to project. */
  function StepsLeft(p: Phase): nat
    requires InAttempts(p)
  {
    match p
    case Start(attempt) => 9 + 2 * (4 - attempt)
    case Editing(attempt, _) => 9 + 2 * (4 - attempt) - 1
    case Committed(attempt, _) => 3 * (4 - attempt)
    case HasRepo(attempt, _, _) => 3 * (4 - attempt) - 1
    case HasBoth(attempt, _, _, _, _) => 3 * (4 - attempt) - 2
    case Succeeded(_, _) => 0
    case Failed => 0
  }

  lemma StepEndsSooner(c: Config, s: State, a: Action, w: nat)
    requires Valid(c, s) && w < |s.writers| && InAttempts(s.writers[w])
    ensures var r := Step(c, s, a); |r.writers| == |s.writers| && InAttempts(r.writers[w])
    ensures var r := Step(c, s, a); r.writers[w] == s.writers[w] || StepsLeft(r.writers[w]) < StepsLeft(s.writers[w])
  {}

  /** How often the writer has moved on. */
  ghost function Moved(c: Config, s: State, actions: seq<Action>, w: nat): nat
    requires Fresh(c, s) && w < |c.edits|
    decreases |actions|
  {
    if actions == [] then 0
    else
      var fewer := actions[..|actions| - 1];
      var was, now := Run(c, s, fewer), Run(c, s, actions);
      Moved(c, s, fewer, w) + if now.writers[w] == was.writers[w] then 0 else 1
  }

  /** Whatever the others do, a writer ends after at most fifteen steps of its own. */
  lemma {:induction false} WritersEnd(c: Config, s: State, actions: seq<Action>, w: nat)
    requires Fresh(c, s) && w < |c.edits|
    ensures InAttempts(Run(c, s, actions).writers[w])
    ensures Moved(c, s, actions, w) + StepsLeft(Run(c, s, actions).writers[w]) <= 15
    decreases |actions|
  {
    if actions != [] {
      var fewer := actions[..|actions| - 1];
      WritersEnd(c, s, fewer, w);
      StepEndsSooner(c, Run(c, s, fewer), actions[|actions| - 1], w);
    }
  }

  /** A race that is lost is given up at the third attempt and not before. */
  lemma ThirdIsLast(c: Config, s: State, w: nat, heard: bool)
    requires Valid(c, s) && w < |s.writers| && InAttempts(s.writers[w])
    ensures var p := s.writers[w];
      p.Editing? && p.base < Head(s) && s.repo[p.base].Hosts? && c.edits[w](s.repo[p.base].data).Edited?
        && c.edits[w](s.repo[p.base].data).data != s.repo[p.base].data
      ==> (Step(c, s, Update(w, heard)).writers[w].Failed? <==> p.attempt == 3)
    ensures var p := s.writers[w];
      p.HasBoth? && p.rv != s.live.rv ==> (Step(c, s, Patch(w, heard)).writers[w].Failed? <==> p.attempt == 3)
  {
    assert Sound(s, w);
  }

  /** Whatever changes the live ConfigMap, a change of something else in it included, refuses every patch made for
      what it was before. */
  lemma ChangeRefusesPatches(c: Config, s: State, a: Action, w: nat, heard: bool)
    requires Valid(c, s) && Valid(c, Step(c, s, a)) && w < |s.writers| && s.writers[w].HasBoth?
    requires a.Touch? || Step(c, s, a).live != s.live
    requires Step(c, s, a).writers[w] == s.writers[w]
    ensures var r := Step(c, s, a); Step(c, r, Patch(w, heard)).live == r.live
  {
    assert Sound(s, w);
    if a.Patch? && Exists(s, a.w) { assert Sound(s, a.w); }
  }

  /** Each version's zone files over those of the versions before it. */
  ghost function Overlay(repo: seq<File>, put: seq<nat>): Data
    requires AreVersions(repo, put)
  {
    if put == [] then map[] else Overlay(repo, put[..|put| - 1]) + repo[put[|put| - 1]].data
  }

  lemma {:induction false} OverlayKept(repo: seq<File>, repo': seq<File>, put: seq<nat>)
    requires AreVersions(repo, put) && repo <= repo'
    ensures AreVersions(repo', put) && Overlay(repo', put) == Overlay(repo, put)
  {
    if put != [] { OverlayKept(repo, repo', put[..|put| - 1]); }
  }

  lemma OverlayMore(repo: seq<File>, put: seq<nat>, next: nat)
    requires AreVersions(repo, put) && next < |repo| && repo[next].Hosts?
    ensures AreVersions(repo, put + [next]) && Overlay(repo, put + [next]) == Overlay(repo, put) + repo[next].data
  {
    assert (put + [next])[..|put|] == put;
  }

  lemma OverNothing(data: Data)
    ensures map[] + data == data
  {}

  lemma OverlayOne(repo: seq<File>, i: nat)
    requires i < |repo| && repo[i].Hosts?
    ensures AreVersions(repo, [i]) && Overlay(repo, [i]) == repo[i].data
  {
    var put, data := [i], repo[i].data;
    assert put[..0] == [];
    OverNothing(data);
    assert Overlay(repo, put) == Overlay(repo, put[..0]) + data;
  }

  /** Of the versions listed, the last that has the zone file. */
  ghost predicate LastToHave(repo: seq<File>, put: seq<nat>, k: string, j: nat)
    requires AreVersions(repo, put)
  {
    && j < |put| && k in repo[put[j]].data
    && forall m | j < m < |put| :: k !in repo[put[m]].data
  }

  /** A zone file of an overlay is that of the last version to have it; one that any version has is there. */
  lemma {:induction false} OverlayHolds(repo: seq<File>, put: seq<nat>, k: string) returns (j: nat)
    requires AreVersions(repo, put)
    ensures k in Overlay(repo, put) ==>
      LastToHave(repo, put, k, j) && Overlay(repo, put)[k] == repo[put[j]].data[k]
    ensures k !in Overlay(repo, put) ==> forall m | 0 <= m < |put| :: k !in repo[put[m]].data
  {
    j := 0;
    if put != [] {
      var n := |put| - 1;
      j := OverlayHolds(repo, put[..n], k);
      if k in repo[put[n]].data { j := n; }
    }
  }

  /** The cluster holds exactly the versions put on it since the last sync, one over the other. */
  ghost predicate IsOverlay(s: State, put: seq<nat>) {
    && put != [] && put[|put| - 1] == s.live.shown
    && AreVersions(s.repo, put) && s.live.data == Overlay(s.repo, put)
  }

  /** What a step leaves on the cluster. */
  lemma LiveAfter(c: Config, s: State, a: Action, r: State)
    requires Valid(c, s) && r == Step(c, s, a)
    ensures Replaces(s, a) ==> r.live.data == s.repo[Head(s)].data && r.live.shown == Head(s) && r.repo == s.repo
    ensures Lands(s, a) ==> var seen := s.writers[a.w].seen;
      && IsVersion(s, seen) && r.repo == s.repo
      && r.live.data == s.live.data + s.repo[seen].data && r.live.shown == seen
    ensures !Replaces(s, a) && !Lands(s, a) ==> r.live.data == s.live.data && r.live.shown == s.live.shown
  {
    if a.Patch? && Exists(s, a.w) { assert Sound(s, a.w); }
  }

  lemma StepOverlays(c: Config, s: State, put: seq<nat>, a: Action, r: State)
    requires Valid(c, s) && IsOverlay(s, put) && r == Step(c, s, a) && s.repo <= r.repo
    ensures IsOverlay(r, if Replaces(s, a) then [Head(s)] else if Lands(s, a) then put + [s.writers[a.w].seen] else put)
  {
    OverlayKept(s.repo, r.repo, put);
    LiveAfter(c, s, a, r);
    if Replaces(s, a) {
      OverlayOne(r.repo, Head(s));
    } else if Lands(s, a) {
      OverlayMore(r.repo, put, s.writers[a.w].seen);
    }
  }

  lemma {:induction false} RunOverlays(c: Config, s: State, actions: seq<Action>)
    requires Fresh(c, s)
    ensures IsOverlay(Run(c, s, actions), PutSince(c, s, actions)) && Serves(Run(c, s, actions))
    decreases |actions|
  {
    if actions == [] {
      OverlayOne(s.repo, 0);
    } else {
      var fewer, a := actions[..|actions| - 1], actions[|actions| - 1];
      RunOverlays(c, s, fewer);
      RunLosesNoUpdate(c, s, fewer);
      StepEdits(c, Run(c, s, fewer), a, Run(c, s, actions));
      StepServes(c, Run(c, s, fewer), a, Run(c, s, actions));
      StepOverlays(c, Run(c, s, fewer), PutSince(c, s, fewer), a, Run(c, s, actions));
    }
  }

  /** The cluster's zone file k is as in the last version put on it that has one. */
  ghost predicate ServedFrom(s: State, put: seq<nat>, k: string)
    requires AreVersions(s.repo, put)
  {
    k in s.live.data && exists j: nat :: LastToHave(s.repo, put, k, j) && s.live.data[k] == s.repo[put[j]].data[k]
  }

  lemma OverlayServed(s: State, put: seq<nat>, k: string)
    requires IsOverlay(s, put) && k in s.live.data
    ensures ServedFrom(s, put, k)
  {
    var j := OverlayHolds(s.repo, put, k);
    assert LastToHave(s.repo, put, k, j);
  }

  /** In every run the cluster serves all of the version it shows, and every further zone file as it
      stands in the last version put on since the last sync that has it. */
  lemma RunServes(c: Config, s: State, actions: seq<Action>)
    requires Fresh(c, s)
    ensures var r, put := Run(c, s, actions), PutSince(c, s, actions);
      Serves(r) && IsOverlay(r, put) && forall k | k in r.live.data :: ServedFrom(r, put, k)
  {
    var r, put := Run(c, s, actions), PutSince(c, s, actions);
    RunOverlays(c, s, actions);
    forall k | k in r.live.data ensures ServedFrom(r, put, k) {
      OverlayServed(r, put, k);
    }
  }

  /** The live ConfigMap is the version it shows if and only if no version put on the cluster since the
      last sync has a zone file that the one shown lacks; so always, as long as no push to the repo
      drops or adds a zone file. */
  lemma LiveIsVersionIff(c: Config, s: State, actions: seq<Action>)
    requires Fresh(c, s)
    ensures var r, put := Run(c, s, actions), PutSince(c, s, actions); var shown := r.repo[r.live.shown].data;
      && AreVersions(r.repo, put)
      && (r.live.data == shown <==> forall j | 0 <= j < |put| :: r.repo[put[j]].data.Keys <= shown.Keys)
      && ((forall i | 0 <= i < |r.repo| && r.repo[i].Hosts? :: r.repo[i].data.Keys == shown.Keys) ==> r.live.data == shown)
  {
    var r, put := Run(c, s, actions), PutSince(c, s, actions);
    RunOverlays(c, s, actions);
    ShownAlone(r, put);
  }

  lemma ShownAlone(r: State, put: seq<nat>)
    requires IsOverlay(r, put) && Serves(r)
    ensures var shown := r.repo[r.live.shown].data;
      r.live.data == shown <==> forall j | 0 <= j < |put| :: r.repo[put[j]].data.Keys <= shown.Keys
  {
    var shown := r.repo[r.live.shown].data;
    forall k | k in r.live.data && k !in shown ensures exists j | 0 <= j < |put| :: k in r.repo[put[j]].data {
      var j := OverlayHolds(r.repo, put, k);
    }
    forall j, k | 0 <= j < |put| && k in r.repo[put[j]].data ensures k in r.live.data {
      var i := OverlayHolds(r.repo, put, k);
    }
  }
}
