/** Writing fields of a KV secret under check-and-set, among any number of other writers. */
module KvSet {
  import opened Basics
  import opened SortedStrings

  /** A stored field: kv set reads and writes text only. */
  datatype Value = Text(s: string) | Other

  type Fields = map<string, string>

  /** One version of a secret. */
  datatype Version = Version(fields: map<string, Value>, deleted: bool)

  /** What reading a version yields: its text fields, or none of them once it is deleted. */
  function Visible(v: Version): Fields {
    if v.deleted then map[] else map k | k in v.fields && v.fields[k].Text? :: v.fields[k].s
  }

  function Stored(data: Fields): Version {
    Version(map k | k in data :: Text(data[k]), false)
  }

  /** The version a merge writes: the sets over the predecessor minus the removals. */
  function Merged(pred: Fields, sets: Fields, remove: seq<string>): Fields {
    (pred - set k | k in remove) + sets
  }

  /** What the caller is told, in field names. */
  datatype Report = Report(version: nat, created: bool, written: seq<string>, removed: seq<string>, kept: nat)

  /** The report describes exactly the step from pred to Merged(pred, sets, remove). */
  ghost predicate Describes(r: Report, pred: Fields, sets: Fields, remove: seq<string>) {
    && Sorted(r.written) && Distinct(r.written) && (forall k :: k in r.written <==> k in sets)
    && Distinct(r.removed) && (forall k :: k in r.removed <==> k in remove && k in pred)
    && r.kept == |Kept(pred, sets, remove)|
  }

  function Kept(pred: Fields, sets: Fields, remove: seq<string>): set<string> {
    set k | k in pred && k !in remove && k !in sets
  }

  /** What is written is what was set and what was kept, and nothing else. */
  lemma WrittenIsSetAndKept(r: Report, pred: Fields, sets: Fields, remove: seq<string>)
    requires Describes(r, pred, sets, remove)
    ensures |Merged(pred, sets, remove)| == |r.written| + r.kept
  {
    var written := Merged(pred, sets, remove);
    assert written.Keys == sets.Keys + Kept(pred, sets, remove);
    DistinctSize(r.written, sets.Keys);
  }

  lemma {:induction false} DistinctSize(s: seq<string>, keys: set<string>)
    requires Distinct(s) && forall k :: k in s <==> k in keys
    ensures |s| == |keys|
    decreases |s|
  {
    if s == [] {
      assert keys == {};
    } else {
      var k := s[|s| - 1];
      assert s == s[..|s| - 1] + [k];
      DistinctSize(s[..|s| - 1], keys - {k});
    }
  }

  /** A merge keeps every field it does not name if and only if all of them are text: reading drops the
      rest, and the write follows the reading. */
  lemma MergeKeepsOthersIff(v: Version, sets: Fields, remove: seq<string>)
    requires !v.deleted
    ensures var after := Stored(Merged(Visible(v), sets, remove)).fields;
      (forall k | k in v.fields && k !in sets && k !in remove :: k in after && after[k] == v.fields[k])
      <==> (forall k | k in v.fields && k !in sets && k !in remove :: v.fields[k].Text?)
  {}

  /** What is written is read back. */
  lemma StoredIsRead(data: Fields)
    ensures Visible(Stored(data)) == data && !Stored(data).deleted
  {}

  /** Over a deleted version a merge starts from nothing: what was deleted does not come back. */
  lemma DeletedStaysDeleted(v: Version, sets: Fields, remove: seq<string>)
    requires v.deleted
    ensures Stored(Merged(Visible(v), sets, remove)) == Stored(sets)
  {
    assert Merged(map[], sets, remove) == sets;
  }

  /** A secret with a number beside its text: setting another field drops the number. */
  lemma NumberDroppedWitness()
    ensures var v := Version(map["user" := Text("a"), "port" := Other], false);
      var after := Stored(Merged(Visible(v), map["token" := "t"], [])).fields;
      after == map["user" := Text("a"), "token" := Text("t")] && "port" in v.fields && "port" !in after
  {
    var v := Version(map["user" := Text("a"), "port" := Other], false);
    assert Visible(v) == map["user" := "a"];
    assert Merged(Visible(v), map["token" := "t"], []) == map["user" := "a", "token" := "t"];
  }

  // ---- Many writers ----

  datatype Edit = Edit(sets: Fields, remove: seq<string>)

  predicate Names(e: Edit, k: string) {
    k in e.sets || k in e.remove
  }

  /** Each version is an edit of the one before it. */
  ghost predicate Edited(versions: seq<Fields>, edits: seq<Edit>) {
    && |versions| == |edits| + 1
    && forall i | 0 <= i < |edits| :: versions[i + 1] == Merged(versions[i], edits[i].sets, edits[i].remove)
  }

  /** No merge undoes another: a field is as the last edit that names it left it. */
  lemma {:induction false} LastEditWins(versions: seq<Fields>, edits: seq<Edit>, k: string, i: nat)
    requires Edited(versions, edits) && i < |edits| && Names(edits[i], k)
    requires forall j | i < j < |edits| :: !Names(edits[j], k)
    ensures var last := versions[|edits|];
      if k in edits[i].sets then k in last && last[k] == edits[i].sets[k] else k !in last
    decreases |edits|
  {
    var n := |edits| - 1;
    if i < n {
      LastEditWins(versions[..|versions| - 1], edits[..n], k, i);
      assert !Names(edits[n], k) && versions[n + 1] == Merged(versions[n], edits[n].sets, edits[n].remove);
    }
  }

  // ---- The secret and the command ----

  datatype ReadResult = Read(data: Fields, version: nat) | Absent | ReadFailed

  datatype WriteResult = Written(version: nat) | Conflict | WriteFailed

  /** The write landed as version v, over the version asked for when one was. */
  predicate LandedAs(versions: seq<Version>, before: seq<nat>, after: seq<nat>, data: Fields, cas: int, v: nat) {
    0 < v <= |versions| && after == before + [v] && versions[v - 1] == Stored(data) && (cas >= 0 ==> v == cas + 1)
  }

  ghost predicate LandedUnheard(versions: seq<Version>, before: seq<nat>, after: seq<nat>, data: Fields, cas: int) {
    exists v: nat :: LandedAs(versions, before, after, data, cas, v)
  }

  /** One secret in Vault. Others may write before and after each call; landed lists the versions written
      through this client, faults counts its calls that failed and races those refused for their version. */
  class Secret {
    var versions: seq<Version>
    ghost var landed: seq<nat>
    ghost var faults: nat
    ghost var races: nat

    method Interference()
      modifies this`versions
      ensures old(versions) <= versions
    {
      var more: seq<Version> := *;
      versions := versions + more;
    }

    method ReadSecret() returns (r: ReadResult)
      modifies this`versions, this`faults
      ensures old(versions) <= versions && faults == old(faults) + if r.ReadFailed? then 1 else 0
      ensures r.Absent? ==> old(versions) == []
      ensures r.Read? ==> |old(versions)| <= r.version && 0 < r.version <= |versions|
      ensures r.Read? ==> r.data == Visible(versions[r.version - 1])
    {
      Interference();
      var ok := Happens();
      if !ok {
        faults := faults + 1;
        return ReadFailed;
      }
      r := if versions == [] then Absent else Read(Visible(versions[|versions| - 1]), |versions|);
      assert versions[|versions|..] == [];
      Interference();
    }

    /** cas below zero writes unconditionally; otherwise the secret must be at exactly that version. */
    method Write(data: Fields, cas: int) returns (r: WriteResult)
      modifies this
      ensures old(versions) <= versions
      ensures r.Written? ==> 0 < r.version <= |versions| && versions[r.version - 1] == Stored(data)
      ensures r.Written? ==> landed == old(landed) + [r.version] && (cas >= 0 ==> r.version == cas + 1)
      ensures r.Conflict? ==> landed == old(landed) && cas >= 0
      ensures r.WriteFailed? ==> landed == old(landed) || LandedUnheard(versions, old(landed), landed, data, cas)
      ensures faults == old(faults) + (if r.WriteFailed? then 1 else 0)
      ensures races == old(races) + (if r.Conflict? then 1 else 0)
    {
      Interference();
      var reached := Happens();
      if !reached {
        faults := faults + 1;
        return WriteFailed;
      }
      if cas >= 0 && cas != |versions| {
        races := races + 1;
        return Conflict;
      }
      versions, landed := versions + [Stored(data)], landed + [|versions| + 1];
      r := Written(|versions|);
      ghost var v := |versions|;
      Interference();
      assert LandedAs(versions, old(landed), landed, data, cas, v);
      var heard := Happens();
      if !heard { r, faults := WriteFailed, faults + 1; }
    }
  }

  datatype Error = CannotRead | WouldBeEmpty | Lost | CannotWrite

  datatype Outcome = Done(report: Report) | Error(e: Error)

  /** The text fields of version v; version 0 is no secret yet. */
  function At(versions: seq<Version>, v: nat): Fields
    requires v <= |versions|
  {
    if v == 0 then map[] else Visible(versions[v - 1])
  }

  /** Takes the removals out of the data, noting each field that was there, once. */
  method Remove(pred: Fields, remove: seq<string>) returns (data: Fields, removed: seq<string>)
    ensures data == pred - set k | k in remove
    ensures Distinct(removed) && forall k :: k in removed <==> k in remove && k in pred
  {
    data, removed := pred, [];
    for i := 0 to |remove|
      invariant data == pred - set k | k in remove[..i]
      invariant Distinct(removed) && forall k :: k in removed <==> k in remove[..i] && k in pred
    {
      assert remove[..i + 1] == remove[..i] + [remove[i]];
      if remove[i] in data {
        data, removed := data - {remove[i]}, removed + [remove[i]];
      }
    }
    assert remove[..|remove|] == remove;
  }

  method CountKept(data: Fields, sets: Fields) returns (n: nat)
    ensures n == |set k | k in data && k !in sets|
  {
    var todo := data.Keys;
    ghost var counted: set<string> := {};
    n := 0;
    while todo != {}
      invariant todo <= data.Keys && n == |counted|
      invariant forall k :: k in counted <==> k in data && k !in todo && k !in sets
    {
      var k :| k in todo;
      todo := todo - {k};
      if k !in sets { n, counted := n + 1, counted + {k}; }
    }
    assert counted == set k | k in data && k !in sets;
  }

  /** What a finished kv set has done to the secret. */
  ghost predicate Wrote(versions: seq<Version>, r: Report, sets: Fields, remove: seq<string>, replace: bool) {
    && 0 < r.version <= |versions|
    && var pred := if replace then map[] else At(versions, r.version - 1);
       && versions[r.version - 1] == Stored(Merged(pred, sets, if replace then [] else remove))
       && Describes(r, pred, sets, if replace then [] else remove)
       && (r.created <==> !replace && r.version == 1)
  }

  /** The change as a merge would make it now: what to write, over which version, and what to report. */
  datatype Plan = Plan(data: Fields, cas: int, report: Report)

  ghost predicate PlanFits(p: Plan, versions: seq<Version>, sets: Fields, remove: seq<string>) {
    && 0 <= p.cas <= |versions|
    && var pred := At(versions, p.cas);
       && p.data == Merged(pred, sets, remove) && Describes(p.report, pred, sets, remove)
       && p.report.created == (p.cas == 0)
  }

  /** Reads the current version and makes the plan over it. */
  method PlanMerge(kv: Secret, sets: Fields, remove: seq<string>) returns (ok: bool, p: Plan)
    modifies kv`versions, kv`faults
    ensures old(kv.versions) <= kv.versions && kv.faults == old(kv.faults) + if ok then 0 else 1
    ensures ok ==> PlanFits(p, kv.versions, sets, remove) && |old(kv.versions)| <= p.cas
  {
    var names := SortedKeys(sets);
    var cur := kv.ReadSecret();
    p := Plan(map[], 0, Report(0, true, names, [], 0));
    if cur.ReadFailed? { return false, p; }
    var data, cas: nat := map[], 0;
    if cur.Read? { data, cas := cur.data, cur.version; }
    var left, removed := Remove(data, remove);
    var kept := CountKept(left, sets);
    KeptSame(data, left, sets, remove);
    return true, Plan(left + sets, cas, Report(0, cur.Absent?, names, removed, kept));
  }

  /** Exactly the given fields, whatever is there. */
  method PlanReplace(sets: Fields) returns (p: Plan)
    ensures PlanReplaces(p, sets)
  {
    var names := SortedKeys(sets);
    NothingKept(sets);
    p := Plan(sets, -1, Report(0, false, names, [], 0));
  }

  ghost predicate PlanReplaces(p: Plan, sets: Fields) {
    p.data == sets && p.cas == -1 && Describes(p.report, map[], sets, []) && !p.report.created
  }

  ghost predicate Planned(p: Plan, versions: seq<Version>, sets: Fields, remove: seq<string>, replace: bool) {
    if replace then PlanReplaces(p, sets) else PlanFits(p, versions, sets, remove)
  }

  datatype Planning = Unread | Empty | Ready(p: Plan)

  /** A version that came up since has no text field but those to be removed. */
  ghost predicate LeavesNothing(before: nat, versions: seq<Version>, remove: seq<string>) {
    exists v: nat :: before <= v <= |versions| && Emptied(versions, v, remove)
  }

  predicate Emptied(versions: seq<Version>, v: nat, remove: seq<string>)
    requires v <= |versions|
  {
    forall k | k in At(versions, v) :: k in remove
  }

  lemma NothingPlanned(p: Plan, versions: seq<Version>, sets: Fields, remove: seq<string>)
    requires PlanFits(p, versions, sets, remove) && |p.data| == 0
    ensures sets == map[] && Emptied(versions, p.cas, remove)
  {
    var pred := At(versions, p.cas);
    assert p.data == map[];
    forall k | k in pred ensures k in remove {
      assert k !in remove ==> k in Merged(pred, sets, remove);
    }
    forall k | k in sets ensures k in Merged(pred, sets, remove) {}
  }

  method MakePlan(kv: Secret, sets: Fields, remove: seq<string>, replace: bool) returns (r: Planning)
    modifies kv`versions, kv`faults
    ensures old(kv.versions) <= kv.versions && kv.faults == old(kv.faults) + if r.Unread? then 1 else 0
    ensures r.Unread? ==> !replace
    ensures r.Empty? ==> sets == map[] && (replace || LeavesNothing(|old(kv.versions)|, kv.versions, remove))
    ensures r.Ready? ==> Planned(r.p, kv.versions, sets, remove, replace)
  {
    var ok, p := true, Plan(map[], 0, Report(0, false, [], [], 0));
    if replace {
      p := PlanReplace(sets);
    } else {
      ok, p := PlanMerge(kv, sets, remove);
    }
    if !ok { return Unread; }
    if |p.data| == 0 {
      if replace {
        assert p.data == sets;
      } else {
        NothingPlanned(p, kv.versions, sets, remove);
      }
      return Empty;
    }
    r := Ready(p);
  }

  /** Version v is the change made to the version immediately before it, or exactly the given fields. */
  predicate IsTheEdit(versions: seq<Version>, v: nat, sets: Fields, remove: seq<string>, replace: bool) {
    && 0 < v <= |versions|
    && versions[v - 1] == Stored(if replace then sets else Merged(At(versions, v - 1), sets, remove))
  }

  /** What one try or all of them have come to. When the answer to a write is lost, nothing has landed
      or the change has, once. */
  ghost predicate Came(o: Outcome, versions: seq<Version>, landed: seq<nat>, landed': seq<nat>, sets: Fields,
      remove: seq<string>, replace: bool) {
    match o
    case Done(r) => Wrote(versions, r, sets, remove, replace) && landed' == landed + [r.version]
    case Error(CannotWrite) =>
      landed' == landed || exists v: nat :: landed' == landed + [v] && IsTheEdit(versions, v, sets, remove, replace)
    case Error(WouldBeEmpty) => landed' == landed && sets == map[] && (replace || LeavesNothing(0, versions, remove))
    case Error(_) => landed' == landed && !replace
  }

  method Try(kv: Secret, sets: Fields, remove: seq<string>, replace: bool) returns (o: Outcome)
    modifies kv
    ensures old(kv.versions) <= kv.versions && Came(o, kv.versions, old(kv.landed), kv.landed, sets, remove, replace)
    ensures kv.faults == old(kv.faults) + (if o in {Error(CannotRead), Error(CannotWrite)} then 1 else 0)
    ensures kv.races == old(kv.races) + (if o == Error(Lost) then 1 else 0)
  {
    var planned := MakePlan(kv, sets, remove, replace);
    match planned
    case Unread => o := Error(CannotRead);
    case Empty => o := Error(WouldBeEmpty);
    case Ready(p) => o := Land(kv, p, sets, remove, replace);
  }

  method Land(kv: Secret, p: Plan, ghost sets: Fields, ghost remove: seq<string>, ghost replace: bool)
      returns (o: Outcome)
    requires Planned(p, kv.versions, sets, remove, replace)
    modifies kv
    ensures old(kv.versions) <= kv.versions && Came(o, kv.versions, old(kv.landed), kv.landed, sets, remove, replace)
    ensures !o.Error? || o.e.Lost? || o.e.CannotWrite?
    ensures kv.faults == old(kv.faults) + (if o == Error(CannotWrite) then 1 else 0)
    ensures kv.races == old(kv.races) + (if o == Error(Lost) then 1 else 0)
  {
    var w := kv.Write(p.data, p.cas);
    match w
    case Written(version) =>
      PlanLanded(p, old(kv.versions), kv.versions, version, sets, remove, replace);
      o := Done(p.report.(version := version));
    case Conflict => o := Error(Lost);
    case WriteFailed =>
      EditLanded(p, old(kv.versions), kv.versions, old(kv.landed), kv.landed, sets, remove, replace);
      o := Error(CannotWrite);
  }

  /** Applies the change. A merge is written over the version it read or not at all: three lost races
      and it gives up with nothing written. It fails on nothing else but a failed call or an emptied secret. */
  method KvSet(kv: Secret, sets: Fields, remove: seq<string>, replace: bool) returns (o: Outcome)
    modifies kv
    ensures old(kv.versions) <= kv.versions && Came(o, kv.versions, old(kv.landed), kv.landed, sets, remove, replace)
    ensures kv.faults == old(kv.faults) + (if o in {Error(CannotRead), Error(CannotWrite)} then 1 else 0)
    ensures o == Error(Lost) ==> kv.races == old(kv.races) + 3
  {
    var attempt := 1;
    while true
      invariant 1 <= attempt <= 3 && old(kv.versions) <= kv.versions && kv.landed == old(kv.landed)
      invariant kv.faults == old(kv.faults) && kv.races == old(kv.races) + attempt - 1
      decreases 3 - attempt
    {
      o := Try(kv, sets, remove, replace);
      if o != Error(Lost) || attempt == 3 { return; }
      attempt := attempt + 1;
    }
  }

  lemma NothingKept(sets: Fields)
    ensures Merged(map[], sets, []) == sets && Kept(map[], sets, []) == {}
  {}

  lemma PlanLanded(p: Plan, seen: seq<Version>, versions: seq<Version>, v: nat, sets: Fields, remove: seq<string>,
      replace: bool)
    requires seen <= versions && 0 < v <= |versions| && versions[v - 1] == Stored(p.data)
    requires Planned(p, seen, sets, remove, replace) && (p.cas >= 0 ==> v == p.cas + 1)
    ensures Wrote(versions, p.report.(version := v), sets, remove, replace)
  {
    if replace { NothingKept(sets); }
  }

  lemma EditLanded(p: Plan, seen: seq<Version>, versions: seq<Version>, before: seq<nat>, after: seq<nat>,
      sets: Fields, remove: seq<string>, replace: bool)
    requires seen <= versions && Planned(p, seen, sets, remove, replace)
    requires after == before || LandedUnheard(versions, before, after, p.data, p.cas)
    ensures Came(Error(CannotWrite), versions, before, after, sets, remove, replace)
  {
    if after != before {
      var v: nat :| LandedAs(versions, before, after, p.data, p.cas, v);
      assert IsTheEdit(versions, v, sets, remove, replace);
    }
  }

  lemma KeptSame(pred: Fields, data: Fields, sets: Fields, remove: seq<string>)
    requires data == pred - set k | k in remove
    ensures (set k | k in data && k !in sets) == Kept(pred, sets, remove)
  {}
}
