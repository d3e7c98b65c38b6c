/** One DNS writer as it runs: two retry loops, with anything happening in the repo and on the cluster
    between any two of its calls. */
module DnsWrite {
  import opened Basics
  import opened DnsZones
  import opened DnsRuns

  datatype UpdateResult = Landed | Moved | UpdateFailed

  /** The repo file, commit by commit; a commit id is its index. mine lists this writer's commits, faults
      counts its calls that failed and races those that came too late. */
  class IacRepo {
    var versions: seq<File>
    ghost var mine: seq<nat>
    ghost var faults: nat
    ghost var races: nat

    method Interference()
      modifies this`versions
      ensures old(versions) <= versions
    {
      var more: seq<File> := *;
      versions := versions + more;
    }

    method GetFile() returns (ok: bool, file: File, id: nat)
      requires versions != []
      modifies this`versions, this`faults
      ensures old(versions) <= versions && faults == old(faults) + if ok then 0 else 1
      ensures ok ==> |old(versions)| - 1 <= id < |versions| && file == versions[id]
    {
      Interference();
      ok := Happens();
      if !ok { faults := faults + 1; }
      file, id := versions[|versions| - 1], |versions| - 1;
      Interference();
    }

    /** Commits only over the version named; the answer to a commit that landed may be lost. */
    method UpdateFile(data: Data, base: nat) returns (r: UpdateResult)
      modifies this
      ensures old(versions) <= versions
      ensures r.Landed? ==> base + 1 < |versions| && versions[base + 1] == Hosts(data, true) && mine == old(mine) + [base + 1]
      ensures r.Moved? ==> mine == old(mine)
      ensures r.UpdateFailed? ==> mine == old(mine) || mine == old(mine) + [base + 1]
      ensures faults == old(faults) + (if r.UpdateFailed? then 1 else 0)
      ensures races == old(races) + (if r.Moved? then 1 else 0)
    {
      Interference();
      var reached := Happens();
      if !reached {
        faults := faults + 1;
        return UpdateFailed;
      }
      if base + 1 != |versions| {
        races := races + 1;
        return Moved;
      }
      versions, mine := versions + [Hosts(data, true)], mine + [base + 1];
      Interference();
      var heard := Happens();
      if !heard { faults := faults + 1; }
      r := if heard then Landed else UpdateFailed;
    }
  }

  /** The live ConfigMap. patches lists what this writer put on it. */
  class LiveMap {
    var data: Data
    var rv: nat
    ghost var patches: seq<Data>
    ghost var faults: nat
    ghost var races: nat

    method Interference()
      modifies this`data, this`rv
      ensures old(rv) <= rv && (rv == old(rv) ==> data == old(data))
    {
      var changed := Happens();
      if changed {
        data, rv := *, rv + 1;
      }
    }

    method GetConfigMap() returns (ok: bool, version: nat)
      modifies this`data, this`rv, this`faults
      ensures old(rv) <= version <= rv && faults == old(faults) + if ok then 0 else 1
    {
      Interference();
      version := rv;
      ok := Happens();
      if !ok { faults := faults + 1; }
      Interference();
    }

    method PatchData(version: nat, patch: Data) returns (r: UpdateResult)
      modifies this
      ensures r.Landed? ==> patches == old(patches) + [patch]
      ensures r.Moved? ==> patches == old(patches)
      ensures r.UpdateFailed? ==> patches == old(patches) || patches == old(patches) + [patch]
      ensures patches != old(patches) ==> old(rv) <= version < rv
      ensures faults == old(faults) + (if r.UpdateFailed? then 1 else 0)
      ensures races == old(races) + (if r.Moved? then 1 else 0)
    {
      Interference();
      var reached := Happens();
      if !reached {
        faults := faults + 1;
        return UpdateFailed;
      }
      if version != rv {
        races := races + 1;
        return Moved;
      }
      data, rv, patches := data + patch, rv + 1, patches + [patch];
      Interference();
      var heard := Happens();
      if !heard { faults := faults + 1; }
      r := if heard then Landed else UpdateFailed;
    }
  }

  datatype Commit = Recorded(data: Data, made: bool) | NotRecorded

  /** The commit call ended with this version: made over the one just before it, or found as asked and, unless the
      edit has nothing to say to it, written as the program writes it. */
  ghost predicate EndsWith(versions: seq<File>, own: nat, edit: Data -> Edit, r: Commit)
    requires r.Recorded?
  {
    && own < |versions| && versions[own].Hosts? && versions[own].data == r.data
    && if r.made then own > 0 && versions[own - 1].Hosts? && edit(versions[own - 1].data) == Edited(r.data)
       else edit(r.data) == NoChange || (edit(r.data) == Edited(r.data) && versions[own].canonical)
  }

  /** A version that came up during the call and that the edit cannot be made to. */
  ghost predicate RefusedAt(before: seq<File>, versions: seq<File>, edit: Data -> Edit) {
    exists i: nat :: |before| <= i + 1 && i < |versions| && Unfit(versions, i, edit)
  }

  predicate Unfit(versions: seq<File>, i: nat, edit: Data -> Edit)
    requires i < |versions|
  {
    versions[i].Garbage? || edit(versions[i].data).Refused?
  }

  /** Applies the edit to what the repo holds, and again over the winner when the race is lost. It gives up only
      on a failed call, on a version the edit is refused on, or when every attempt came too late. */
  method DnsCommit(repo: IacRepo, edit: Data -> Edit) returns (r: Commit, ghost own: nat)
    requires repo.versions != []
    modifies repo
    ensures old(repo.versions) <= repo.versions
    ensures r.Recorded? ==> EndsWith(repo.versions, own, edit, r) && own + 1 >= |old(repo.versions)|
    ensures r.Recorded? ==> repo.mine == if r.made then old(repo.mine) + [own] else old(repo.mine)
    ensures r.NotRecorded? ==> old(repo.mine) <= repo.mine && |repo.mine| <= |old(repo.mine)| + 1
    ensures repo.faults == old(repo.faults) || (r.NotRecorded? && repo.faults == old(repo.faults) + 1)
    ensures r.NotRecorded? ==>
      (|| repo.faults > old(repo.faults)
       || repo.races == old(repo.races) + 3
       || RefusedAt(old(repo.versions), repo.versions, edit))
  {
    var attempt := 1;
    own := 0;
    while true
      invariant 1 <= attempt <= ATTEMPTS && old(repo.versions) <= repo.versions && repo.mine == old(repo.mine)
      invariant repo.faults == old(repo.faults) && repo.races == old(repo.races) + attempt - 1
      decreases ATTEMPTS - attempt
    {
      var ok, file, id := repo.GetFile();
      if !ok { return NotRecorded, 0; }
      assert file.Garbage? || edit(file.data).Refused? ==> Unfit(repo.versions, id, edit);
      if file.Garbage? { return NotRecorded, 0; }
      var edited := edit(file.data);
      match edited {
        case Refused(_) => return NotRecorded, 0;
        case NoChange => return Recorded(file.data, false), id;
        case Edited(data) =>
          if data == file.data && file.canonical { return Recorded(data, false), id; }
          var w := repo.UpdateFile(data, id);
          if w.Landed? { return Recorded(data, true), id + 1; }
          if w.UpdateFailed? || attempt == ATTEMPTS { return NotRecorded, 0; }
      }
      attempt := attempt + 1;
    }
  }

  ghost predicate Projects(versions: seq<File>, own: nat, seen: nat, data: Data, want: bool) {
    own <= seen < |versions| && versions[seen].Hosts? && versions[seen].data == data && (want ==> Answering(data))
  }

  /** A version that came up during the call and that is no hosts file, or answers nothing although it should. */
  ghost predicate EmptiedAt(before: seq<File>, versions: seq<File>, want: bool) {
    exists i: nat :: |before| <= i + 1 && i < |versions| && Unwanted(versions, i, want)
  }

  ghost predicate Unwanted(versions: seq<File>, i: nat, want: bool)
    requires i < |versions|
  {
    versions[i].Garbage? || (want && !Answering(versions[i].data))
  }

  /** Puts the repo's head on the cluster, read anew on every attempt; a repo that had records at the
      commit and has none now is refused. It gives up only on that, on a failed call, or when every attempt came
      too late. */
  method DnsProject(repo: IacRepo, live: LiveMap, want: bool, ghost own: nat) returns (ok: bool, ghost seen: nat)
    requires own < |repo.versions|
    modifies repo`versions, repo`faults, live
    ensures old(repo.versions) <= repo.versions
    ensures ok ==> |live.patches| == |old(live.patches)| + 1
    ensures old(live.patches) <= live.patches && |live.patches| <= |old(live.patches)| + 1
    ensures |live.patches| > |old(live.patches)| ==> Projects(repo.versions, own, seen, live.patches[|live.patches| - 1], want)
    ensures ok ==> repo.faults == old(repo.faults) && live.faults == old(live.faults)
    ensures !ok ==>
      (|| repo.faults + live.faults > old(repo.faults) + old(live.faults)
       || live.races == old(live.races) + 3
       || EmptiedAt(old(repo.versions), repo.versions, want))
  {
    var attempt := 1;
    seen := 0;
    while true
      invariant 1 <= attempt <= ATTEMPTS && old(repo.versions) <= repo.versions && live.patches == old(live.patches)
      invariant repo.faults == old(repo.faults) && live.faults == old(live.faults)
      invariant live.races == old(live.races) + attempt - 1
      decreases ATTEMPTS - attempt
    {
      var read, file, id := repo.GetFile();
      if !read { return false, 0; }
      if file.Garbage? {
        assert Unwanted(repo.versions, id, want);
        return false, 0;
      }
      var got, version := live.GetConfigMap();
      if !got { return false, 0; }
      HasRecordsIff(file.data);
      assert want && !Answering(file.data) ==> Unwanted(repo.versions, id, want);
      if !HasRecords(file.data) && want { return false, 0; }
      var w := live.PatchData(version, file.data);
      if w.Landed? { return true, id; }
      if w.UpdateFailed? || attempt == ATTEMPTS { return false, id; }
      attempt := attempt + 1;
    }
  }

  /** The one write path. Success means the repo held the edit at some version, made by this call or found
      there, and that the cluster was patched with that version or a later one; only then does it mean so. */
  method DnsMutate(repo: IacRepo, live: LiveMap, edit: Data -> Edit)
    returns (ok: bool, ghost r: Commit, ghost own: nat, ghost seen: nat)
    requires repo.versions != []
    modifies repo, live
    ensures old(repo.versions) <= repo.versions
    ensures ok ==> r.Recorded? && EndsWith(repo.versions, own, edit, r) && |live.patches| == |old(live.patches)| + 1
    ensures live.patches != old(live.patches) ==>
      && r.Recorded? && live.patches != []
      && Projects(repo.versions, own, seen, live.patches[|live.patches| - 1], Answering(r.data))
    ensures !ok ==>
      (|| repo.faults + live.faults > old(repo.faults) + old(live.faults)
       || repo.races == old(repo.races) + 3 || live.races == old(live.races) + 3
       || RefusedAt(old(repo.versions), repo.versions, edit)
       || (r.Recorded? && EmptiedAt(old(repo.versions), repo.versions, Answering(r.data))))
  {
    var c;
    c, own := DnsCommit(repo, edit);
    r, seen := c, 0;
    if c.NotRecorded? { return false, r, own, seen; }
    ghost var between := repo.versions;
    HasRecordsIff(c.data);
    ok, seen := DnsProject(repo, live, HasRecords(c.data), own);
    if EmptiedAt(between, repo.versions, Answering(c.data)) {
      var i: nat :| |between| <= i + 1 && i < |repo.versions| && Unwanted(repo.versions, i, Answering(c.data));
      assert EmptiedAt(old(repo.versions), repo.versions, Answering(c.data));
    }
  }
}
