/** The command gate: Vault policies decide live, command grants are read from Postgres, and a grant
    confirmed earlier may stand in for ssh while Postgres is unreachable. */
module Authz {
  import opened Basics

  datatype Class = Read | Admin | Mutate

  datatype Command = Command(name: string, kind: Class)

  /** The live token lookup. */
  datatype Token = NoToken | Token(identity: string, policies: seq<string>)

  /** One attempt to read a user's grants. */
  datatype Lookup = Unreachable | Uninitialized | Found(commands: map<string, bool>)

  /** Grants as last confirmed, and when. */
  datatype CachedGrant = CachedGrant(commands: set<string>, confirmedAt: int)

  type Grants = map<string, CachedGrant>

  datatype Offline = NotConfigured | Configured(window: int)

  datatype Config = Config(admins: seq<string>, offline: Offline)

  datatype Reason = Ungated | ByPolicy | ByClass | ByGrant | ByCache(age: int)

  datatype Verdict = Allow(reason: Reason) | Deny

  const OFFLINE_ALLOWED := {"ssh"}

  predicate HasAdminPolicy(policies: seq<string>, admins: seq<string>) {
    exists a | a in admins :: a in policies
  }

  predicate Allows(admin: bool, commands: map<string, bool>, name: string) {
    admin || ("*" in commands && commands["*"]) || (name in commands && commands[name])
  }

  function Granted(commands: map<string, bool>): set<string> {
    set c | c in commands && commands[c]
  }

  predicate Has(g: CachedGrant, name: string) {
    "*" in g.commands || name in g.commands
  }

  function Age(g: CachedGrant, now: int): (age: int)
    ensures age >= 0
  {
    if now - g.confirmedAt > 0 then now - g.confirmedAt else 0
  }

  predicate Expired(g: CachedGrant, now: int, window: int) {
    window <= 0 || Age(g, now) > window
  }

  /** A confirmed grant covers a command exactly when the online gate would have allowed it. */
  lemma CachedAsOnline(commands: map<string, bool>, at: int, name: string)
    ensures Has(CachedGrant(Granted(commands), at), name) <==> Allows(false, commands, name)
  {}

  function OfflineVerdict(c: Config, cache: Grants, cmd: Command, identity: string, now: int): Verdict {
    if c.offline.NotConfigured? || c.offline.window <= 0 then Deny
    else if cmd.name !in OFFLINE_ALLOWED || identity !in cache then Deny
    else
      var g := cache[identity];
      if Expired(g, now, c.offline.window) || !Has(g, cmd.name) then Deny else Allow(ByCache(Age(g, now)))
  }

  /** The verdict on one command. */
  function Decide(c: Config, cache: Grants, cmd: Command, token: Token, found: Lookup, now: int): Verdict {
    if cmd.name == "" then Allow(Ungated)
    else if token.NoToken? then Deny
    else if HasAdminPolicy(token.policies, c.admins) then Allow(ByPolicy)
    else if cmd.kind.Read? then Allow(ByClass)
    else if cmd.kind.Admin? || token.identity == "" then Deny
    else match found
      case Unreachable => OfflineVerdict(c, cache, cmd, token.identity, now)
      case Uninitialized => Deny
      case Found(commands) => if Allows(false, commands, cmd.name) then Allow(ByGrant) else Deny
  }

  /** One of the token's policies is an admin policy. */
  predicate IsAdmin(c: Config, token: Token) {
    token.Token? && exists p | p in token.policies :: p in c.admins
  }

  /** Postgres grants the command, by its name or by a star. */
  predicate GrantedBy(found: Lookup, name: string) {
    found.Found? && ((name in found.commands && found.commands[name]) || ("*" in found.commands && found.commands["*"]))
  }

  /** What is allowed by class, said over the policies, whatever is cached and whatever Postgres answers: an
      admin command only to an admin, a read to every live token, and a command without a gate to anyone. */
  lemma AllowedByClass(c: Config, cache: Grants, cmd: Command, token: Token, found: Lookup, now: int)
    ensures var v := Decide(c, cache, cmd, token, found, now);
      && (cmd.name == "" ==> v == Allow(Ungated))
      && (cmd.name != "" && cmd.kind.Admin? ==> (v.Allow? <==> IsAdmin(c, token)))
      && (cmd.name != "" && cmd.kind.Read? ==> (v.Allow? <==> token.Token?))
  {}

  /** With Postgres answering, a command that changes something is allowed only to an admin or to a named
      caller whom Postgres grants it. */
  lemma MutateAllowedIff(c: Config, cache: Grants, cmd: Command, token: Token, found: Lookup, now: int)
    requires cmd.name != "" && cmd.kind.Mutate? && !found.Unreachable?
    ensures Decide(c, cache, cmd, token, found, now).Allow?
      <==> IsAdmin(c, token) || (token.Token? && token.identity != "" && GrantedBy(found, cmd.name))
  {}

  /** Snapshot shows an admin as one, and anyone else with what Postgres holds for them. */
  lemma SnapshotShows(c: Config, token: Token, found: Lookup, name: string)
    ensures var seen := Seen(c, token, found);
      && (seen.View? <==> IsAdmin(c, token) || (token.Token? && !found.Unreachable?))
      && (seen.View? ==> (seen.admin <==> IsAdmin(c, token)))
      && (seen.View? ==> (Allows(seen.admin, seen.commands, name) <==> IsAdmin(c, token) || GrantedBy(found, name)))
  {}

  /** Whether Check gets as far as reading grants. */
  predicate ReadsGrants(c: Config, cmd: Command, token: Token) {
    cmd.name != "" && cmd.kind.Mutate? && token.Token? && !HasAdminPolicy(token.policies, c.admins) && token.identity != ""
  }

  /** What Snapshot reports; an error when the token or the grants cannot be read. */
  datatype View = Failed | View(admin: bool, commands: map<string, bool>)

  function Seen(c: Config, token: Token, found: Lookup): View {
    if token.NoToken? then Failed
    else if HasAdminPolicy(token.policies, c.admins) then View(true, map[])
    else match found
      case Unreachable => Failed
      case Uninitialized => View(false, map[])
      case Found(commands) => View(false, commands)
  }

  predicate Anonymous(c: Config, token: Token) {
    token.Token? && token.identity == "" && !HasAdminPolicy(token.policies, c.admins)
  }

  /** With Postgres answering, Check and Snapshot agree on a mutate command if and only if the caller
      has an identity, or has none and is granted nothing: Check refuses a nameless caller. */
  lemma CheckAgreesWithSnapshotIff(c: Config, cache: Grants, cmd: Command, token: Token, found: Lookup, now: int)
    requires cmd.name != "" && cmd.kind.Mutate? && !found.Unreachable?
    ensures var seen := Seen(c, token, found);
      (Decide(c, cache, cmd, token, found, now).Allow? <==> seen.View? && Allows(seen.admin, seen.commands, cmd.name))
      <==> !(Anonymous(c, token) && found.Found? && Allows(false, found.commands, cmd.name))
  {}

  /** A caller without a name, as a member may be added, who is granted everything: Snapshot shows every
      command allowed, and Check denies each one that needs a grant. */
  lemma NamelessWitness(c: Config, cache: Grants, cmd: Command, now: int)
    requires cmd.name != "" && cmd.kind.Mutate?
    ensures var token, found := Token("", []), Found(map["*" := true]);
      && Seen(c, token, found) == View(false, map["*" := true]) && Allows(false, map["*" := true], cmd.name)
      && Decide(c, cache, cmd, token, found, now) == Deny
  {}

  // ---- Runs ----

  /** What the grant cache has gone through: a confirmation written to it, or the cache lost. */
  datatype Entry = Confirmed(identity: string, commands: map<string, bool>, at: int) | Wiped

  function CacheOf(log: seq<Entry>): Grants {
    if log == [] then map[]
    else
      var before, e := CacheOf(log[..|log| - 1]), log[|log| - 1];
      if e.Wiped? then map[] else before[e.identity := CachedGrant(Granted(e.commands), e.at)]
  }

  /** The last confirmation of this identity, with the cache not lost since. */
  predicate IsLatest(log: seq<Entry>, i: nat, identity: string) {
    && i < |log| && log[i].Confirmed? && log[i].identity == identity
    && forall j | i < j < |log| :: log[j].Confirmed? && log[j].identity != identity
  }

  lemma {:induction false} CacheIsLatest(log: seq<Entry>, identity: string) returns (i: nat)
    ensures identity in CacheOf(log) ==>
      IsLatest(log, i, identity) && CacheOf(log)[identity] == CachedGrant(Granted(log[i].commands), log[i].at)
    ensures identity !in CacheOf(log) ==> forall k: nat :: !IsLatest(log, k, identity)
  {
    i := 0;
    if log != [] {
      var n := |log| - 1;
      i := CacheIsLatest(log[..n], identity);
      if log[n].Confirmed? && log[n].identity == identity {
        i := n;
      } else {
        forall k: nat | IsLatest(log, k, identity) ensures IsLatest(log[..n], k, identity) {}
      }
    }
  }

  lemma OnlyOneIsLatest(log: seq<Entry>, i: nat, j: nat, identity: string)
    requires IsLatest(log, i, identity) && IsLatest(log, j, identity)
    ensures i == j
  {}

  predicate Backs(c: Config, log: seq<Entry>, i: nat, identity: string, name: string, now: int) {
    && IsLatest(log, i, identity)
    && Allows(false, log[i].commands, name)
    && c.offline.Configured? && 0 < c.offline.window && now - log[i].at <= c.offline.window
  }

  /** While Postgres is unreachable a command is allowed if and only if it is ssh and the identity's
      latest confirmation, which online would have allowed it, is within the window. */
  lemma OfflineAllowedIffBacked(c: Config, log: seq<Entry>, cmd: Command, token: Token, now: int)
    requires ReadsGrants(c, cmd, token)
    ensures Decide(c, CacheOf(log), cmd, token, Unreachable, now).Allow?
      <==> cmd.name == "ssh" && exists i: nat :: Backs(c, log, i, token.identity, cmd.name, now)
  {
    var i := CacheIsLatest(log, token.identity);
    if token.identity in CacheOf(log) {
      CachedAsOnline(log[i].commands, log[i].at, cmd.name);
      forall k: nat | IsLatest(log, k, token.identity) ensures k == i {
        OnlyOneIsLatest(log, i, k, token.identity);
      }
      assert Decide(c, CacheOf(log), cmd, token, Unreachable, now).Allow? && cmd.name == "ssh" ==>
        Backs(c, log, i, token.identity, cmd.name, now);
    }
  }

  /** One use of the gate: a check, a snapshot, or the cache file lost. recorded says whether the
      cache could be written. */
  datatype Use =
    | Check(cmd: Command, token: Token, found: Lookup, recorded: bool, now: int)
    | Look(token: Token, found: Lookup, recorded: bool, now: int)
    | Wipe

  predicate Records(c: Config, u: Use) {
    && !u.Wipe? && u.found.Found? && u.recorded && c.offline.Configured? && u.token.Token? && u.token.identity != ""
    && !HasAdminPolicy(u.token.policies, c.admins)
    && (u.Check? ==> ReadsGrants(c, u.cmd, u.token))
  }

  function Logged(c: Config, log: seq<Entry>, u: Use): seq<Entry> {
    if u.Wipe? then log + [Wiped]
    else if Records(c, u) then log + [Confirmed(u.token.identity, u.found.commands, u.now)]
    else log
  }

  function LogOf(c: Config, uses: seq<Use>): seq<Entry> {
    if uses == [] then [] else Logged(c, LogOf(c, uses[..|uses| - 1]), uses[|uses| - 1])
  }

  predicate ConfirmedBy(c: Config, u: Use, e: Entry) {
    Records(c, u) && e == Confirmed(u.token.identity, u.found.commands, u.now)
  }

  predicate ConfirmsOther(c: Config, u: Use, identity: string) {
    !u.Wipe? && (Records(c, u) ==> u.token.identity != identity)
  }

  lemma {:induction false} LatestHasItsLookup(c: Config, uses: seq<Use>, identity: string, i: nat) returns (k: nat)
    requires IsLatest(LogOf(c, uses), i, identity)
    ensures k < |uses| && ConfirmedBy(c, uses[k], LogOf(c, uses)[i])
    ensures forall j | k < j < |uses| :: ConfirmsOther(c, uses[j], identity)
  {
    var n := |uses| - 1;
    var log, before := LogOf(c, uses), LogOf(c, uses[..n]);
    if ConfirmedBy(c, uses[n], log[i]) && i == |log| - 1 {
      k := n;
    } else {
      assert forall j | 0 <= j < |before| :: before[j] == log[j];
      assert |log| > |before| ==> log[|before|].Confirmed? && log[|before|].identity != identity;
      k := LatestHasItsLookup(c, uses[..n], identity, i);
    }
  }

  /** Whatever the clock did and whichever writes of the cache failed, behind an offline allow there is
      an earlier use that reached Postgres, was recorded within the window, and would have been allowed
      the command online; no later lookup of that identity was recorded, nor the cache lost. */
  lemma OfflineAllowHasItsLookup(c: Config, uses: seq<Use>, cmd: Command, token: Token, now: int) returns (k: nat)
    requires ReadsGrants(c, cmd, token)
    requires Decide(c, CacheOf(LogOf(c, uses)), cmd, token, Unreachable, now).Allow?
    ensures cmd.name == "ssh" && k < |uses| && Records(c, uses[k]) && uses[k].token.identity == token.identity
    ensures now - uses[k].now <= c.offline.window
    ensures Decide(c, map[], cmd, token, uses[k].found, now) == Allow(ByGrant)
    ensures forall j | k < j < |uses| :: ConfirmsOther(c, uses[j], token.identity)
  {
    var i := BackOf(c, LogOf(c, uses), cmd, token, now);
    k := LatestHasItsLookup(c, uses, token.identity, i);
  }

  lemma BackOf(c: Config, log: seq<Entry>, cmd: Command, token: Token, now: int) returns (i: nat)
    requires ReadsGrants(c, cmd, token) && Decide(c, CacheOf(log), cmd, token, Unreachable, now).Allow?
    ensures cmd.name == "ssh" && Backs(c, log, i, token.identity, cmd.name, now)
    ensures Decide(c, map[], cmd, token, Found(log[i].commands), now) == Allow(ByGrant)
  {
    OfflineAllowedIffBacked(c, log, cmd, token, now);
    i :| Backs(c, log, i, token.identity, cmd.name, now);
  }

  // ---- The authorizer and the cache it keeps ----

  /** The grants part of the local snapshot file. */
  class GrantCache {
    var grants: Grants

    constructor ()
      ensures grants == map[]
    {
      grants := map[];
    }

    method Grant(identity: string) returns (g: Option<CachedGrant>)
      ensures g == if identity in grants then Some(grants[identity]) else None
    {
      return if identity in grants then Some(grants[identity]) else None;
    }

    method SetGrants(identity: string, commands: seq<string>, now: int)
      modifies this
      ensures grants == if identity == "" then old(grants)
                        else old(grants)[identity := CachedGrant((set s | s in commands), now)]
    {
      if identity == "" { return; }
      grants := grants[identity := CachedGrant((set s | s in commands), now)];
    }
  }

  datatype Loaded = LoadFailed | NoSchema | Loaded(commands: map<string, bool>)

  class Authorizer {
    const c: Config
    const cache: GrantCache
    ghost var log: seq<Entry>

    ghost predicate Valid()
      reads this, cache
    {
      cache.grants == CacheOf(log)
    }

    constructor (c: Config, cache: GrantCache)
      requires cache.grants == map[]
      ensures Valid() && log == [] && this.c == c && this.cache == cache
    {
      this.c, this.cache, log := c, cache, [];
    }

    /** Caches a freshly confirmed grant set, when offline use is configured and the cache can be written. */
    method RecordGrants(identity: string, commands: map<string, bool>, recorded: bool, now: int)
      requires Valid()
      modifies this`log, cache
      ensures Valid()
      ensures log == if c.offline.Configured? && identity != "" && recorded
                     then old(log) + [Confirmed(identity, commands, now)] else old(log)
    {
      if c.offline.NotConfigured? || identity == "" { return; }
      var list, todo := [], commands.Keys;
      while todo != {}
        invariant todo <= commands.Keys
        invariant forall s :: s in list <==> s in Granted(commands) && s !in todo
      {
        var s :| s in todo;
        todo := todo - {s};
        if commands[s] { list := list + [s]; }
      }
      if recorded {
        cache.SetGrants(identity, list, now);
        assert (set s | s in list) == Granted(commands);
        log := log + [Confirmed(identity, commands, now)];
      }
    }

    method LoadGrants(identity: string, found: Lookup, recorded: bool, now: int) returns (r: Loaded)
      requires Valid()
      modifies this`log, cache
      ensures Valid()
      ensures r == match found
                   case Unreachable => LoadFailed
                   case Uninitialized => NoSchema
                   case Found(commands) => Loaded(commands)
      ensures log == if found.Found? && c.offline.Configured? && identity != "" && recorded
                     then old(log) + [Confirmed(identity, found.commands, now)] else old(log)
    {
      match found
      case Unreachable => r := LoadFailed;
      case Uninitialized => r := NoSchema;
      case Found(commands) =>
        RecordGrants(identity, commands, recorded, now);
        r := Loaded(commands);
    }

    method CheckOffline(cmd: Command, identity: string, now: int) returns (v: Verdict)
      ensures v == OfflineVerdict(c, cache.grants, cmd, identity, now)
    {
      if c.offline.NotConfigured? || c.offline.window <= 0 { return Deny; }
      if cmd.name !in OFFLINE_ALLOWED { return Deny; }
      var g := cache.Grant(identity);
      if g.None? || Expired(g.value, now, c.offline.window) || !Has(g.value, cmd.name) { return Deny; }
      return Allow(ByCache(Age(g.value, now)));
    }

    method Check(cmd: Command, token: Token, found: Lookup, recorded: bool, now: int) returns (v: Verdict)
      requires Valid()
      modifies this`log, cache
      ensures Valid() && v == Decide(c, old(cache.grants), cmd, token, found, now)
      ensures log == Logged(c, old(log), Use.Check(cmd, token, found, recorded, now))
      ensures cmd.name != "" && cmd.kind.Admin? ==> (v.Allow? <==> IsAdmin(c, token))
      ensures cmd.name != "" && cmd.kind.Read? ==> (v.Allow? <==> token.Token?)
      ensures cmd.name != "" && cmd.kind.Mutate? && !found.Unreachable? ==>
        (v.Allow? <==> IsAdmin(c, token) || (token.Token? && token.identity != "" && GrantedBy(found, cmd.name)))
    {
      if cmd.name == "" { return Allow(Ungated); }
      if token.NoToken? { return Deny; }
      if HasAdminPolicy(token.policies, c.admins) { return Allow(ByPolicy); }
      match cmd.kind
      case Read => return Allow(ByClass);
      case Admin => return Deny;
      case Mutate =>
        if token.identity == "" { return Deny; }
        var loaded := LoadGrants(token.identity, found, recorded, now);
        match loaded
        case LoadFailed => v := CheckOffline(cmd, token.identity, now);
        case NoSchema => v := Deny;
        case Loaded(commands) => v := if Allows(false, commands, cmd.name) then Allow(ByGrant) else Deny;
    }

    method Snapshot(token: Token, found: Lookup, recorded: bool, now: int) returns (seen: View)
      requires Valid()
      modifies this`log, cache
      ensures Valid() && seen == Seen(c, token, found)
      ensures log == Logged(c, old(log), Look(token, found, recorded, now))
    {
      if token.NoToken? { return Failed; }
      if HasAdminPolicy(token.policies, c.admins) { return View(true, map[]); }
      var loaded := LoadGrants(token.identity, found, recorded, now);
      match loaded
      case LoadFailed => return Failed;
      case NoSchema => return View(false, map[]);
      case Loaded(commands) => return View(false, commands);
    }
  }
}
