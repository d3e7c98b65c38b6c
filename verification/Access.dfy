/** Building the chain of jump hosts to a server, and putting one host key policy on all of it. */
module Access {

  datatype Server = Server(hostname: string, ip: string, port: nat, user: string, caRole: string, jumpVia: string)

  /** Servers by hostname. */
  type Inventory = inv: map<string, Server> | forall h | h in inv :: inv[h].hostname == h witness map[]

  datatype Route = Hops(path: seq<Server>) | Cycle(name: string) | Missing(name: string)

  function Measure(inv: Inventory, sv: Server, seen: set<string>): nat {
    2 * |inv.Keys - seen| + if sv.hostname in inv then 0 else 1
  }

  /** Each step from a host not yet seen leaves fewer hosts to see, except a first one from outside. */
  lemma StepDecreases(inv: Inventory, sv: Server, seen: set<string>)
    requires sv.hostname !in seen && sv.jumpVia in inv
    ensures Measure(inv, inv[sv.jumpVia], seen + {sv.hostname}) < Measure(inv, sv, seen)
  {
    var now, next := inv.Keys - seen, inv.Keys - (seen + {sv.hostname});
    if sv.hostname in inv {
      assert next == now - {sv.hostname};
    } else {
      assert next == now;
    }
  }

  function Follow(inv: Inventory, sv: Server, seen: set<string>): Route
    decreases Measure(inv, sv, seen)
  {
    if sv.hostname in seen then Cycle(sv.hostname)
    else if sv.jumpVia == "" then Hops([sv])
    else if sv.jumpVia !in inv then Missing(sv.jumpVia)
    else
      StepDecreases(inv, sv, seen);
      var rest := Follow(inv, inv[sv.jumpVia], seen + {sv.hostname});
      if rest.Hops? then Hops([sv] + rest.path) else rest
  }

  predicate Step(inv: Inventory, a: Server, b: Server) {
    a.jumpVia != "" && a.jumpVia in inv && b == inv[a.jumpVia]
  }

  /** Hosts from sv on, each the jump host of the one before, along which no name repeats. */
  ghost predicate IsWalk(inv: Inventory, sv: Server, path: seq<Server>) {
    && path != [] && path[0] == sv
    && (forall i | 0 <= i < |path| - 1 :: Step(inv, path[i], path[i + 1]))
    && forall i, j | 0 <= i < j < |path| :: path[i].hostname != path[j].hostname
  }

  ghost predicate Avoids(path: seq<Server>, seen: set<string>) {
    forall i | 0 <= i < |path| :: path[i].hostname !in seen
  }

  function Via(path: seq<Server>): string
    requires path != []
  {
    path[|path| - 1].jumpVia
  }

  predicate Visits(path: seq<Server>, name: string) {
    exists i | 0 <= i < |path| :: path[i].hostname == name
  }

  /** The walk goes no further: there is no next host, or it has been seen. */
  ghost predicate Stops(inv: Inventory, seen: set<string>, path: seq<Server>)
    requires path != []
  {
    Via(path) == "" || Via(path) !in inv || Via(path) in seen || Visits(path, Via(path))
  }

  function Ended(inv: Inventory, path: seq<Server>): Route
    requires path != []
  {
    if Via(path) == "" then Hops(path) else if Via(path) !in inv then Missing(Via(path)) else Cycle(Via(path))
  }

  lemma WalkOn(inv: Inventory, sv: Server, seen: set<string>, rest: seq<Server>)
    requires sv.hostname !in seen && sv.jumpVia != "" && sv.jumpVia in inv
    requires IsWalk(inv, inv[sv.jumpVia], rest) && Avoids(rest, seen + {sv.hostname})
    requires Stops(inv, seen + {sv.hostname}, rest)
    ensures var path := [sv] + rest; IsWalk(inv, sv, path) && Avoids(path, seen) && Stops(inv, seen, path)
  {
    var path := [sv] + rest;
    forall i | 0 <= i < |path| - 1 ensures Step(inv, path[i], path[i + 1]) {
      assert i > 0 ==> path[i] == rest[i - 1];
    }
    assert Via(path) == Via(rest) && path[0].hostname == sv.hostname;
    if i :| 0 <= i < |rest| && rest[i].hostname == Via(rest) { assert path[i + 1].hostname == Via(path); }
  }

  /** Every walk comes to a stop. */
  lemma {:induction false} WalkExists(inv: Inventory, sv: Server, seen: set<string>) returns (path: seq<Server>)
    requires sv.hostname !in seen
    ensures IsWalk(inv, sv, path) && Avoids(path, seen) && Stops(inv, seen, path)
    decreases Measure(inv, sv, seen)
  {
    path := [sv];
    if sv.jumpVia != "" && sv.jumpVia in inv && sv.jumpVia !in seen && sv.jumpVia != sv.hostname {
      StepDecreases(inv, sv, seen);
      var rest := WalkExists(inv, inv[sv.jumpVia], seen + {sv.hostname});
      WalkOn(inv, sv, seen, rest);
      path := [sv] + rest;
    } else {
      assert sv.jumpVia == sv.hostname ==> path[0].hostname == Via(path);
    }
  }

  lemma RestOfWalk(inv: Inventory, sv: Server, seen: set<string>, path: seq<Server>)
    requires IsWalk(inv, sv, path) && Avoids(path, seen) && Stops(inv, seen, path) && |path| > 1
    ensures sv.jumpVia != "" && sv.jumpVia in inv
    ensures var rest, more := path[1..], seen + {sv.hostname};
      IsWalk(inv, inv[sv.jumpVia], rest) && Avoids(rest, more) && Stops(inv, more, rest) && Via(rest) == Via(path)
  {
    var rest := path[1..];
    assert Step(inv, path[0], path[1]);
    forall i | 0 <= i < |rest| - 1 ensures Step(inv, rest[i], rest[i + 1]) {
      assert Step(inv, path[i + 1], path[i + 2]);
    }
    if i :| 0 <= i < |path| && path[i].hostname == Via(path) {
      assert i > 0 ==> rest[i - 1].hostname == Via(rest);
    }
  }

  /** And where it stops decides what comes of following it. */
  lemma {:induction false} WalkDecides(inv: Inventory, sv: Server, seen: set<string>, path: seq<Server>)
    requires IsWalk(inv, sv, path) && Avoids(path, seen) && Stops(inv, seen, path)
    ensures Follow(inv, sv, seen) == Ended(inv, path)
    decreases |path|
  {
    if |path| > 1 {
      RestOfWalk(inv, sv, seen, path);
      StepDecreases(inv, sv, seen);
      WalkDecides(inv, inv[sv.jumpVia], seen + {sv.hostname}, path[1..]);
      assert path == [sv] + path[1..];
    } else {
      assert path == [sv];
      StopsAtOnce(inv, sv, seen);
    }
  }

  lemma StopsAtOnce(inv: Inventory, sv: Server, seen: set<string>)
    requires sv.hostname !in seen && Stops(inv, seen, [sv])
    ensures Follow(inv, sv, seen) == Ended(inv, [sv])
  {
    if sv.jumpVia != "" && sv.jumpVia in inv {
      StepDecreases(inv, sv, seen);
      assert Follow(inv, inv[sv.jumpVia], seen + {sv.hostname}) == Cycle(sv.jumpVia);
    }
  }

  /** A route from sv to a host reached directly, along which no name repeats. */
  ghost predicate IsRoute(inv: Inventory, sv: Server, path: seq<Server>) {
    IsWalk(inv, sv, path) && Via(path) == ""
  }

  /** Building succeeds exactly when there is such a route, and there is at most one. */
  lemma RouteIffExists(inv: Inventory, sv: Server, path: seq<Server>)
    ensures Follow(inv, sv, {}) == Hops(path) <==> IsRoute(inv, sv, path)
  {
    var walk := WalkExists(inv, sv, {});
    WalkDecides(inv, sv, {}, walk);
    if IsRoute(inv, sv, path) { WalkDecides(inv, sv, {}, path); }
  }

  /** A jump host is reported missing if and only if a walk comes to a host that names it and it is in no
      inventory; a cycle, if and only if one comes to a host that names one already on the walk. */
  lemma ErrorIff(inv: Inventory, sv: Server, name: string)
    ensures Follow(inv, sv, {}) == Missing(name)
      <==> exists path :: IsWalk(inv, sv, path) && Via(path) == name && name != "" && name !in inv
    ensures Follow(inv, sv, {}) == Cycle(name)
      <==> exists path :: IsWalk(inv, sv, path) && Via(path) == name && name != "" && name in inv && Visits(path, name)
  {
    var path := WalkExists(inv, sv, {});
    WalkDecides(inv, sv, {}, path);
    forall other | IsWalk(inv, sv, other) && Stops(inv, {}, other) ensures Follow(inv, sv, {}) == Ended(inv, other) {
      WalkDecides(inv, sv, {}, other);
    }
  }

  // ---- Targets ----

  datatype HostKeyPolicy = Prompt | Strict | AcceptNew

  class Target {
    const server: Server
    const skipDirect: bool
    var confirmHostKey: bool
    var autoAddHostKey: bool
    var jump: Target?

    constructor (server: Server, skipDirect: bool)
      ensures this.server == server && this.skipDirect == skipDirect && jump == null
      ensures !confirmHostKey && !autoAddHostKey
    {
      this.server, this.skipDirect := server, skipDirect;
      confirmHostKey, autoAddHostKey, jump := false, false, null;
    }
  }

  /** The names visited so far; all levels of one build share it. */
  class Seen {
    var names: set<string>

    constructor ()
      ensures names == {}
    {
      names := {};
    }
  }

  function After(chain: seq<Target>, i: nat): Target? {
    if i + 1 < |chain| then chain[i + 1] else null
  }

  /** chain is the linked list from its first target on. */
  ghost predicate Linked(chain: seq<Target>)
    reads chain
  {
    && (forall i | 0 <= i < |chain| :: chain[i].jump == After(chain, i))
    && forall i, j | 0 <= i < j < |chain| :: chain[i] != chain[j]
  }

  ghost predicate Mirrors(chain: seq<Target>, path: seq<Server>, directFirst: bool) {
    && |chain| == |path|
    && forall i | 0 <= i < |chain| :: chain[i].server == path[i] && chain[i].skipDirect == !directFirst
  }

  datatype Error = CycleDetected(name: string) | NoJumpHost(name: string) | NoError

  predicate Agrees(e: Error, r: Route) {
    match r
    case Hops(_) => e == NoError
    case Cycle(name) => e == CycleDetected(name)
    case Missing(name) => e == NoJumpHost(name)
  }

  ghost predicate Built(t: Target?, e: Error, chain: seq<Target>, r: Route, directFirst: bool)
    reads chain
  {
    && Agrees(e, r)
    && (t != null <==> r.Hops?)
    && (r.Hops? ==> chain != [] && chain[0] == t && Linked(chain) && Mirrors(chain, r.path, directFirst))
  }

  /** Hangs an already built chain behind a target. */
  method Prepend(made: Target, next: Target, ghost rest: seq<Target>)
    requires made !in rest && rest != [] && rest[0] == next && Linked(rest)
    modifies made
    ensures Linked([made] + rest)
  {
    made.jump := next;
    ghost var all := [made] + rest;
    forall i | 0 < i < |all| ensures all[i] != made && all[i].jump == After(all, i) {
      assert rest[i - 1] in rest && After(rest, i - 1) == After(all, i);
    }
  }

  lemma MirrorsOn(made: Target, rest: seq<Target>, sv: Server, path: seq<Server>, directFirst: bool)
    requires Mirrors(rest, path, directFirst) && made.server == sv && made.skipDirect == !directFirst
    ensures Mirrors([made] + rest, [sv] + path, directFirst)
  {}

  method BuildTargetSeen(inv: Inventory, sv: Server, directFirst: bool, seen: Seen)
    returns (t: Target?, e: Error, ghost chain: seq<Target>)
    modifies seen
    ensures Built(t, e, chain, Follow(inv, sv, old(seen.names)), directFirst)
    ensures forall c | c in chain :: fresh(c)
    decreases Measure(inv, sv, seen.names)
  {
    t, e, chain := null, NoError, [];
    if sv.hostname in seen.names { return null, CycleDetected(sv.hostname), []; }
    ghost var before := seen.names;
    seen.names := seen.names + {sv.hostname};
    var made := new Target(sv, !directFirst);
    if sv.jumpVia == "" { return made, NoError, [made]; }
    if sv.jumpVia !in inv { return null, NoJumpHost(sv.jumpVia), []; }
    StepDecreases(inv, sv, before);
    ghost var rest;
    var next;
    next, e, rest := BuildTargetSeen(inv, inv[sv.jumpVia], directFirst, seen);
    if e != NoError { return null, e, []; }
    MirrorsOn(made, rest, sv, Follow(inv, inv[sv.jumpVia], before + {sv.hostname}).path, directFirst);
    Prepend(made, next, rest);
    t, chain := made, [made] + rest;
  }

  /** The route to a server, as targets linked through their jump hosts; or why there is none. */
  method BuildTarget(inv: Inventory, sv: Server, directFirst: bool) returns (t: Target?, e: Error,
      ghost chain: seq<Target>)
    ensures t != null <==> e == NoError
    ensures t != null ==> chain != [] && chain[0] == t && Linked(chain)
    ensures t != null ==> forall path | IsRoute(inv, sv, path) :: Mirrors(chain, path, directFirst)
    ensures t != null <==> exists path :: IsRoute(inv, sv, path)
    ensures Agrees(e, Follow(inv, sv, {}))
    ensures forall c | c in chain :: fresh(c)
  {
    var seen := new Seen();
    t, e, chain := BuildTargetSeen(inv, sv, directFirst, seen);
    forall path ensures Follow(inv, sv, {}) == Hops(path) <==> IsRoute(inv, sv, path) {
      RouteIffExists(inv, sv, path);
    }
  }

  /** Puts the policy on every hop; no hop is left to both ask and add on its own. */
  method Apply(p: HostKeyPolicy, t: Target?, ghost chain: seq<Target>)
    requires Linked(chain) && (if t == null then chain == [] else chain != [] && chain[0] == t)
    modifies chain
    ensures Linked(chain)
    ensures forall c | c in chain :: c.confirmHostKey == p.Prompt? && c.autoAddHostKey == p.AcceptNew?
  {
    var cur := t;
    ghost var k := 0;
    while cur != null
      invariant 0 <= k <= |chain| && cur == (if k < |chain| then chain[k] else null)
      invariant Linked(chain)
      invariant forall i | 0 <= i < k :: chain[i].confirmHostKey == p.Prompt? && chain[i].autoAddHostKey == p.AcceptNew?
      decreases |chain| - k
    {
      cur.confirmHostKey, cur.autoAddHostKey := p == Prompt, p == AcceptNew;
      cur, k := cur.jump, k + 1;
    }
  }
}
