/** One Vault database credential kept alive across many connections. Times are seconds. */
module LeaseCache {

  /** The default and the maximum TTL of a Vault role. */
  datatype Role = Role(ttl: nat, maxTtl: nat)

  /** How much lease a returned credential must still have, and how much a renewal asks for. */
  datatype Policy = Policy(floor: nat, increment: nat)

  /** What became of a call: it never reached Vault, Vault acted and the answer was lost, or all went well. */
  datatype Answer = Lost | Unheard | Heard(renewable: bool)

  /** When Vault served a call, when it was back, and when the result was checked against the floor. */
  datatype Rpc = Rpc(answer: Answer, served: int, back: int, checked: int)

  /** Vault's side of a lease. */
  datatype Lease = Lease(issuedAt: int, due: int)

  /** The client's side: which lease, and when the client believes it expires. */
  datatype Credential = NoCredential | Credential(id: nat, renewable: bool, expires: int)

  /** A credential handed out, and the time of the check it passed. */
  datatype Grant = Grant(id: nat, at: int)

  datatype State = State(leases: seq<Lease>, cred: Credential, grants: seq<Grant>, clock: int)

  const MAX_CONN_AGE: nat := 20 * 60 + 5 * 60
  const SAFETY_MARGIN: nat := 5 * 60
  const RENEWAL_INCREMENT: nat := 24 * 60 * 60

  function Min(a: int, b: int): int { if a < b then a else b }

  predicate Usable(p: Policy, c: Credential, now: int) {
    c.Credential? && c.expires - now >= p.floor
  }

  /** Vault extends a live lease, never past its maximum. */
  function Extended(role: Role, p: Policy, l: Lease, at: int): Lease {
    l.(due := Min(at + p.increment, l.issuedAt + role.maxTtl))
  }

  /** A renewal: an error of any kind drops the credential. */
  function Renewed(role: Role, p: Policy, s: State, rpc: Rpc): State
    requires s.cred.Credential? && s.cred.id < |s.leases|
  {
    var id := s.cred.id;
    if rpc.answer.Lost? || rpc.served > s.leases[id].due then s.(cred := NoCredential)
    else
      var l := Extended(role, p, s.leases[id], rpc.served);
      s.(leases := s.leases[id := l],
         cred := if !rpc.answer.Heard? then NoCredential
                 else Credential(id, rpc.answer.renewable, rpc.back + (l.due - rpc.served)))
  }

  /** A new lease; the credential is kept whether or not it passes the floor. */
  function Issued(role: Role, s: State, rpc: Rpc): State {
    if rpc.answer.Lost? then s
    else
      s.(leases := s.leases + [Lease(rpc.served, rpc.served + role.ttl)],
         cred := if rpc.answer.Heard? then Credential(|s.leases|, rpc.answer.renewable, rpc.back + role.ttl) else s.cred)
  }

  datatype Call = Call(now: int, renewal: Rpc, issue: Rpc)

  function Granted(s: State, id: nat, at: int): State {
    s.(grants := s.grants + [Grant(id, at)], clock := at)
  }

  /** Whether a renewal is tried, and the state it leaves. */
  predicate TriesRenewal(p: Policy, s: State, c: Call) {
    !Usable(p, s.cred, c.now) && s.cred.Credential? && s.cred.renewable
  }

  function AfterRenewal(role: Role, p: Policy, s: State, c: Call): State
    requires s.cred.Credential? ==> s.cred.id < |s.leases|
  {
    if TriesRenewal(p, s, c) then Renewed(role, p, s, c.renewal) else s
  }

  /** One Get: reuse, else renew, else issue. It hands out a credential or reports an error. */
  function Got(role: Role, p: Policy, s: State, c: Call): State
    requires s.cred.Credential? ==> s.cred.id < |s.leases|
  {
    var renewed := AfterRenewal(role, p, s, c);
    var issued := Issued(role, renewed, c.issue);
    if Usable(p, s.cred, c.now) then Granted(s, s.cred.id, c.now)
    else if TriesRenewal(p, s, c) && Usable(p, renewed.cred, c.renewal.checked) then
      Granted(renewed, renewed.cred.id, c.renewal.checked)
    else if c.issue.answer.Heard? && Usable(p, issued.cred, c.issue.checked) then
      Granted(issued, issued.cred.id, c.issue.checked)
    else issued.(clock := c.issue.checked)
  }

  predicate InTurn(rpc: Rpc, from: int, latency: nat, pause: nat) {
    from <= rpc.served <= rpc.back <= rpc.checked && rpc.back - rpc.served <= latency && rpc.checked - rpc.back <= pause
  }

  /** Time only moves forward, and answers take at most the latency. */
  predicate Timely(s: State, c: Call, latency: nat, pause: nat) {
    s.clock <= c.now && InTurn(c.renewal, c.now, latency, pause) && InTurn(c.issue, c.renewal.checked, latency, pause)
  }

  // ---- The server-side lease outlives the connection ----

  predicate Sound(role: Role, l: Lease) {
    l.issuedAt <= l.due <= l.issuedAt + role.maxTtl
  }

  /** The client never believes a lease shorter than it is, nor longer by more than the latency. */
  predicate Tracks(s: State, latency: nat) {
    s.cred.Credential? ==>
      s.cred.id < |s.leases| && s.leases[s.cred.id].due <= s.cred.expires <= s.leases[s.cred.id].due + latency
  }

  predicate Covers(p: Policy, leases: seq<Lease>, g: Grant, latency: nat) {
    g.id < |leases| && leases[g.id].due >= g.at + p.floor - latency
  }

  ghost predicate Safe(role: Role, p: Policy, s: State, latency: nat) {
    && Tracks(s, latency)
    && (forall i | 0 <= i < |s.leases| :: Sound(role, s.leases[i]))
    && forall i | 0 <= i < |s.grants| :: Covers(p, s.leases, s.grants[i], latency)
  }

  predicate Fits(role: Role, p: Policy) {
    role.ttl <= role.maxTtl && p.floor <= p.increment
  }

  /** A renewal the cache asks for never shortens a lease. */
  lemma RenewalExtends(role: Role, p: Policy, s: State, c: Call, latency: nat)
    requires Fits(role, p) && Safe(role, p, s, latency) && TriesRenewal(p, s, c) && c.now <= c.renewal.served
    ensures var l := s.leases[s.cred.id]; Extended(role, p, l, c.renewal.served).due >= l.due
  {}

  lemma RenewalSafe(role: Role, p: Policy, s: State, c: Call, latency: nat, pause: nat)
    requires Fits(role, p) && Safe(role, p, s, latency) && Timely(s, c, latency, pause)
    ensures Safe(role, p, AfterRenewal(role, p, s, c), latency)
  {
    if TriesRenewal(p, s, c) {
      RenewalExtends(role, p, s, c, latency);
      var r := AfterRenewal(role, p, s, c);
      forall i | 0 <= i < |r.grants| ensures Covers(p, r.leases, r.grants[i], latency) {
        assert Covers(p, s.leases, s.grants[i], latency);
      }
    }
  }

  lemma IssueSafe(role: Role, p: Policy, s: State, rpc: Rpc, latency: nat)
    requires Fits(role, p) && Safe(role, p, s, latency) && 0 <= rpc.back - rpc.served <= latency
    ensures Safe(role, p, Issued(role, s, rpc), latency)
  {
    var r := Issued(role, s, rpc);
    forall i | 0 <= i < |r.grants| ensures Covers(p, r.leases, r.grants[i], latency) {
      assert Covers(p, s.leases, s.grants[i], latency);
    }
  }

  lemma GetSafe(role: Role, p: Policy, s: State, c: Call, latency: nat, pause: nat)
    requires Fits(role, p) && Safe(role, p, s, latency) && Timely(s, c, latency, pause)
    ensures Safe(role, p, Got(role, p, s, c), latency)
    ensures s.clock <= Got(role, p, s, c).clock
  {
    RenewalSafe(role, p, s, c, latency, pause);
    IssueSafe(role, p, AfterRenewal(role, p, s, c), c.issue, latency);
  }

  /** The states a cache goes through. */
  ghost predicate IsRun(role: Role, p: Policy, run: seq<State>, latency: nat, pause: nat) {
    && |run| > 0 && run[0].leases == [] && run[0].cred == NoCredential && run[0].grants == []
    && forall i | 0 <= i < |run| - 1 :: Next(role, p, run[i], run[i + 1], latency, pause)
  }

  ghost predicate Next(role: Role, p: Policy, s: State, s': State, latency: nat, pause: nat) {
    (s.cred.Credential? ==> s.cred.id < |s.leases|) &&
    exists c :: Timely(s, c, latency, pause) && s' == Got(role, p, s, c)
  }

  lemma {:induction false} RunSafe(role: Role, p: Policy, run: seq<State>, latency: nat, pause: nat, k: nat)
    requires Fits(role, p) && IsRun(role, p, run, latency, pause) && k < |run|
    ensures Safe(role, p, run[k], latency)
  {
    if k > 0 {
      RunSafe(role, p, run, latency, pause, k - 1);
      assert Next(role, p, run[k - 1], run[k], latency, pause);
      var c :| Timely(run[k - 1], c, latency, pause) && run[k] == Got(role, p, run[k - 1], c);
      GetSafe(role, p, run[k - 1], c, latency, pause);
    }
  }

  /** Whatever answers were lost on the way, a connection opened with a credential Get returned is
      closed before Vault's lease ends, now and after any later Get, as long as the answer's latency
      and the delay in connecting fit the safety margin. */
  lemma CredentialOutlivesConnection(role: Role, run: seq<State>, latency: nat, pause: nat, k: nat, g: Grant,
      open: int, delay: nat)
    requires var p := Policy(MAX_CONN_AGE + SAFETY_MARGIN, RENEWAL_INCREMENT);
      role.ttl <= role.maxTtl && IsRun(role, p, run, latency, pause) && k < |run| && g in run[k].grants
    requires open <= g.at + delay && latency + delay <= 5 * 60
    ensures g.id < |run[k].leases| && open + 25 * 60 <= run[k].leases[g.id].due
  {
    var p := Policy(MAX_CONN_AGE + SAFETY_MARGIN, RENEWAL_INCREMENT);
    RunSafe(role, p, run, latency, pause, k);
    var i :| 0 <= i < |run[k].grants| && run[k].grants[i] == g;
    assert Covers(p, run[k].leases, run[k].grants[i], latency);
  }

  // ---- How often a role is created ----

  predicate Answered(c: Call) {
    c.renewal.answer == Heard(true) && c.issue.answer == Heard(true)
  }

  /** With every call answered the cache holds the newest lease, which runs for its TTL at least. */
  predicate HoldsNewest(role: Role, s: State) {
    if s.leases == [] then s.cred == NoCredential
    else
      var last := |s.leases| - 1;
      s.cred.Credential? && s.cred.id == last && s.cred.renewable && s.leases[last].due >= s.leases[last].issuedAt + role.ttl
  }

  predicate Gap(leases: seq<Lease>, k: nat, gap: int)
    requires 0 < k < |leases|
  {
    leases[k].issuedAt - leases[k - 1].issuedAt > gap
  }

  function ShortestGap(role: Role, p: Policy, pause: nat): int {
    Min(role.ttl, role.maxTtl - p.floor - pause)
  }

  /** A new lease is only taken when the last one is over, or is so old that a renewal no longer helps. */
  lemma IssueComesLate(role: Role, p: Policy, s: State, c: Call, latency: nat, pause: nat)
    requires Fits(role, p) && p.floor + pause <= p.increment && Safe(role, p, s, latency) && Timely(s, c, latency, pause)
    requires Answered(c) && HoldsNewest(role, s)
    ensures var s' := Got(role, p, s, c);
      && HoldsNewest(role, s') && |s.leases| <= |s'.leases| <= |s.leases| + 1
      && (forall i | 0 <= i < |s.leases| :: s'.leases[i].issuedAt == s.leases[i].issuedAt)
      && (|s'.leases| > |s.leases| > 0 ==>
            Gap(s'.leases, |s.leases|, ShortestGap(role, p, pause))
            && (c.renewal.served <= s.leases[|s.leases| - 1].due ==> Gap(s'.leases, |s.leases|, role.maxTtl - p.floor - pause)))
  {
    if TriesRenewal(p, s, c) { RenewalExtends(role, p, s, c, latency); }
  }

  /** The call comes while the credential last handed out is still within its floor. */
  predicate Frequent(p: Policy, s: State, c: Call, latency: nat) {
    s.grants != [] ==> c.renewal.served <= s.grants[|s.grants| - 1].at + p.floor - latency
  }

  ghost predicate NextAnswered(role: Role, p: Policy, s: State, s': State, latency: nat, pause: nat, frequent: bool) {
    (s.cred.Credential? ==> s.cred.id < |s.leases|) &&
    exists c ::
      Timely(s, c, latency, pause) && Answered(c) && (frequent ==> Frequent(p, s, c, latency)) && s' == Got(role, p, s, c)
  }

  /** A run in which Vault answers every call. */
  ghost predicate IsAnsweredRun(role: Role, p: Policy, run: seq<State>, latency: nat, pause: nat, frequent: bool) {
    && |run| > 0 && run[0].leases == [] && run[0].cred == NoCredential && run[0].grants == []
    && forall i | 0 <= i < |run| - 1 :: NextAnswered(role, p, run[i], run[i + 1], latency, pause, frequent)
  }

  ghost predicate Spaced(leases: seq<Lease>, gap: int) {
    forall k | 0 < k < |leases| :: Gap(leases, k, gap)
  }

  lemma SpacedOn(before: seq<Lease>, after: seq<Lease>, gap: int)
    requires Spaced(before, gap) && |before| <= |after| <= |before| + 1
    requires forall i | 0 <= i < |before| :: after[i].issuedAt == before[i].issuedAt
    requires |after| > |before| > 0 ==> Gap(after, |before|, gap)
    ensures Spaced(after, gap)
  {
    forall k | 0 < k < |after| ensures Gap(after, k, gap) {
      if k < |before| { assert Gap(before, k, gap); }
    }
  }

  /** Consecutive credentials are issued more than min(T, M - floor) apart, give or take the client's
      pause between an answer and its check. */
  lemma {:induction false} IssuesSpaced(role: Role, p: Policy, run: seq<State>, latency: nat, pause: nat, k: nat)
    requires Fits(role, p) && p.floor + pause <= p.increment
    requires IsAnsweredRun(role, p, run, latency, pause, false) && k < |run|
    ensures Spaced(run[k].leases, ShortestGap(role, p, pause))
    ensures HoldsNewest(role, run[k]) && Safe(role, p, run[k], latency)
  {
    if k > 0 {
      IssuesSpaced(role, p, run, latency, pause, k - 1);
      assert NextAnswered(role, p, run[k - 1], run[k], latency, pause, false);
      var s := run[k - 1];
      var c :| Timely(s, c, latency, pause) && Answered(c) && run[k] == Got(role, p, s, c);
      GetSafe(role, p, s, c, latency, pause);
      IssueComesLate(role, p, s, c, latency, pause);
      SpacedOn(s.leases, run[k].leases, ShortestGap(role, p, pause));
    }
  }

  /** When a role's TTL passes the floor, every Get hands out the newest lease. */
  predicate HandsOutNewest(s: State) {
    if s.leases == [] then s.grants == []
    else s.grants != [] && s.grants[|s.grants| - 1].id == |s.leases| - 1
  }

  lemma GetHandsOutNewest(role: Role, p: Policy, s: State, c: Call, latency: nat, pause: nat, s': State)
    requires Fits(role, p) && p.floor + pause <= role.ttl && Safe(role, p, s, latency) && Timely(s, c, latency, pause)
    requires Answered(c) && HoldsNewest(role, s) && HandsOutNewest(s) && s' == Got(role, p, s, c)
    ensures HandsOutNewest(s')
  {}

  lemma FrequentStep(role: Role, p: Policy, s: State, c: Call, latency: nat, pause: nat, s': State)
    requires Fits(role, p) && p.floor + pause <= p.increment && Safe(role, p, s, latency) && Timely(s, c, latency, pause)
    requires Answered(c) && Frequent(p, s, c, latency) && HoldsNewest(role, s) && HandsOutNewest(s) && s' == Got(role, p, s, c)
    ensures |s'.leases| > |s.leases| > 0 ==> Gap(s'.leases, |s.leases|, role.maxTtl - p.floor - pause)
  {
    IssueComesLate(role, p, s, c, latency, pause);
    if s.leases != [] { assert Covers(p, s.leases, s.grants[|s.grants| - 1], latency); }
  }

  lemma FrequentNext(role: Role, p: Policy, s: State, s': State, latency: nat, pause: nat)
    requires Fits(role, p) && p.floor + pause <= role.ttl && p.floor + pause <= p.increment
    requires NextAnswered(role, p, s, s', latency, pause, true)
    requires Spaced(s.leases, role.maxTtl - p.floor - pause)
    requires HoldsNewest(role, s) && Safe(role, p, s, latency) && HandsOutNewest(s)
    ensures Spaced(s'.leases, role.maxTtl - p.floor - pause)
    ensures HoldsNewest(role, s') && Safe(role, p, s', latency) && HandsOutNewest(s')
  {
    var c :| Timely(s, c, latency, pause) && Answered(c) && Frequent(p, s, c, latency) && s' == Got(role, p, s, c);
    GetSafe(role, p, s, c, latency, pause);
    IssueComesLate(role, p, s, c, latency, pause);
    GetHandsOutNewest(role, p, s, c, latency, pause, s');
    FrequentStep(role, p, s, c, latency, pause, s');
    SpacedOn(s.leases, s'.leases, role.maxTtl - p.floor - pause);
  }

  /** Calls less than a floor apart never let a lease run out, so a role is only created when the
      maximum TTL forces it. */
  lemma {:induction false} FrequentIssuesSpaced(role: Role, p: Policy, run: seq<State>, latency: nat, pause: nat,
      k: nat)
    requires Fits(role, p) && p.floor + pause <= role.ttl && p.floor + pause <= p.increment
    requires IsAnsweredRun(role, p, run, latency, pause, true) && k < |run|
    ensures Spaced(run[k].leases, role.maxTtl - p.floor - pause)
    ensures HoldsNewest(role, run[k]) && Safe(role, p, run[k], latency) && HandsOutNewest(run[k])
  {
    if k > 0 {
      FrequentIssuesSpaced(role, p, run, latency, pause, k - 1);
      assert NextAnswered(role, p, run[k - 1], run[k], latency, pause, true);
      FrequentNext(role, p, run[k - 1], run[k], latency, pause);
    }
  }

  /** Leases that far apart: from a to b there are b - a gaps. */
  lemma {:induction false} SpanOf(leases: seq<Lease>, gap: nat, a: nat, b: nat)
    requires Spaced(leases, gap) && a <= b < |leases|
    ensures (b - a) * (gap + 1) <= leases[b].issuedAt - leases[a].issuedAt
    decreases b
  {
    if a < b {
      SpanOf(leases, gap, a, b - 1);
      assert Gap(leases, b, gap);
      assert (b - a) * (gap + 1) == (b - 1 - a) * (gap + 1) + (gap + 1);
    }
  }

  /** How many leases were issued in a stretch of time. */
  function IssuedIn(leases: seq<Lease>, from: int, to: int): nat {
    if leases == [] then 0
    else
      var last := leases[|leases| - 1];
      IssuedIn(leases[..|leases| - 1], from, to) + if from <= last.issuedAt <= to then 1 else 0
  }

  lemma {:induction false} IssuedUpTo(leases: seq<Lease>, gap: nat, from: int, to: int, n: nat) returns (last: nat)
    requires Spaced(leases, gap) && n <= |leases|
    ensures var count := IssuedIn(leases[..n], from, to); count > 0 ==>
      && last < n && leases[last].issuedAt <= to
      && (count - 1) * (gap + 1) <= leases[last].issuedAt - from
    decreases n
  {
    last := 0;
    if n > 0 {
      last := IssuedUpTo(leases, gap, from, to, n - 1);
      assert leases[..n][..n - 1] == leases[..n - 1];
      var count := IssuedIn(leases[..n - 1], from, to);
      if from <= leases[n - 1].issuedAt <= to {
        if count > 0 {
          SpanOf(leases, gap, last, n - 1);
          OneGap(gap, n - 1 - last);
          assert (count + 1 - 1) * (gap + 1) == (count - 1) * (gap + 1) + (gap + 1);
        }
        last := n - 1;
      }
    }
  }

  lemma OneGap(gap: nat, times: nat)
    requires times > 0
    ensures gap + 1 <= times * (gap + 1)
  {}

  lemma SpacedAreFew(leases: seq<Lease>, gap: nat, from: int, duration: nat)
    requires Spaced(leases, gap)
    ensures IssuedIn(leases, from, from + duration) <= duration / (gap + 1) + 1
  {
    var last := IssuedUpTo(leases, gap, from, from + duration, |leases|);
    assert leases[..|leases|] == leases;
    AtMost(IssuedIn(leases, from, from + duration), gap + 1, duration);
  }

  lemma AtMost(count: nat, gap: nat, duration: nat)
    requires gap > 0 && (count > 0 ==> (count - 1) * gap <= duration)
    ensures count <= duration / gap + 1
  {
    var q := duration / gap;
    assert duration < (q + 1) * gap;
    if count > 0 { LessTimes(count - 1, q + 1, gap); }
  }

  lemma LessTimes(a: nat, b: nat, gap: nat)
    requires a * gap < b * gap
    ensures a < b
  {
    if a >= b { OnceMore(b, a, gap); }
  }

  lemma OnceMore(a: nat, b: nat, gap: nat)
    requires a <= b
    ensures a * gap <= b * gap
  {}

  /** However often Get is called, in any stretch of time the roles created are at most one more than
      the shortest gap goes into it; when calls come within the floor, at most one more than the
      maximum TTL less the floor goes into it. */
  lemma RolesCreatedAreFew(role: Role, p: Policy, run: seq<State>, latency: nat, pause: nat, frequent: bool, k: nat,
      from: int, duration: nat)
    requires Fits(role, p) && p.floor + pause <= p.increment && p.floor + pause <= role.maxTtl && k < |run|
    requires IsAnsweredRun(role, p, run, latency, pause, frequent) && (frequent ==> p.floor + pause <= role.ttl)
    ensures IssuedIn(run[k].leases, from, from + duration)
         <= duration / ((if frequent then role.maxTtl - p.floor - pause else ShortestGap(role, p, pause)) + 1) + 1
  {
    if frequent {
      FrequentIssuesSpaced(role, p, run, latency, pause, k);
      SpacedAreFew(run[k].leases, role.maxTtl - p.floor - pause, from, duration);
    } else {
      IssuesSpaced(role, p, run, latency, pause, k);
      SpacedAreFew(run[k].leases, ShortestGap(role, p, pause), from, duration);
    }
  }

  // ---- A TTL below the floor ----

  /** With a TTL below the floor a Get that has to issue reports an error, but it keeps the lease, and
      the next Get, when it comes in time to renew it, succeeds if and only if what is left of the
      maximum TTL passes the floor. */
  lemma ShortTtlRecovers(role: Role, p: Policy, s: State, first: Call, second: Call, latency: nat, pause: nat)
    requires role.ttl < p.floor && Fits(role, p) && s.cred == NoCredential
    requires Timely(s, first, latency, pause) && Answered(first)
    requires Timely(Got(role, p, s, first), second, latency, pause) && Answered(second)
    requires second.renewal.served <= first.issue.served + role.ttl
    ensures var failed := Got(role, p, s, first);
      && failed.grants == s.grants && |failed.leases| == |s.leases| + 1
      && (|Got(role, p, failed, second).grants| > |failed.grants| <==>
            Min(p.increment, first.issue.served + role.maxTtl - second.renewal.served)
              >= p.floor + (second.renewal.checked - second.renewal.back))
  {}

  /** A minute of TTL below a floor of half an hour: the first Get errors, the next hands the lease out. */
  lemma ShortTtlWitness()
    ensures var role, p := Role(60, 7200), Policy(1800, RENEWAL_INCREMENT);
      var first := Call(0, Rpc(Lost, 0, 0, 0), Rpc(Heard(true), 0, 0, 0));
      var second := Call(10, Rpc(Heard(true), 10, 10, 10), Rpc(Lost, 10, 10, 10));
      var failed := Got(role, p, State([], NoCredential, [], 0), first);
      && failed.grants == [] && failed.leases == [Lease(0, 60)]
      && Got(role, p, failed, second).grants == [Grant(0, 10)]
  {}

  // ---- Vault and the cache ----

  datatype Reply<T> = Fine(value: T) | Refused

  datatype Lent = Lent(id: nat, ttl: nat, renewable: bool)

  datatype Extension = Extension(ttl: int, renewable: bool)

  /** Vault with one database role, and the clock. An answer takes at most the latency; faults counts the calls
      without a good one. */
  class Vault {
    const role: Role
    const latency: nat
    const pause: nat
    var leases: seq<Lease>
    var now: int
    ghost var faults: nat

    constructor (role: Role, latency: nat, pause: nat, now: int)
      ensures this.role == role && this.latency == latency && this.pause == pause && leases == [] && this.now == now
      ensures faults == 0
    {
      this.role, this.latency, this.pause, leases, this.now, faults := role, latency, pause, [], now, 0;
    }

    method Elapse(most: nat)
      modifies this`now
      ensures old(now) <= now <= old(now) + most
    {
      var d: nat :| d <= most;
      now := now + d;
    }

    method Issue() returns (r: Reply<Lent>, ghost rpc: Rpc)
      modifies this
      ensures old(now) <= rpc.served <= rpc.back == now && rpc.back - rpc.served <= latency && rpc.checked == now
      ensures leases == if rpc.answer.Lost? then old(leases) else old(leases) + [Lease(rpc.served, rpc.served + role.ttl)]
      ensures r == if rpc.answer.Heard? then Fine(Lent(|old(leases)|, role.ttl, rpc.answer.renewable)) else Refused
      ensures faults == old(faults) + if r.Refused? then 1 else 0
    {
      var wait: nat, reached, heard, renewable := *, *, *, *;
      now := now + wait;
      ghost var served := now;
      var id := |leases|;
      if reached { leases := leases + [Lease(now, now + role.ttl)]; }
      Elapse(latency);
      rpc := Rpc(if !reached then Lost else if heard then Heard(renewable) else Unheard, served, now, now);
      r := if reached && heard then Fine(Lent(id, role.ttl, renewable)) else Refused;
      if r.Refused? { faults := faults + 1; }
    }

    /** A lease that is over cannot be renewed. */
    method Renew(p: Policy, id: nat) returns (r: Reply<Extension>, ghost rpc: Rpc)
      requires id < |leases|
      modifies this
      ensures old(now) <= rpc.served <= rpc.back == now && rpc.back - rpc.served <= latency && rpc.checked == now
      ensures var l := old(leases[id]); var extended := Extended(role, p, l, rpc.served);
        var live := !rpc.answer.Lost? && rpc.served <= l.due;
        && leases == (if live then old(leases)[id := extended] else old(leases))
        && r == if live && rpc.answer.Heard? then Fine(Extension(extended.due - rpc.served, rpc.answer.renewable)) else Refused
      ensures faults == old(faults) + if r.Refused? then 1 else 0
    {
      var wait: nat, reached, heard, renewable := *, *, *, *;
      now := now + wait;
      ghost var served := now;
      r := Refused;
      if reached && now <= leases[id].due {
        var l := Extended(role, p, leases[id], now);
        leases := leases[id := l];
        if heard { r := Fine(Extension(l.due - now, renewable)); }
      }
      if r.Refused? { faults := faults + 1; }
      Elapse(latency);
      rpc := Rpc(if !reached then Lost else if heard then Heard(renewable) else Unheard, served, now, now);
    }
  }

  class Cache {
    const vault: Vault
    const p: Policy
    var lease: Credential
    ghost var grants: seq<Grant>

    ghost predicate Valid()
      reads this, vault
    {
      lease.Credential? ==> lease.id < |vault.leases|
    }

    ghost function Snapshot(): State
      reads this, vault
    {
      State(vault.leases, lease, grants, vault.now)
    }

    constructor (vault: Vault, p: Policy)
      ensures Valid() && this.vault == vault && this.p == p && lease == NoCredential && grants == []
    {
      this.vault, this.p, lease, grants := vault, p, NoCredential, [];
    }

    method IsUsable() returns (ok: bool)
      modifies vault`now
      ensures old(vault.now) <= vault.now <= old(vault.now) + vault.pause
      ensures ok == Usable(p, lease, vault.now)
    {
      vault.Elapse(vault.pause);
      ok := lease.Credential? && lease.expires - vault.now >= p.floor;
    }

    /** The lease to open a connection with, or an error: when a call failed, or the lease just issued is below
        the floor. */
    method Get() returns (r: Reply<nat>, ghost c: Call)
      requires Valid()
      modifies this`lease, this`grants, vault
      ensures Timely(old(Snapshot()), c, vault.latency, vault.pause)
      ensures Valid() && Snapshot() == Got(vault.role, p, old(Snapshot()), c)
      ensures r.Fine? ==> grants == old(grants) + [Grant(r.value, vault.now)]
      ensures r.Refused? ==> grants == old(grants)
      ensures r.Refused? ==>
        (|| vault.faults > old(vault.faults)
         || (&& |vault.leases| == |old(vault.leases)| + 1 && lease.Credential? && lease.id == |old(vault.leases)|
             && !Usable(p, lease, vault.now)))
    {
      ghost var s := Snapshot();
      var usable := IsUsable();
      ghost var here := vault.now;
      ghost var idle := Rpc(Lost, here, here, here);
      c := Call(here, idle, idle);
      if usable {
        r := HandOut();
        return;
      }
      if lease.Credential? && lease.renewable {
        ghost var renewal;
        usable, renewal := Renew();
        c := Call(here, renewal, Rpc(Lost, vault.now, vault.now, vault.now));
        assert Snapshot() == AfterRenewal(vault.role, p, s, c).(clock := vault.now);
        if usable {
          r := HandOut();
          return;
        }
      }
      ghost var renewed := Snapshot();
      assert renewed == AfterRenewal(vault.role, p, s, c).(clock := vault.now);
      ghost var issue;
      usable, issue := Issue();
      c := c.(issue := issue);
      assert Snapshot() == Issued(vault.role, renewed, issue).(clock := issue.checked);
      r := Refused;
      if usable { r := HandOut(); }
    }

    method HandOut() returns (r: Reply<nat>)
      requires lease.Credential?
      modifies this`grants
      ensures r == Fine(lease.id) && Snapshot() == Granted(old(Snapshot()), lease.id, vault.now)
    {
      grants := grants + [Grant(lease.id, vault.now)];
      r := Fine(lease.id);
    }

    /** Asks for an extension and checks what it bought; a failed renewal drops the lease. */
    method Renew() returns (usable: bool, ghost rpc: Rpc)
      requires Valid() && lease.Credential?
      modifies this`lease, vault
      ensures InTurn(rpc, old(vault.now), vault.latency, vault.pause) && vault.now == rpc.checked
      ensures Valid() && Snapshot() == Renewed(vault.role, p, old(Snapshot()), rpc).(clock := rpc.checked)
      ensures usable == Usable(p, lease, rpc.checked)
      ensures vault.faults >= old(vault.faults)
    {
      var r;
      r, rpc := vault.Renew(p, lease.id);
      lease := if r.Fine? then Credential(lease.id, r.value.renewable, vault.now + r.value.ttl) else NoCredential;
      usable := IsUsable();
      rpc := rpc.(checked := vault.now);
    }

    /** Takes a new lease; it is kept even when its TTL is below the floor, which is an error. */
    method Issue() returns (usable: bool, ghost rpc: Rpc)
      requires Valid()
      modifies this`lease, vault
      ensures InTurn(rpc, old(vault.now), vault.latency, vault.pause) && vault.now == rpc.checked
      ensures Valid() && Snapshot() == Issued(vault.role, old(Snapshot()), rpc).(clock := rpc.checked)
      ensures usable == (rpc.answer.Heard? && Usable(p, lease, rpc.checked))
      ensures vault.faults == old(vault.faults) + if rpc.answer.Heard? then 0 else 1
    {
      var r;
      r, rpc := vault.Issue();
      if r.Refused? { return false, rpc; }
      lease := Credential(r.value.id, r.value.renewable, vault.now + r.value.ttl);
      usable := IsUsable();
      rpc := rpc.(checked := vault.now);
    }
  }
}
