/** The collector's books over a whole run, and the collector that keeps them. */
module Collector {
  import opened Basics
  import opened AttributionHold

  datatype Options = Options(batch: nat, grace: int, requireSession: bool)

  /** What the store answers: which offered events had no session, or that the write failed after
      counting n of them. A failed write is rolled back. */
  datatype Reply = Wrote(missed: seq<int>) | Failed(n: nat)

  datatype Loss = Loss(w: Waiting, at: int, byCap: bool)

  /** Every event the collector accepted, and where it is. Buffered events have not been offered yet;
      all others carry the time of their first offer. The clock is its latest reading; phantom is
      what failed writes had counted. */
  datatype Books = Books(
    accepted: seq<KernelEvent>, buf: seq<KernelEvent>,
    first: seq<Waiting>, waiting: seq<Waiting>, stored: seq<Waiting>, lost: seq<Loss>,
    total: nat, phantom: nat, clock: int)

  function Opened(clock: int): Books {
    Books([], [], [], [], [], [], 0, 0, clock)
  }

  function MaxHeld(o: Options): nat { 20 * (if o.batch == 0 then 200 else o.batch) }

  function Kept(o: Options, b: Books, expiryNow: int): seq<Waiting> {
    AfterExpiry(b.waiting, o.grace, expiryNow)
  }

  /** What a flush hands the store. */
  function Pending(o: Options, b: Books, expiryNow: int, now: int): seq<Waiting> {
    Kept(o, b, expiryNow) + Stamped(b.buf, now)
  }

  function Back(pending: seq<Waiting>, r: Reply): seq<Waiting> {
    if r.Failed? then pending else Picked(pending, r.missed)
  }

  function Counted(pending: seq<Waiting>, r: Reply): nat {
    if r.Failed? then r.n else |Landed(pending, r.missed)|
  }

  function Losses(ws: seq<Waiting>, kept: nat, at: int, byCap: bool): (r: seq<Loss>)
    ensures kept <= |ws| ==> |r| == |ws| - kept
  {
    if kept <= |ws| then seq(|ws| - kept, i requires 0 <= i < |ws| - kept => Loss(ws[i], at, byCap)) else []
  }

  function Flushed(o: Options, b: Books, expiryNow: int, now: int, r: Reply): Books {
    var kept := Kept(o, b, expiryNow);
    var pending := Pending(o, b, expiryNow, now);
    var back := Back(pending, r);
    var waiting := Trimmed(back, MaxHeld(o));
    Books(
      b.accepted, [], b.first + Stamped(b.buf, now), waiting,
      b.stored + (if r.Failed? then [] else Landed(pending, r.missed)),
      b.lost + Losses(b.waiting, |kept|, expiryNow, false) + Losses(back, |waiting|, now, true),
      b.total + Counted(pending, r), b.phantom + (if r.Failed? then r.n else 0), now)
  }

  function Added(b: Books, e: KernelEvent): Books {
    b.(accepted := b.accepted + [e], buf := b.buf + [e])
  }

  /** What the store may answer to this offer. It is not asked about nothing. */
  predicate Answers(r: Reply, offered: nat) {
    if r.Failed? then 0 < offered && r.n <= offered else Increasing(r.missed, offered)
  }

  datatype Input = Event(e: KernelEvent) | Flush(expiryNow: int, now: int, reply: Reply)

  function Apply(o: Options, b: Books, i: Input): Books {
    match i
    case Event(e) => Added(b, e)
    case Flush(expiryNow, now, reply) => Flushed(o, b, expiryNow, now, reply)
  }

  /** The clock never goes back, the buffer is flushed when full, and the store answers what it was asked:
      only a store asked for a session finds events without one. */
  predicate Possible(o: Options, b: Books, i: Input) {
    match i
    case Event(e) => |b.buf| < o.batch
    case Flush(expiryNow, now, reply) =>
      && b.clock <= expiryNow <= now && Answers(reply, |Pending(o, b, expiryNow, now)|)
      && (o.requireSession || MissesNothing(reply))
  }

  predicate MissesNothing(r: Reply) {
    r.Wrote? ==> r.missed == []
  }

  function Run(o: Options, clock: int, inputs: seq<Input>): Books {
    if inputs == [] then Opened(clock)
    else Apply(o, Run(o, clock, inputs[..|inputs| - 1]), inputs[|inputs| - 1])
  }

  predicate PossibleRun(o: Options, clock: int, inputs: seq<Input>) {
    inputs == [] ||
    (PossibleRun(o, clock, inputs[..|inputs| - 1]) &&
     Possible(o, Run(o, clock, inputs[..|inputs| - 1]), inputs[|inputs| - 1]))
  }

  lemma RunOn(o: Options, clock: int, inputs: seq<Input>, i: Input)
    requires PossibleRun(o, clock, inputs) && Possible(o, Run(o, clock, inputs), i)
    ensures PossibleRun(o, clock, inputs + [i])
    ensures Run(o, clock, inputs + [i]) == Apply(o, Run(o, clock, inputs), i)
  {
    assert (inputs + [i])[..|inputs|] == inputs;
  }

  // ---- Conservation ----

  function LostEvents(lost: seq<Loss>): (r: seq<Waiting>)
    ensures |r| == |lost|
  {
    seq(|lost|, i requires 0 <= i < |lost| => lost[i].w)
  }

  /** With their stamps: what was ever offered was stored, lost or is still held, each exactly once
      and under the time of its first offer. */
  predicate Conserved(b: Books) {
    && multiset(b.first) == multiset(b.stored) + multiset(LostEvents(b.lost)) + multiset(b.waiting)
    && b.accepted == Events(b.first) + b.buf
    && b.total == |b.stored| + b.phantom
  }

  predicate InTime(o: Options, b: Books) {
    && Sorted(b.waiting) && |b.waiting| <= MaxHeld(o)
    && |b.buf| <= o.batch
    && (forall i | 0 <= i < |b.waiting| :: b.waiting[i].since <= b.clock)
  }

  /** Expiry takes a prefix of what is held. */
  lemma ExpiryTakesPrefix(o: Options, b: Books, expiryNow: int)
    requires InTime(o, b)
    ensures var kept := Kept(o, b, expiryNow); var k := |b.waiting| - |kept|;
      && 0 <= k && kept == b.waiting[k..]
      && (forall i | 0 <= i < |kept| :: expiryNow - kept[i].since <= o.grace)
      && (o.grace > 0 ==> forall i | 0 <= i < k :: expiryNow - b.waiting[i].since > o.grace)
  {
    if o.grace > 0 { ExpiryDropsPrefix(b.waiting, expiryNow - o.grace); }
  }

  /** Nothing is offered past its grace, and no flush offers more than 21 batches. */
  lemma OffersInTime(o: Options, b: Books, expiryNow: int, now: int)
    requires InTime(o, b) && b.clock <= expiryNow <= now && o.batch > 0
    ensures var offer := Pending(o, b, expiryNow, now);
      && Sorted(offer) && |offer| <= 21 * o.batch
      && (forall i | 0 <= i < |offer| :: offer[i].since <= now)
      && forall i | 0 <= i < |offer| :: expiryNow - offer[i].since <= o.grace || offer[i].since == now
  {
    ExpiryTakesPrefix(o, b, expiryNow);
  }

  /** Without a grace nothing is offered a second time. */
  lemma NoGraceNoHold(o: Options, b: Books, expiryNow: int, now: int)
    requires o.grace <= 0
    ensures Pending(o, b, expiryNow, now) == Stamped(b.buf, now)
  {
    assert [] + Stamped(b.buf, now) == Stamped(b.buf, now);
  }

  lemma PrefixLost(ws: seq<Waiting>, kept: seq<Waiting>, at: int, byCap: bool)
    requires |kept| <= |ws| && kept == ws[|ws| - |kept|..]
    ensures multiset(LostEvents(Losses(ws, |kept|, at, byCap))) + multiset(kept) == multiset(ws)
  {
    var k := |ws| - |kept|;
    assert LostEvents(Losses(ws, |kept|, at, byCap)) == ws[..k];
    assert ws == ws[..k] + ws[k..];
  }

  lemma LandedOrBack(pending: seq<Waiting>, r: Reply)
    requires Answers(r, |pending|)
    ensures multiset(if r.Failed? then [] else Landed(pending, r.missed)) + multiset(Back(pending, r)) == multiset(pending)
    ensures Sorted(pending) ==> Sorted(Back(pending, r))
    ensures Counted(pending, r) == if r.Failed? then r.n else |pending| - |r.missed|
  {
    if r.Wrote? {
      LandedOrPicked(pending, r.missed);
      LandedCount(pending, r.missed);
      if Sorted(pending) { PickedSorted(pending, r.missed); }
    }
  }

  lemma Balance(first: multiset<Waiting>, stored: multiset<Waiting>, lost: multiset<Waiting>,
      waiting: multiset<Waiting>,
                batch: multiset<Waiting>, expired: multiset<Waiting>, kept: multiset<Waiting>, landed: multiset<Waiting>,
                back: multiset<Waiting>, trimmed: multiset<Waiting>, waiting': multiset<Waiting>)
    requires first == stored + lost + waiting && expired + kept == waiting
    requires landed + back == kept + batch && trimmed + waiting' == back
    ensures first + batch == stored + landed + (lost + expired + trimmed) + waiting'
  {
    forall w ensures (first + batch)[w] == (stored + landed + (lost + expired + trimmed) + waiting')[w] {
      assert first[w] == (stored + lost + waiting)[w] && (expired + kept)[w] == waiting[w];
      assert (landed + back)[w] == (kept + batch)[w] && (trimmed + waiting')[w] == back[w];
    }
  }

  lemma LostBoth(a: seq<Loss>, b: seq<Loss>, c: seq<Loss>)
    ensures multiset(LostEvents(a + b + c)) == multiset(LostEvents(a)) + multiset(LostEvents(b)) + multiset(LostEvents(c))
  {
    assert LostEvents(a + b + c) == LostEvents(a) + LostEvents(b) + LostEvents(c);
  }

  /** Where everything goes in one flush. */
  lemma FlushParts(o: Options, b: Books, expiryNow: int, now: int, r: Reply, kept: seq<Waiting>, back: seq<Waiting>,
      after: Books)
    requires InTime(o, b) && o.batch > 0 && b.clock <= expiryNow <= now && Answers(r, |Pending(o, b, expiryNow, now)|)
    requires kept == Kept(o, b, expiryNow) && back == Back(Pending(o, b, expiryNow, now), r)
    requires after == Flushed(o, b, expiryNow, now, r)
    ensures multiset(LostEvents(Losses(b.waiting, |kept|, expiryNow, false))) + multiset(kept) == multiset(b.waiting)
    ensures multiset(LostEvents(Losses(back, |after.waiting|, now, true))) + multiset(after.waiting) == multiset(back)
    ensures InTime(o, after)
  {
    var pending := Pending(o, b, expiryNow, now);
    ExpiryTakesPrefix(o, b, expiryNow);
    OffersInTime(o, b, expiryNow, now);
    LandedOrBack(pending, r);
    BackWasOffered(pending, r, now);
    PrefixLost(b.waiting, kept, expiryNow, false);
    TrimmedInTime(back, MaxHeld(o), now, after.waiting);
  }

  lemma TrimmedInTime(back: seq<Waiting>, max: nat, now: int, kept: seq<Waiting>)
    requires Sorted(back) && (forall i | 0 <= i < |back| :: back[i].since <= now) && kept == Trimmed(back, max)
    ensures multiset(LostEvents(Losses(back, |kept|, now, true))) + multiset(kept) == multiset(back)
    ensures Sorted(kept) && |kept| <= max && forall i | 0 <= i < |kept| :: kept[i].since <= now
  {
    TrimDropsOldest(back, max);
    PrefixLost(back, kept, now, true);
  }

  lemma FlushConserves(o: Options, b: Books, expiryNow: int, now: int, r: Reply, after: Books)
    requires InTime(o, b) && Conserved(b) && o.batch > 0
    requires b.clock <= expiryNow <= now && Answers(r, |Pending(o, b, expiryNow, now)|)
    requires after == Flushed(o, b, expiryNow, now, r)
    ensures Conserved(after)
  {
    var kept, pending, batch := Kept(o, b, expiryNow), Pending(o, b, expiryNow, now), Stamped(b.buf, now);
    var back := Back(pending, r);
    var landed := if r.Failed? then [] else Landed(pending, r.missed);
    var expired, trimmed := Losses(b.waiting, |kept|, expiryNow, false), Losses(back, |after.waiting|, now, true);
    FlushParts(o, b, expiryNow, now, r, kept, back, after);
    LandedOrBack(pending, r);
    LostBoth(b.lost, expired, trimmed);
    Balance(multiset(b.first), multiset(b.stored), multiset(LostEvents(b.lost)), multiset(b.waiting), multiset(batch),
      multiset(LostEvents(expired)), multiset(kept), multiset(landed), multiset(back), multiset(LostEvents(trimmed)),
      multiset(after.waiting));
    assert Events(b.first + batch) == Events(b.first) + b.buf;
  }

  lemma BackWasOffered(pending: seq<Waiting>, r: Reply, now: int)
    requires Answers(r, |pending|) && forall i | 0 <= i < |pending| :: pending[i].since <= now
    ensures forall i | 0 <= i < |Back(pending, r)| :: Back(pending, r)[i].since <= now
  {
    if r.Wrote? { PickedByIndex(pending, r.missed); }
  }

  lemma {:induction false} RunConserves(o: Options, clock: int, inputs: seq<Input>)
    requires PossibleRun(o, clock, inputs) && o.batch > 0
    ensures Conserved(Run(o, clock, inputs)) && InTime(o, Run(o, clock, inputs))
  {
    if inputs != [] {
      var before, i := inputs[..|inputs| - 1], inputs[|inputs| - 1];
      var b := Run(o, clock, before);
      RunConserves(o, clock, before);
      if i.Flush? {
        var pending := Pending(o, b, i.expiryNow, i.now);
        FlushParts(o, b, i.expiryNow, i.now, i.reply, Kept(o, b, i.expiryNow), Back(pending, i.reply), Run(o, clock, inputs));
        FlushConserves(o, b, i.expiryNow, i.now, i.reply, Run(o, clock, inputs));
      } else {
        assert Events(b.first) + (b.buf + [i.e]) == Events(b.first) + b.buf + [i.e];
      }
    }
  }

  lemma RunInTime(o: Options, clock: int, inputs: seq<Input>)
    requires PossibleRun(o, clock, inputs) && o.batch > 0
    ensures InTime(o, Run(o, clock, inputs))
  {
    RunConserves(o, clock, inputs);
  }

  predicate NothingFailed(inputs: seq<Input>) {
    forall i | 0 <= i < |inputs| && inputs[i].Flush? :: inputs[i].reply.Wrote?
  }

  /** Without sessions required, and with no write failing, everything is stored the first time it is offered. */
  lemma {:induction false} StoredAtOnce(o: Options, clock: int, inputs: seq<Input>)
    requires PossibleRun(o, clock, inputs) && !o.requireSession && NothingFailed(inputs)
    ensures var b := Run(o, clock, inputs); b.waiting == [] && b.lost == [] && b.stored == b.first
  {
    if inputs != [] {
      var before, i := inputs[..|inputs| - 1], inputs[|inputs| - 1];
      StoredAtOnce(o, clock, before);
      if i.Flush? {
        AllLand(Pending(o, Run(o, clock, before), i.expiryNow, i.now));
        assert [] + Stamped(Run(o, clock, before).buf, i.now) == Stamped(Run(o, clock, before).buf, i.now);
      }
    }
  }

  /** The hold has room for twenty batches and for no event more. */
  lemma HoldsTwentyBatches(o: Options, back: seq<Waiting>)
    requires o.batch > 0
    ensures Trimmed(back, MaxHeld(o)) == back <==> |back| <= 20 * o.batch
  {
    if |back| > 20 * o.batch { assert |Trimmed(back, MaxHeld(o))| < |back|; }
  }

  // ---- Why an event is lost ----

  function BackFrom(o: Options, b: Books, i: Input): seq<Waiting>
    requires i.Flush?
  {
    Back(Pending(o, b, i.expiryNow, i.now), i.reply)
  }

  /** It was held when this flush began, and by then had waited longer than the grace. */
  predicate Outwaited(o: Options, b: Books, i: Input, l: Loss)
    requires i.Flush?
  {
    && l.at == i.expiryNow && l.w in b.waiting
    && (o.grace <= 0 || i.expiryNow - l.w.since > o.grace)
  }

  /** This flush had more to hold than the cap: it goes on holding exactly as much as the cap allows,
      loses just the excess, and nothing it keeps is older than what it loses. */
  predicate CapExceeded(o: Options, b: Books, i: Input, l: Loss)
    requires i.Flush?
  {
    var back, after := BackFrom(o, b, i), Apply(o, b, i);
    && l.at == i.now && l.w in back
    && |after.waiting| == MaxHeld(o) < |back|
    && |after.lost| == |b.lost| + (|b.waiting| - |Kept(o, b, i.expiryNow)|) + (|back| - MaxHeld(o))
    && forall j | 0 <= j < |after.waiting| :: l.w.since <= after.waiting[j].since
  }

  ghost predicate LostAt(o: Options, clock: int, inputs: seq<Input>, k: nat, l: Loss) {
    && k < |inputs| && inputs[k].Flush?
    && var b := Run(o, clock, inputs[..k]);
       if l.byCap then CapExceeded(o, b, inputs[k], l) else Outwaited(o, b, inputs[k], l)
  }

  /** Some flush of the run accounts for the loss. */
  ghost predicate Justified(o: Options, clock: int, inputs: seq<Input>, l: Loss) {
    exists k: nat :: LostAt(o, clock, inputs, k, l)
  }

  lemma StillJustified(o: Options, clock: int, inputs: seq<Input>, i: Input, l: Loss)
    requires Justified(o, clock, inputs, l)
    ensures Justified(o, clock, inputs + [i], l)
  {
    var k: nat :| LostAt(o, clock, inputs, k, l);
    assert (inputs + [i])[..k] == inputs[..k];
    assert LostAt(o, clock, inputs + [i], k, l);
  }

  lemma ExpiredOutwaited(o: Options, b: Books, i: Input, j: nat)
    requires InTime(o, b) && i.Flush? && j < |b.waiting| - |Kept(o, b, i.expiryNow)|
    ensures Outwaited(o, b, i, Loss(b.waiting[j], i.expiryNow, false))
  {
    ExpiryTakesPrefix(o, b, i.expiryNow);
  }

  lemma BackSorted(o: Options, b: Books, i: Input)
    requires InTime(o, b) && o.batch > 0 && i.Flush? && Possible(o, b, i)
    ensures Sorted(BackFrom(o, b, i))
  {
    OffersInTime(o, b, i.expiryNow, i.now);
    LandedOrBack(Pending(o, b, i.expiryNow, i.now), i.reply);
  }

  lemma TrimmedExceeded(o: Options, b: Books, i: Input, j: nat)
    requires InTime(o, b) && o.batch > 0 && i.Flush? && Possible(o, b, i)
    requires var back := BackFrom(o, b, i); j < |back| - |Trimmed(back, MaxHeld(o))|
    ensures CapExceeded(o, b, i, Loss(BackFrom(o, b, i)[j], i.now, true))
  {
    BackSorted(o, b, i);
    TrimDropsOldest(BackFrom(o, b, i), MaxHeld(o));
    ExpiryTakesPrefix(o, b, i.expiryNow);
  }

  /** The losses of one flush: those it inherits, those expired, those trimmed. */
  lemma FlushLosses(o: Options, b: Books, i: Input, n: nat)
    requires InTime(o, b) && o.batch > 0 && i.Flush? && Possible(o, b, i) && n < |Apply(o, b, i).lost|
    ensures var l := Apply(o, b, i).lost[n];
      || (n < |b.lost| && l == b.lost[n])
      || (if l.byCap then CapExceeded(o, b, i, l) else Outwaited(o, b, i, l))
  {
    var kept, back := Kept(o, b, i.expiryNow), BackFrom(o, b, i);
    var expired, trimmed := Losses(b.waiting, |kept|, i.expiryNow, false), Losses(back, |Trimmed(back, MaxHeld(o))|, i.now, true);
    assert Apply(o, b, i).lost == b.lost + expired + trimmed;
    if |b.lost| <= n < |b.lost| + |expired| {
      ExpiredOutwaited(o, b, i, n - |b.lost|);
    } else if n >= |b.lost| + |expired| {
      TrimmedExceeded(o, b, i, n - |b.lost| - |expired|);
    }
  }

  /** An event is lost only by a flush it had outwaited the grace at, or by one that exceeded the cap
      and kept nothing older. */
  lemma {:induction false} LossesJustified(o: Options, clock: int, inputs: seq<Input>, n: nat)
    requires PossibleRun(o, clock, inputs) && o.batch > 0 && n < |Run(o, clock, inputs).lost|
    ensures Justified(o, clock, inputs, Run(o, clock, inputs).lost[n])
  {
    var before, i := inputs[..|inputs| - 1], inputs[|inputs| - 1];
    var b, l := Run(o, clock, before), Run(o, clock, inputs).lost[n];
    assert inputs == before + [i];
    RunInTime(o, clock, before);
    if i.Flush? { FlushLosses(o, b, i, n); }
    if n < |b.lost| && l == b.lost[n] {
      LossesJustified(o, clock, before, n);
      StillJustified(o, clock, before, i, l);
    } else {
      assert LostAt(o, clock, inputs, |before|, l);
    }
  }

  lemma WithoutOne(ws: seq<Waiting>, i: nat)
    requires i < |ws|
    ensures var rest := ws[..i] + ws[i + 1..];
      && multiset(rest) == multiset(ws) - multiset{ws[i]}
      && multiset(Events(ws)) == multiset{ws[i].event} + multiset(Events(rest))
  {
    var rest := ws[..i] + ws[i + 1..];
    assert ws == ws[..i] + [ws[i]] + ws[i + 1..];
    assert Events(ws) == Events(ws[..i]) + [ws[i].event] + Events(ws[i + 1..]);
    assert Events(rest) == Events(ws[..i]) + Events(ws[i + 1..]);
  }

  lemma SameSize(a: seq<Waiting>, b: seq<Waiting>)
    requires multiset(a) == multiset(b)
    ensures |a| == |b|
  {
    assert |multiset(a)| == |multiset(b)|;
  }

  lemma FoundIn(b: seq<Waiting>, w: Waiting) returns (i: nat)
    requires w in multiset(b)
    ensures i < |b| && b[i] == w
  {
    i :| i < |b| && b[i] == w;
  }

  lemma {:induction false} SameEvents(a: seq<Waiting>, b: seq<Waiting>)
    requires multiset(a) == multiset(b)
    ensures multiset(Events(a)) == multiset(Events(b))
    decreases |a|
  {
    SameSize(a, b);
    if a != [] {
      assert a[0] in multiset(a);
      var i := FoundIn(b, a[0]);
      WithoutOne(a, 0);
      WithoutOne(b, i);
      SameEvents(a[..0] + a[1..], b[..i] + b[i + 1..]);
    }
  }

  lemma SplitEvents(first: seq<Waiting>, stored: seq<Waiting>, lost: seq<Waiting>, waiting: seq<Waiting>)
    requires multiset(first) == multiset(stored) + multiset(lost) + multiset(waiting)
    ensures multiset(Events(first)) == multiset(Events(stored)) + multiset(Events(lost)) + multiset(Events(waiting))
  {
    var parts := stored + lost + waiting;
    SameEvents(first, parts);
    assert Events(parts) == Events(stored) + Events(lost) + Events(waiting);
  }

  /** Every accepted event is stored, dropped, held or still buffered: exactly once each. */
  lemma EveryEventAccountedFor(o: Options, clock: int, inputs: seq<Input>)
    requires PossibleRun(o, clock, inputs) && o.batch > 0
    ensures var b := Run(o, clock, inputs);
      multiset(b.accepted) == multiset(Events(b.stored)) + multiset(Events(LostEvents(b.lost)))
                            + multiset(Events(b.waiting)) + multiset(b.buf)
  {
    RunConserves(o, clock, inputs);
    var b := Run(o, clock, inputs);
    SplitEvents(b.first, b.stored, LostEvents(b.lost), b.waiting);
  }

  predicate NothingCountedByFailures(inputs: seq<Input>) {
    inputs == [] ||
    (NothingCountedByFailures(inputs[..|inputs| - 1]) &&
     var i := inputs[|inputs| - 1]; (i.Flush? && i.reply.Failed? ==> i.reply.n == 0))
  }

  /** The total the summary reports is what was stored if and only if no failed write had counted anything. */
  lemma {:induction false} TotalIsStoredIff(o: Options, clock: int, inputs: seq<Input>)
    requires PossibleRun(o, clock, inputs) && o.batch > 0
    ensures Run(o, clock, inputs).total == |Run(o, clock, inputs).stored| <==> NothingCountedByFailures(inputs)
  {
    RunConserves(o, clock, inputs);
    PhantomIff(o, clock, inputs);
  }

  lemma {:induction false} PhantomIff(o: Options, clock: int, inputs: seq<Input>)
    ensures Run(o, clock, inputs).phantom == 0 <==> NothingCountedByFailures(inputs)
  {
    if inputs != [] { PhantomIff(o, clock, inputs[..|inputs| - 1]); }
  }

  lemma {:induction false} AllLand<T>(evs: seq<T>)
    ensures Landed(evs, []) == evs
  {
    if evs != [] { AllLand(evs[..|evs| - 1]); }
  }

  /** One event, a write that fails after counting it, and one that stores it: counted twice. */
  lemma TotalWitness(e: KernelEvent)
    ensures var o := Options(1, 300, true);
      var inputs := [Event(e), Flush(0, 0, Failed(1)), Flush(0, 0, Wrote([]))];
      PossibleRun(o, 0, inputs) && Run(o, 0, inputs).stored == [Waiting(e, 0)] && Run(o, 0, inputs).total == 2
  {
    var o, failed, wrote := Options(1, 300, true), Flush(0, 0, Failed(1)), Flush(0, 0, Wrote([]));
    FailedFirst(o, e);
    StoredThen(o, e, Run(o, 0, [Event(e), failed]));
    RunOn(o, 0, [Event(e), failed], wrote);
    assert [Event(e), failed] + [wrote] == [Event(e), failed, wrote];
  }

  lemma FailedFirst(o: Options, e: KernelEvent)
    requires o == Options(1, 300, true)
    ensures var inputs := [Event(e), Flush(0, 0, Failed(1))];
      && PossibleRun(o, 0, inputs)
      && Run(o, 0, inputs) == Books([e], [], [Waiting(e, 0)], [Waiting(e, 0)], [], [], 1, 1, 0)
  {
    var failed := Flush(0, 0, Failed(1));
    AddedFirst(o, e);
    FailedOnce(o, e, Run(o, 0, [Event(e)]));
    RunOn(o, 0, [Event(e)], failed);
    assert [Event(e)] + [failed] == [Event(e), failed];
  }

  lemma AddedFirst(o: Options, e: KernelEvent)
    requires o.batch > 0
    ensures PossibleRun(o, 0, [Event(e)]) && Run(o, 0, [Event(e)]) == Added(Opened(0), e)
  {
    RunOn(o, 0, [], Event(e));
    assert [] + [Event(e)] == [Event(e)];
  }

  lemma FailedOnce(o: Options, e: KernelEvent, b: Books)
    requires o == Options(1, 300, true) && b == Added(Opened(0), e)
    ensures var i := Flush(0, 0, Failed(1));
      Possible(o, b, i) && Apply(o, b, i) == Books([e], [], [Waiting(e, 0)], [Waiting(e, 0)], [], [], 1, 1, 0)
  {
    assert Pending(o, b, 0, 0) == [Waiting(e, 0)];
  }

  lemma StoredThen(o: Options, e: KernelEvent, b: Books)
    requires o == Options(1, 300, true) && b == Books([e], [], [Waiting(e, 0)], [Waiting(e, 0)], [], [], 1, 1, 0)
    ensures var i := Flush(0, 0, Wrote([]));
      Possible(o, b, i) && Apply(o, b, i).stored == [Waiting(e, 0)] && Apply(o, b, i).total == 2
  {
    var w := Waiting(e, 0);
    assert [w][..0] == [] && NotBefore([], -300) == [];
    assert NotBefore([w], -300) == [w];
    AllLand([w]);
    assert Pending(o, b, 0, 0) == [w];
  }

  // ---- The store and the collector ----

  lemma LandsOrMisses(evs: seq<KernelEvent>, missed: seq<int>, i: nat)
    requires i < |evs| && Increasing(missed, i)
    ensures Landed(evs[..i + 1], missed) == Landed(evs[..i], missed) + [evs[i]]
    ensures Landed(evs[..i + 1], missed + [i]) == Landed(evs[..i], missed)
  {
    assert evs[..i + 1][..i] == evs[..i];
    LandedIgnores(evs[..i], missed, i);
  }

  /** The kernel_event table. A batch is one transaction: what the statements counted before a
      failure is reported all the same. sessions says of each row whether it had a session when it was
      written, faults counts the calls that failed. */
  class Store {
    var rows: seq<KernelEvent>
    ghost var sessions: seq<bool>
    ghost var faults: nat

    constructor ()
      ensures rows == [] && sessions == [] && faults == 0
    {
      rows, sessions, faults := [], [], 0;
    }

    method Answered() returns (ok: bool)
      modifies this`faults
      ensures faults == old(faults) + if ok then 0 else 1
    {
      ok := Happens();
      if !ok { faults := faults + 1; }
    }

    method InsertAttributed(evs: seq<KernelEvent>) returns (n: nat, missed: seq<int>, ok: bool)
      modifies this
      ensures n <= |evs| && Increasing(missed, |evs|)
      ensures ok ==> n == |evs| - |missed| && rows == old(rows) + Landed(evs, missed)
      ensures ok ==> |rows| == |old(rows)| + n && HaveSessions(old(sessions), sessions, n)
      ensures !ok ==> missed == [] && rows == old(rows) && sessions == old(sessions)
      ensures faults == old(faults) + if ok then 0 else 1
    {
      var staged := [];
      n, missed := 0, [];
      for i := 0 to |evs|
        invariant Increasing(missed, i) && n == i - |missed| == |staged| && staged == Landed(evs[..i], missed)
        invariant rows == old(rows) && sessions == old(sessions) && faults == old(faults)
      {
        LandsOrMisses(evs, missed, i);
        ok := Answered();
        if !ok { return n, [], false; }
        var attributed := Happens();
        if attributed {
          n, staged := n + 1, staged + [evs[i]];
        } else {
          missed := missed + [i];
        }
      }
      assert evs[..|evs|] == evs;
      ok := Answered();
      if !ok { return 0, [], false; }
      rows, sessions := rows + staged, sessions + seq(n, i => true);
    }

    method Insert(evs: seq<KernelEvent>) returns (n: nat, ok: bool)
      modifies this
      ensures n <= |evs|
      ensures ok ==> n == |evs| && rows == old(rows) + evs
      ensures ok ==> old(sessions) <= sessions && |sessions| == |old(sessions)| + n
      ensures !ok ==> rows == old(rows) && sessions == old(sessions)
      ensures faults == old(faults) + if ok then 0 else 1
    {
      for i := 0 to |evs|
        invariant rows == old(rows) && sessions == old(sessions) && faults == old(faults)
      {
        ok := Answered();
        if !ok { return i, false; }
      }
      ok := Answered();
      if !ok { return 0, false; }
      assert |seq(|evs|, i => false)| == |evs|;
      ghost var attributed: seq<bool> :| |attributed| == |evs|;
      rows, sessions := rows + evs, sessions + attributed;
      return |evs|, true;
    }
  }

  /** Of n more rows each had a session. */
  predicate HaveSessions(before: seq<bool>, after: seq<bool>, n: nat) {
    before <= after && |after| == |before| + n && forall i | |before| <= i < |after| :: after[i]
  }

  lemma AllHaveSessions(before: seq<bool>, after: seq<bool>, n: nat)
    requires HaveSessions(before, after, n) && HaveSessions([], before, |before|)
    ensures HaveSessions([], after, |after|)
  {}

  datatype Line = Blank | Unusable | Usable(e: KernelEvent)

  predicate Matches(b: Books, buf: seq<KernelEvent>, total: nat, held: seq<Waiting>, rows: seq<KernelEvent>,
      dropped: nat) {
    b.buf == buf && b.total == total && b.waiting == held && Events(b.stored) == rows && |b.lost| == dropped
  }

  /** What the collector does in a flush is what its books say. */
  lemma FlushMatches(o: Options, clock: int, inputs: seq<Input>, i: Input, offer: seq<Waiting>, back: seq<Waiting>,
                     total: nat, held: seq<Waiting>, rows: seq<KernelEvent>, rows': seq<KernelEvent>, dropped: nat, dropped': nat)
    requires PossibleRun(o, clock, inputs) && o.batch > 0 && i.Flush?
    requires var b := Run(o, clock, inputs);
      && b.clock <= i.expiryNow <= i.now && offer == Pending(o, b, i.expiryNow, i.now) && Answers(i.reply, |offer|)
      && (o.requireSession || MissesNothing(i.reply))
      && Events(b.stored) == rows && |b.lost| == dropped
      && total == b.total + Counted(offer, i.reply)
      && dropped' == dropped + |b.waiting| - |Kept(o, b, i.expiryNow)| + |back| - |held|
    requires back == Back(offer, i.reply) && held == Trimmed(back, MaxHeld(o))
    requires rows' == if i.reply.Failed? then rows else rows + Landed(Events(offer), i.reply.missed)
    ensures PossibleRun(o, clock, inputs + [i]) && Matches(Run(o, clock, inputs + [i]), [], total, held, rows', dropped')
  {
    var b := Run(o, clock, inputs);
    var after := Apply(o, b, i);
    RunInTime(o, clock, inputs);
    RunOn(o, clock, inputs, i);
    FlushStores(o, b, i.expiryNow, i.now, i.reply, offer, after);
    FlushLoses(o, b, i.expiryNow, i.now, i.reply, back, after);
  }

  lemma EventsAppended(a: seq<Waiting>, b: seq<Waiting>)
    ensures Events(a + b) == Events(a) + Events(b)
    ensures b == [] ==> Events(a + b) == Events(a)
  {}

  lemma FlushStores(o: Options, b: Books, expiryNow: int, now: int, r: Reply, offer: seq<Waiting>, after: Books)
    requires offer == Pending(o, b, expiryNow, now) && after == Flushed(o, b, expiryNow, now, r)
    ensures Events(after.stored) == if r.Failed? then Events(b.stored) else Events(b.stored) + Landed(Events(offer), r.missed)
  {
    if r.Wrote? {
      LandedEvents(offer, r.missed);
      EventsAppended(b.stored, Landed(offer, r.missed));
    } else {
      EventsAppended(b.stored, []);
    }
  }

  lemma FlushLoses(o: Options, b: Books, expiryNow: int, now: int, r: Reply, back: seq<Waiting>, after: Books)
    requires InTime(o, b) && back == Back(Pending(o, b, expiryNow, now), r) && after == Flushed(o, b, expiryNow, now, r)
    ensures |after.lost| == |b.lost| + |b.waiting| - |Kept(o, b, expiryNow)| + |back| - |after.waiting|
  {
    ExpiryTakesPrefix(o, b, expiryNow);
  }

  class Collector {
    const opts: Options
    const st: Store
    const held: AttributionHold
    var buf: seq<KernelEvent>
    var total: nat
    var skipped: nat

    ghost const start: int
    ghost var inputs: seq<Input>

    ghost function Account(): Books
      reads this
    {
      Run(opts, start, inputs)
    }

    /** The collector's state is what its books say after a possible run. */
    ghost predicate Valid()
      reads this, st, held
    {
      && opts.batch > 0 && held.Valid() && held.grace == opts.grace && held.maxHeld == MaxHeld(opts)
      && PossibleRun(opts, start, inputs)
      && Matches(Account(), buf, total, held.Held(), st.rows, held.dropped)
      && SessionsKept()
    }

    /** Where a session is required every row had one. */
    ghost predicate SessionsKept()
      reads this, st
    {
      |st.sessions| == |st.rows| && (opts.requireSession ==> HaveSessions([], st.sessions, |st.sessions|))
    }

    constructor (opts: Options, st: Store, clock: int)
      requires opts.batch > 0 && st.rows == [] && st.sessions == []
      ensures Valid() && inputs == [] && fresh(held) && this.opts == opts && this.st == st
    {
      this.opts, this.st := opts, st;
      held := new AttributionHold(opts.grace, opts.batch);
      buf, total, skipped := [], 0, 0;
      start, inputs := clock, [];
    }

    /** Offers everything pending; what was missed, or everything when the write failed, is held
        for the next flush under its first stamp. */
    method Flush(expiryNow: int, now: int) returns (ok: bool, ghost reply: Reply)
      requires Valid() && Account().clock <= expiryNow <= now
      modifies this`buf, this`total, this`inputs, st, held
      ensures Valid() && inputs == old(inputs) + [Input.Flush(expiryNow, now, reply)]
      ensures ok <==> reply.Wrote?
      ensures buf == []
      ensures opts.requireSession && ok ==> HaveSessions(old(st.sessions), st.sessions, |st.rows| - |old(st.rows)|)
      ensures !opts.requireSession && ok ==> reply.missed == [] && held.Held() == []
      ensures st.faults == old(st.faults) + if ok then 0 else 1
    {
      ghost var rows, dropped := st.rows, held.dropped;
      RunInTime(opts, start, inputs);
      var pending := held.Merge(buf, expiryNow, now);
      ghost var offer := Zip(pending, held.offered);
      assert Events(offer) == pending;
      buf := [];
      ok, reply := Write(pending, now);
      ghost var i := Input.Flush(expiryNow, now, reply);
      FlushMatches(opts, start, inputs, i, offer, Back(offer, reply), total, held.Held(), rows, st.rows, dropped, held.dropped);
      if opts.requireSession { AllHaveSessions(old(st.sessions), st.sessions, |st.rows| - |old(st.rows)|); }
      inputs := inputs + [i];
    }

    /** Offers the events merged for this flush, and takes back those that did not land. */
    method Write(pending: seq<KernelEvent>, now: int) returns (ok: bool, ghost reply: Reply)
      requires held.Valid() && held.Held() == [] && |pending| == |held.offered|
      modifies this`total, st, held
      ensures held.Valid() && Answers(reply, |pending|) && (ok <==> reply.Wrote?)
      ensures var offer := Zip(pending, old(held.offered)); var back := Back(offer, reply);
        && held.Held() == Trimmed(back, held.maxHeld)
        && held.dropped == old(held.dropped) + |back| - |held.Held()|
        && total == old(total) + Counted(offer, reply)
      ensures st.rows == if ok then old(st.rows) + Landed(pending, reply.missed) else old(st.rows)
      ensures |st.sessions| - |old(st.sessions)| == |st.rows| - |old(st.rows)| && old(st.sessions) <= st.sessions
      ensures opts.requireSession ==> HaveSessions(old(st.sessions), st.sessions, |st.rows| - |old(st.rows)|)
      ensures opts.requireSession || (MissesNothing(reply) && (ok ==> held.Held() == []))
      ensures st.faults == old(st.faults) + if ok then 0 else 1
    {
      ok, reply := true, Wrote([]);
      if |pending| == 0 { return; }
      ghost var offer := Zip(pending, held.offered);
      var n, missed := 0, [];
      if opts.requireSession {
        n, missed, ok := st.InsertAttributed(pending);
      } else {
        n, ok := st.Insert(pending);
        AllLand(pending);
      }
      total := total + n;
      if ok {
        reply := Wrote(missed);
        LandedCount(offer, missed);
        held.Hold(pending, missed, now);
      } else {
        reply := Failed(n);
        held.HoldAll(pending, now);
      }
      assert [] + Back(offer, reply) == Back(offer, reply);
    }

    /** Takes one input line; a full batch is flushed at once, and a failure there is only a warning. */
    method Ingest(line: Line, expiryNow: int, now: int)
      requires Valid() && Account().clock <= expiryNow <= now && |buf| < opts.batch
      modifies this, st, held
      ensures Valid() && |buf| < opts.batch
      ensures Account().accepted == old(Account().accepted) + (if line.Usable? then [line.e] else [])
      ensures skipped == old(skipped) + (if line.Unusable? then 1 else 0)
    {
      match line
      case Blank =>
      case Unusable => skipped := skipped + 1;
      case Usable(e) =>
        RunOn(opts, start, inputs, Event(e));
        buf, inputs := buf + [e], inputs + [Event(e)];
        assert Account().accepted == old(Account().accepted) + [e];
        if |buf| >= opts.batch {
          var ok;
          ghost var reply, before := Wrote([]), inputs;
          RunInTime(opts, start, inputs);
          ok, reply := Flush(expiryNow, now);
          assert inputs[..|before|] == before;
        }
    }

    /** One last attempt at what is still held. What does not land now is nowhere afterwards, and is
        not in the dropped count either. */
    method DrainHeld() returns (n: nat, ok: bool, ghost stored: seq<Waiting>, ghost left: seq<Waiting>)
      requires Valid()
      modifies st, held
      ensures held.Valid() && held.Held() == [] && held.dropped == old(held.dropped)
      ensures multiset(stored) + multiset(left) == multiset(old(held.Held()))
      ensures st.rows == old(st.rows) + Events(stored)
      ensures SessionsKept() && st.faults == old(st.faults) + if ok then 0 else 1
      ensures ok && !opts.requireSession ==> left == []
      ensures !ok ==> stored == []
      ensures ok ==> n == |stored|
    {
      ghost var ws := held.Held();
      var rest := held.Drain();
      n, ok, stored, left := 0, true, [], ws;
      assert st.rows + Events([]) == st.rows;
      if |rest| == 0 { return; }
      if opts.requireSession {
        var missed;
        n, missed, ok := st.InsertAttributed(rest);
        if ok {
          stored, left := Landed(ws, missed), Picked(ws, missed);
          LandedOrPicked(ws, missed);
          LandedCount(ws, missed);
          LandedEvents(ws, missed);
        }
      } else {
        n, ok := st.Insert(rest);
        if ok { stored, left := ws, []; }
      }
    }

    /** Where every accepted event is once the collector has stopped. */
    ghost predicate Settled(left: seq<Waiting>, dropped: seq<Waiting>)
      reads this, st, held
    {
      && |dropped| == held.dropped && buf == [] && held.Valid() && held.Held() == [] && SessionsKept()
      && multiset(Account().accepted) == multiset(st.rows) + multiset(Events(dropped)) + multiset(Events(left))
    }

    /** End of input. An error of the last flush or of the input is returned before the hold is drained. */
    method Finish(scanOk: bool, expiryNow: int, now: int) returns (ok: bool, ghost left: seq<Waiting>,
        ghost dropped: seq<Waiting>)
      requires Valid() && Account().clock <= expiryNow <= now
      modifies this, st, held
      ensures Account().accepted == old(Account().accepted)
      ensures !ok ==> Valid() && (!scanOk || st.faults > old(st.faults))
      ensures ok ==> scanOk && Settled(left, dropped)
    {
      ghost var reply, before := Wrote([]), inputs;
      left, dropped := [], [];
      ok, reply := Flush(expiryNow, now);
      assert inputs[..|before|] == before;
      if !ok || !scanOk { return false, [], []; }
      left, dropped := Stop();
    }

    /** A signal: the last flush may fail, and the hold is drained all the same. */
    method FinalFlush(expiryNow: int, now: int) returns (ghost left: seq<Waiting>, ghost dropped: seq<Waiting>)
      requires Valid() && Account().clock <= expiryNow <= now
      modifies this, st, held
      ensures Account().accepted == old(Account().accepted)
      ensures Settled(left, dropped)
    {
      var ok;
      ghost var reply, before := Wrote([]), inputs;
      ok, reply := Flush(expiryNow, now);
      assert inputs[..|before|] == before;
      left, dropped := Stop();
    }

    method Stop() returns (ghost left: seq<Waiting>, ghost dropped: seq<Waiting>)
      requires Valid() && buf == []
      modifies this`total, st, held
      ensures Settled(left, dropped) && inputs == old(inputs)
    {
      ghost var b := Account();
      EveryEventAccountedFor(opts, start, inputs);
      dropped := LostEvents(b.lost);
      var n, ok;
      ghost var stored;
      n, ok, stored, left := DrainHeld();
      SplitEvents(b.waiting, stored, left, []);
      Drained(b, Events(stored), Events(left), st.rows);
      total := total + n;
    }
  }

  lemma Drained(b: Books, stored: seq<KernelEvent>, left: seq<KernelEvent>, rows: seq<KernelEvent>)
    requires b.buf == [] && rows == Events(b.stored) + stored
    requires multiset(Events(b.waiting)) == multiset(stored) + multiset(left) + multiset(Events([]))
    requires multiset(b.accepted) == multiset(Events(b.stored)) + multiset(Events(LostEvents(b.lost)))
                                  + multiset(Events(b.waiting)) + multiset(b.buf)
    ensures multiset(b.accepted) == multiset(rows) + multiset(Events(LostEvents(b.lost))) + multiset(left)
  {
    assert multiset(rows) == multiset(Events(b.stored)) + multiset(stored);
  }
}
