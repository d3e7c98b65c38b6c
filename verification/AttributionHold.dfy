/** Kernel events waiting for their session, each with the time it was first offered to the store. */
module AttributionHold {

  datatype KernelEvent = KernelEvent(id: nat)

  datatype Waiting = Waiting(event: KernelEvent, since: int)

  function Zip(events: seq<KernelEvent>, stamps: seq<int>): (r: seq<Waiting>)
    requires |events| == |stamps|
    ensures |r| == |events|
  {
    seq(|events|, i requires 0 <= i < |events| => Waiting(events[i], stamps[i]))
  }

  /** Events under the stamps they were offered with, or the present time where there is none. */
  function Offer(events: seq<KernelEvent>, stamps: seq<int>, now: int): (r: seq<Waiting>)
    ensures |r| == |events| && (|events| == |stamps| ==> r == Zip(events, stamps))
  {
    seq(|events|, i requires 0 <= i < |events| => Waiting(events[i], if i < |stamps| then stamps[i] else now))
  }

  function Stamped(events: seq<KernelEvent>, now: int): (r: seq<Waiting>)
    ensures |r| == |events| && forall i | 0 <= i < |r| :: r[i].since == now
  {
    seq(|events|, i requires 0 <= i < |events| => Waiting(events[i], now))
  }

  function Events(ws: seq<Waiting>): (r: seq<KernelEvent>)
    ensures |r| == |ws|
  {
    seq(|ws|, i requires 0 <= i < |ws| => ws[i].event)
  }

  predicate Sorted(ws: seq<Waiting>) {
    forall i, j | 0 <= i < j < |ws| :: ws[i].since <= ws[j].since
  }

  function NotBefore(ws: seq<Waiting>, cutoff: int): seq<Waiting> {
    if ws == [] then []
    else
      var rest, last := NotBefore(ws[..|ws| - 1], cutoff), ws[|ws| - 1];
      if last.since < cutoff then rest else rest + [last]
  }

  /** What is still within its grace. */
  function AfterExpiry(ws: seq<Waiting>, grace: int, now: int): seq<Waiting> {
    if grace <= 0 then [] else NotBefore(ws, now - grace)
  }

  function Trimmed(ws: seq<Waiting>, max: nat): seq<Waiting> {
    if |ws| > max then ws[|ws| - max..] else ws
  }

  /** The entries of ws named by index, in the order named; indices out of range name nothing. */
  function Picked(ws: seq<Waiting>, missed: seq<int>): seq<Waiting> {
    if missed == [] then []
    else
      var i := missed[|missed| - 1];
      Picked(ws, missed[..|missed| - 1]) + (if 0 <= i < |ws| then [ws[i]] else [])
  }

  function AllIndices(n: nat): (r: seq<int>)
    ensures |r| == n && forall i | 0 <= i < n :: r[i] == i
  {
    seq(n, i => i)
  }

  lemma {:induction false} PickedAll(ws: seq<Waiting>, n: nat)
    requires n <= |ws|
    ensures Picked(ws, AllIndices(n)) == ws[..n]
  {
    if n > 0 {
      assert AllIndices(n)[..n - 1] == AllIndices(n - 1);
      PickedAll(ws, n - 1);
    }
  }

  // ---- What sorted stamps give ----

  /** Expiry drops exactly a prefix: everything dropped waited longer than the grace, nothing kept did. */
  lemma {:induction false} ExpiryDropsPrefix(ws: seq<Waiting>, cutoff: int)
    requires Sorted(ws)
    ensures var kept := NotBefore(ws, cutoff); var k := |ws| - |kept|;
      && 0 <= k && kept == ws[k..]
      && (forall i | 0 <= i < k :: ws[i].since < cutoff)
      && (forall i | k <= i < |ws| :: ws[i].since >= cutoff)
  {
    if ws != [] { ExpiryDropsPrefix(ws[..|ws| - 1], cutoff); }
  }

  /** The cap drops the oldest. */
  lemma TrimDropsOldest(ws: seq<Waiting>, max: nat)
    requires Sorted(ws)
    ensures var kept := Trimmed(ws, max); var k := |ws| - |kept|;
      && 0 <= k && kept == ws[k..] && |kept| <= max && Sorted(kept)
      && (k > 0 ==> |kept| == max)
      && forall i, j | 0 <= i < k && 0 <= j < |kept| :: ws[i].since <= kept[j].since
  {}

  predicate Increasing(missed: seq<int>, n: nat) {
    && (forall i | 0 <= i < |missed| :: 0 <= missed[i] < n)
    && forall i, j | 0 <= i < j < |missed| :: missed[i] < missed[j]
  }

  /** The entries not named. */
  function Landed<T>(ws: seq<T>, missed: seq<int>): seq<T> {
    if ws == [] then []
    else
      var n := |ws| - 1;
      Landed(ws[..n], missed) + (if n in missed then [] else [ws[n]])
  }

  lemma {:induction false} PickedShorter(ws: seq<Waiting>, missed: seq<int>)
    requires ws != [] && Increasing(missed, |ws| - 1)
    ensures Picked(ws, missed) == Picked(ws[..|ws| - 1], missed)
  {
    if missed != [] { PickedShorter(ws, missed[..|missed| - 1]); }
  }

  lemma {:induction false} LandedIgnores<T>(ws: seq<T>, missed: seq<int>, i: int)
    requires i >= |ws|
    ensures Landed(ws, missed + [i]) == Landed(ws, missed)
  {
    if ws != [] { LandedIgnores(ws[..|ws| - 1], missed, i); }
  }

  lemma {:induction false} LandedEvents(ws: seq<Waiting>, missed: seq<int>)
    ensures Events(Landed(ws, missed)) == Landed(Events(ws), missed)
  {
    if ws != [] {
      var n := |ws| - 1;
      LandedEvents(ws[..n], missed);
      assert Events(ws)[..n] == Events(ws[..n]);
      assert Events(Landed(ws[..n], missed) + [ws[n]]) == Events(Landed(ws[..n], missed)) + [ws[n].event];
    }
  }

  lemma LastMissed(ws: seq<Waiting>, missed: seq<int>)
    requires ws != [] && missed != [] && missed[|missed| - 1] == |ws| - 1 && Increasing(missed, |ws|)
    ensures var n, rest := |ws| - 1, missed[..|missed| - 1];
      && Increasing(rest, n)
      && Landed(ws, missed) == Landed(ws[..n], rest)
      && Picked(ws, missed) == Picked(ws[..n], rest) + [ws[n]]
  {
    var n, rest := |ws| - 1, missed[..|missed| - 1];
    assert missed == rest + [n];
    LandedIgnores(ws[..n], rest, n);
    PickedShorter(ws, rest);
  }

  lemma LastLanded(ws: seq<Waiting>, missed: seq<int>)
    requires ws != [] && (missed == [] || missed[|missed| - 1] != |ws| - 1) && Increasing(missed, |ws|)
    ensures var n := |ws| - 1;
      && Increasing(missed, n)
      && Landed(ws, missed) == Landed(ws[..n], missed) + [ws[n]]
      && Picked(ws, missed) == Picked(ws[..n], missed)
  {
    var n := |ws| - 1;
    forall i | 0 <= i < |missed| ensures missed[i] < n {
      assert i < |missed| - 1 ==> missed[i] < missed[|missed| - 1];
    }
    assert n !in missed;
    PickedShorter(ws, missed);
  }

  lemma OneMore(ws: seq<Waiting>, landed: seq<Waiting>, picked: seq<Waiting>)
    requires ws != [] && multiset(landed) + multiset(picked) == multiset(ws[..|ws| - 1])
    ensures multiset(landed) + multiset(picked + [ws[|ws| - 1]]) == multiset(ws)
    ensures multiset(landed + [ws[|ws| - 1]]) + multiset(picked) == multiset(ws)
  {
    assert ws == ws[..|ws| - 1] + [ws[|ws| - 1]];
  }

  /** Each offered event either landed or was missed. */
  lemma {:induction false} LandedOrPicked(ws: seq<Waiting>, missed: seq<int>)
    requires Increasing(missed, |ws|)
    ensures multiset(Landed(ws, missed)) + multiset(Picked(ws, missed)) == multiset(ws)
    decreases |ws|
  {
    if ws == [] {
      PickedNone(missed);
    } else {
      var n, rest := |ws| - 1, missed;
      if missed != [] && missed[|missed| - 1] == n {
        LastMissed(ws, missed);
        rest := missed[..|missed| - 1];
      } else {
        LastLanded(ws, missed);
      }
      LandedOrPicked(ws[..n], rest);
      OneMore(ws, Landed(ws[..n], rest), Picked(ws[..n], rest));
    }
  }

  lemma {:induction false} PickedNone(missed: seq<int>)
    ensures Picked([], missed) == []
  {
    if missed != [] { PickedNone(missed[..|missed| - 1]); }
  }

  /** The store's count is the number of events that landed. */
  lemma LandedCount(ws: seq<Waiting>, missed: seq<int>)
    requires Increasing(missed, |ws|)
    ensures |Landed(ws, missed)| == |ws| - |missed|
  {
    LandedOrPicked(ws, missed);
    PickedByIndex(ws, missed);
    assert |multiset(Landed(ws, missed)) + multiset(Picked(ws, missed))| == |multiset(ws)|;
  }

  lemma {:induction false} PickedByIndex(ws: seq<Waiting>, missed: seq<int>)
    requires Increasing(missed, |ws|)
    ensures |Picked(ws, missed)| == |missed|
    ensures forall k | 0 <= k < |missed| :: Picked(ws, missed)[k] == ws[missed[k]]
  {
    if missed != [] { PickedByIndex(ws, missed[..|missed| - 1]); }
  }

  /** Holding the missed events of a sorted offer keeps the stamps sorted. */
  lemma PickedSorted(ws: seq<Waiting>, missed: seq<int>)
    requires Sorted(ws) && Increasing(missed, |ws|)
    ensures Sorted(Picked(ws, missed))
  {
    PickedByIndex(ws, missed);
  }

  // ---- The hold itself ----

  class AttributionHold {
    const grace: int
    const maxHeld: nat

    var events: seq<KernelEvent>
    var firstAt: seq<int>
    var offered: seq<int>
    var dropped: nat

    ghost predicate Valid()
      reads this
    {
      |events| == |firstAt|
    }

    ghost function Held(): seq<Waiting>
      requires Valid()
      reads this
    {
      Zip(events, firstAt)
    }

    constructor (grace: int, batch: int)
      ensures Valid() && Held() == [] && dropped == 0
      ensures this.grace == grace && maxHeld == 20 * (if batch <= 0 then 200 else batch)
    {
      this.grace, maxHeld := grace, 20 * (if batch <= 0 then 200 else batch);
      events, firstAt, offered, dropped := [], [], [], 0;
    }

    /** Drops what has waited out its grace, compacting in place. */
    method Expire(now: int)
      requires Valid()
      modifies this`events, this`firstAt, this`dropped
      ensures Valid() && Held() == AfterExpiry(old(Held()), grace, now)
      ensures dropped == old(dropped) + |old(Held())| - |Held()|
    {
      if grace <= 0 {
        dropped := dropped + |events|;
        events, firstAt := [], [];
        return;
      }
      var cutoff := now - grace;
      var keep := 0;
      ghost var all := Held();
      assert all[..0] == [];
      for i := 0 to |events|
        invariant 0 <= keep <= i <= |events| == |firstAt| == |all|
        invariant Zip(events[..keep], firstAt[..keep]) == NotBefore(all[..i], cutoff)
        invariant forall j | i <= j < |all| :: events[j] == all[j].event && firstAt[j] == all[j].since
        invariant dropped == old(dropped) + i - keep
      {
        assert all[..i + 1][..i] == all[..i] && all[..i + 1][i] == all[i];
        if firstAt[i] < cutoff {
          dropped := dropped + 1;
        } else {
          events, firstAt := events[keep := events[i]], firstAt[keep := firstAt[i]];
          keep := keep + 1;
          assert Zip(events[..keep], firstAt[..keep]) == NotBefore(all[..i], cutoff) + [all[i]];
        }
      }
      assert all[..|all|] == all;
      events, firstAt := events[..keep], firstAt[..keep];
    }

    /** Hands out everything to attempt now: what is still within its grace, oldest first, then the
        new batch. Expiry and the new stamps read the clock one after the other. */
    method Merge(batch: seq<KernelEvent>, expiryNow: int, now: int) returns (out: seq<KernelEvent>)
      requires Valid()
      modifies this
      ensures Valid() && Held() == [] && |out| == |offered|
      ensures Zip(out, offered) == AfterExpiry(old(Held()), grace, expiryNow) + Stamped(batch, now)
      ensures dropped == old(dropped) + |old(Held())| - |AfterExpiry(old(Held()), grace, expiryNow)|
    {
      Expire(expiryNow);
      ghost var lost := dropped;
      out, offered := events + batch, firstAt;
      for i := 0 to |batch|
        invariant Valid() && |out| == |events| + |batch| && |offered| == |events| + i
        invariant offered[..|events|] == firstAt && forall k | |events| <= k < |offered| :: offered[k] == now
        invariant Held() == AfterExpiry(old(Held()), grace, expiryNow) && dropped == lost
        invariant out == events + batch
      {
        offered := offered + [now];
      }
      assert Zip(out, offered) == Held() + Stamped(batch, now);
      events, firstAt := [], [];
    }

    /** Takes back the missed events; each keeps the stamp it was offered with, and one that was not
        offered gets the present time. */
    method Hold(events': seq<KernelEvent>, missed: seq<int>, now: int)
      requires Valid()
      modifies this`events, this`firstAt, this`dropped
      ensures Valid()
      ensures var back := old(Held()) + Picked(Offer(events', offered, now), missed);
        Held() == Trimmed(back, maxHeld) && dropped == old(dropped) + |back| - |Held()|
    {
      ghost var ws := Offer(events', offered, now);
      for k := 0 to |missed|
        invariant Valid() && Held() == old(Held()) + Picked(ws, missed[..k]) && dropped == old(dropped)
      {
        var i := missed[k];
        assert missed[..k + 1][..k] == missed[..k];
        if 0 <= i < |events'| {
          var stamp := if i < |offered| then offered[i] else now;
          events, firstAt := events + [events'[i]], firstAt + [stamp];
          assert Held() == old(Held()) + Picked(ws, missed[..k]) + [ws[i]];
        }
        assert Held() == old(Held()) + Picked(ws, missed[..k + 1]);
      }
      assert missed[..|missed|] == missed;
      Trim();
    }

    /** A failed write: everything offered is taken back. */
    method HoldAll(events': seq<KernelEvent>, now: int)
      requires Valid()
      modifies this`events, this`firstAt, this`dropped
      ensures Valid()
      ensures var back := old(Held()) + Offer(events', offered, now);
        Held() == Trimmed(back, maxHeld) && dropped == old(dropped) + |back| - |Held()|
    {
      ghost var ws := Offer(events', offered, now);
      PickedAll(ws, |ws|);
      assert ws[..|ws|] == ws;
      Hold(events', AllIndices(|events'|), now);
    }

    method Trim()
      requires Valid()
      modifies this`events, this`firstAt, this`dropped
      ensures Valid() && Held() == Trimmed(old(Held()), maxHeld)
      ensures dropped == old(dropped) + |old(Held())| - |Held()|
    {
      var over := |events| - maxHeld;
      if over > 0 {
        dropped := dropped + over;
        events, firstAt := events[over..], firstAt[over..];
      }
    }

    method Drain() returns (out: seq<KernelEvent>)
      requires Valid()
      modifies this`events, this`firstAt
      ensures Valid() && out == Events(old(Held())) && Held() == []
    {
      out := events;
      events, firstAt := [], [];
    }
  }
}
