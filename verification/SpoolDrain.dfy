/** What one undisturbed drain does to the directory and hands to the sink. */
module SpoolDrain {
  import opened SpoolFiles

  /** How many records one round trip to a batch sink carries. */
  const REPLAY_CHUNK: nat := 500

  function Min(a: nat, b: nat): nat { if a < b then a else b }

  /** A file of which n records were sent: rewritten with the rest, or gone. */
  function AfterSending(files: Files, path: Name, n: nat): Files
    requires n <= |EntriesOf(files, path)|
  {
    var es := EntriesOf(files, path);
    if n < |es| then files[path := Encode(es[n..])] else files - {path}
  }

  /** The live file renamed aside, when there is one. */
  function ClaimLive(files: Files, tag: nat): Files {
    if Live in files then (files - {Live})[Claim(tag) := files[Live]] else files
  }

  datatype Outcome = Outcome(files: Files, sent: seq<Entry>, skipped: nat)

  function SkippedIn(files: Files, path: Name): nat {
    if path in files then Skipped(files[path]) else 0
  }

  /** Everything a drain of this queue does when nothing fails. */
  function DrainAll(files: Files, queue: seq<Name>, budget: nat): Outcome {
    if queue == [] || budget == 0 then Outcome(files, [], 0)
    else
      var es := EntriesOf(files, queue[0]);
      var n := Min(budget, |es|);
      var rest := DrainAll(AfterSending(files, queue[0], n), queue[1..], budget - n);
      Outcome(rest.files, es[..n] + rest.sent, SkippedIn(files, queue[0]) + rest.skipped)
  }

  lemma RestStays(files: Files, path: Name, n: nat)
    requires n <= |EntriesOf(files, path)|
    ensures EntriesOf(AfterSending(files, path, n), path) == EntriesOf(files, path)[n..]
  {
    EncodeReadable(EntriesOf(files, path)[n..]);
  }

  lemma {:induction false} DrainFrame(files: Files, queue: seq<Name>, budget: nat, p: Name)
    requires p !in queue
    ensures EntriesOf(DrainAll(files, queue, budget).files, p) == EntriesOf(files, p)
    decreases queue
  {
    if queue != [] && budget != 0 {
      var n := Min(budget, |EntriesOf(files, queue[0])|);
      DrainFrame(AfterSending(files, queue[0], n), queue[1..], budget - n, p);
    }
  }

  /** The records a drain gets to, and those it does not. */
  function Reached(all: seq<Entry>, budget: nat): seq<Entry> { all[..Min(budget, |all|)] }

  function Beyond(all: seq<Entry>, budget: nat): seq<Entry> { all[Min(budget, |all|)..] }

  lemma OtherFilesSame(files: Files, queue: seq<Name>, n: nat)
    requires Distinct(queue) && queue != [] && n <= |EntriesOf(files, queue[0])|
    ensures AllEntries(AfterSending(files, queue[0], n), queue[1..]) == AllEntries(files, queue[1..])
  {
    DistinctRest(queue);
    SameEntries(files, AfterSending(files, queue[0], n), queue[1..]);
  }

  /** The first file of a drain, and the rest of it. */
  lemma DrainHead(files: Files, queue: seq<Name>, budget: nat, es: seq<Entry>, n: nat, mid: Files, rest: Outcome)
    requires Distinct(queue) && queue != [] && budget != 0
    requires es == EntriesOf(files, queue[0]) && n == Min(budget, |es|) && mid == AfterSending(files, queue[0], n)
    requires rest == DrainAll(mid, queue[1..], budget - n)
    ensures DrainAll(files, queue, budget).sent == es[..n] + rest.sent && DrainAll(files, queue, budget).files == rest.files
    ensures Reached(AllEntries(files, queue), budget) == es[..n] + Reached(AllEntries(mid, queue[1..]), budget - n)
    ensures Beyond(AllEntries(files, queue), budget) == es[n..] + Beyond(AllEntries(mid, queue[1..]), budget - n)
  {
    OtherFilesSame(files, queue, n);
    SplitAtBudget(es, AllEntries(files, queue[1..]), budget);
  }

  /** A drain sends a prefix of its queue's records, in file order and with no gap, as long as the
      budget allows. */
  lemma {:induction false} DrainSendsPrefix(files: Files, queue: seq<Name>, budget: nat)
    requires Distinct(queue)
    ensures DrainAll(files, queue, budget).sent == Reached(AllEntries(files, queue), budget)
    decreases queue
  {
    if queue != [] && budget != 0 {
      var es := EntriesOf(files, queue[0]);
      var n := Min(budget, |es|);
      var mid := AfterSending(files, queue[0], n);
      DistinctRest(queue);
      DrainSendsPrefix(mid, queue[1..], budget - n);
      DrainHead(files, queue, budget, es, n, mid, DrainAll(mid, queue[1..], budget - n));
    } else {
      assert Reached(AllEntries(files, queue), budget) == [];
    }
  }

  lemma HeadAndRest(files: Files, queue: seq<Name>, head: seq<Entry>, rest: seq<Entry>)
    requires queue != [] && EntriesOf(files, queue[0]) == head && AllEntries(files, queue[1..]) == rest
    ensures AllEntries(files, queue) == head + rest
  {}

  /** And what it leaves on disk is exactly the rest, in the same order. */
  lemma {:induction false} DrainLeavesRest(files: Files, queue: seq<Name>, budget: nat)
    requires Distinct(queue)
    ensures AllEntries(DrainAll(files, queue, budget).files, queue) == Beyond(AllEntries(files, queue), budget)
    decreases queue
  {
    if queue == [] || budget == 0 {
      assert Beyond(AllEntries(files, queue), budget) == AllEntries(files, queue);
    } else {
      DrainLeavesRestOf(files, queue, budget, AfterSending(files, queue[0], Min(budget, |EntriesOf(files, queue[0])|)));
    }
  }

  lemma {:induction false} DrainLeavesRestOf(files: Files, queue: seq<Name>, budget: nat, mid: Files)
    requires Distinct(queue) && queue != [] && budget > 0
    requires mid == AfterSending(files, queue[0], Min(budget, |EntriesOf(files, queue[0])|))
    ensures AllEntries(DrainAll(files, queue, budget).files, queue) == Beyond(AllEntries(files, queue), budget)
    decreases queue, 0
  {
    var es, rest := EntriesOf(files, queue[0]), queue[1..];
    var n := Min(budget, |es|);
    var done := DrainAll(mid, rest, budget - n);
    DistinctRest(queue);
    RestStays(files, queue[0], n);
    DrainFrame(mid, rest, budget - n, queue[0]);
    DrainLeavesRest(mid, rest, budget - n);
    HeadAndRest(done.files, queue, es[n..], Beyond(AllEntries(mid, rest), budget - n));
    DrainHead(files, queue, budget, es, n, mid, done);
  }

  lemma SplitAtBudget(a: seq<Entry>, b: seq<Entry>, budget: nat)
    ensures var n := Min(budget, |a|);
      && Beyond(a + b, budget) == a[n..] + Beyond(b, budget - n)
      && Reached(a + b, budget) == a[..n] + Reached(b, budget - n)
  {
    if budget <= |a| {
      assert (a + b)[budget..] == a[budget..] + b;
      assert (a + b)[..budget] == a[..budget];
    } else {
      var m := Min(budget - |a|, |b|);
      assert (a + b)[|a| + m..] == b[m..];
      assert (a + b)[..|a| + m] == a + b[..m];
    }
  }

  /** Sending part of one file moves those records off the disk. */
  lemma AfterSendingConserves(files: Files, path: Name, n: nat)
    requires n <= |EntriesOf(files, path)|
    ensures multiset(EntriesOf(files, path)[..n]) + OnDisk(AfterSending(files, path, n)) == OnDisk(files)
  {
    var es, after := EntriesOf(files, path), AfterSending(files, path, n);
    RestStays(files, path, n);
    assert after - {path} == files - {path};
    var others := OnDiskDiffer(files, after, path);
    TakeAndRest(es, n, others);
  }

  lemma TakeAndRest(es: seq<Entry>, n: nat, others: multiset<Entry>)
    requires n <= |es|
    ensures multiset(es[..n]) + (multiset(es[n..]) + others) == multiset(es) + others
  {
    assert es == es[..n] + es[n..];
  }

  /** What a drain takes off the disk is what it sent. */
  lemma DrainConserves(files: Files, queue: seq<Name>, budget: nat)
    requires Covers(files, queue)
    ensures var done := DrainAll(files, queue, budget); var after := done.files;
      && Covers(after, queue)
      && multiset(done.sent) + OnDisk(after) == OnDisk(files)
      && |OnDisk(after)| == |OnDisk(files)| - Min(budget, |OnDisk(files)|)
  {
    var all, after := AllEntries(files, queue), DrainAll(files, queue, budget).files;
    DrainKeys(files, queue, budget);
    AllEntriesIsDisk(files, queue);
    AllEntriesIsDisk(after, queue);
    DrainSendsPrefix(files, queue, budget);
    DrainLeavesRest(files, queue, budget);
    Counting(all, budget, OnDisk(files), OnDisk(after));
  }

  lemma Counting(all: seq<Entry>, budget: nat, before: multiset<Entry>, after: multiset<Entry>)
    requires before == multiset(all) && after == multiset(Beyond(all, budget))
    ensures multiset(Reached(all, budget)) + after == before
    ensures |after| == |before| - Min(budget, |before|)
  {
    assert all == Reached(all, budget) + Beyond(all, budget);
  }

  lemma {:induction false} DrainKeys(files: Files, queue: seq<Name>, budget: nat)
    ensures DrainAll(files, queue, budget).files.Keys <= files.Keys
    decreases queue
  {
    if queue != [] && budget != 0 {
      var n := Min(budget, |EntriesOf(files, queue[0])|);
      DrainKeys(AfterSending(files, queue[0], n), queue[1..], budget - n);
    }
  }

  lemma ClaimKeepsDisk(files: Files, tag: nat)
    requires Claim(tag) !in files
    ensures OnDisk(ClaimLive(files, tag)) == OnDisk(files)
    ensures Live !in ClaimLive(files, tag)
  {
    if Live in files {
      RemoveFile(files, Live);
      AddFile(files - {Live}, Claim(tag), files[Live]);
    }
  }

  /** One drain with a working sink and nothing appended meanwhile. */
  ghost predicate DrainsTo(before: Files, after: Files, budget: nat) {
    exists tag, queue :: DrainsVia(before, after, budget, tag, queue)
  }

  ghost predicate DrainsVia(before: Files, after: Files, budget: nat, tag: nat, queue: seq<Name>) {
    && Claim(tag) !in before
    && Covers(ClaimLive(before, tag), queue)
    && after == DrainAll(ClaimLive(before, tag), queue, budget).files
  }

  lemma DrainCounts(before: Files, after: Files, budget: nat)
    requires DrainsTo(before, after, budget)
    ensures |OnDisk(after)| == |OnDisk(before)| - Min(budget, |OnDisk(before)|)
  {
    var tag, queue :| DrainsVia(before, after, budget, tag, queue);
    var claimed := ClaimLive(before, tag);
    ClaimKeepsDisk(before, tag);
    DrainConserves(claimed, queue, budget);
  }

  /** A backlog of n records is gone after n / budget drains, rounded up. */
  lemma {:induction false} BacklogDrains(run: seq<Files>, budget: nat)
    requires |run| > 0 && budget > 0
    requires forall i | 0 <= i < |run| - 1 :: DrainsTo(run[i], run[i + 1], budget)
    ensures var n := |OnDisk(run[0])|; var k := |run| - 1;
      && |OnDisk(run[k])| == n - Min(k * budget, n)
      && ((n + budget - 1) / budget <= k <==> OnDisk(run[k]) == multiset{})
  {
    var n, k := |OnDisk(run[0])|, |run| - 1;
    if k > 0 {
      BacklogDrains(run[..k], budget);
      DrainCounts(run[k - 1], run[k], budget);
      assert k * budget == (k - 1) * budget + budget;
    }
    RoundUp(n, budget, k);
  }

  lemma TimesBudget(a: nat, b: nat, budget: nat)
    requires a <= b
    ensures a * budget <= b * budget
  {}

  lemma RoundUp(n: nat, budget: nat, k: nat)
    requires budget > 0
    ensures (n + budget - 1) / budget <= k <==> n <= k * budget
  {
    var q := (n + budget - 1) / budget;
    assert q * budget <= n + budget - 1 < q * budget + budget;
    if q <= k {
      TimesBudget(q, k, budget);
    } else {
      TimesBudget(k + 1, q, budget);
      assert (k + 1) * budget == k * budget + budget;
    }
  }
}
