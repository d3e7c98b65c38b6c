/** The redactor and the masked streams over it, as `vctl kv exec` runs them. */
module KvRedactor {
  import opened ByteStrings
  import opened Redaction
  import opened RedactedForms
  import opened DecodedForms

  const MASK_MIN := 4

  /** One needle for every form of every value long enough to mask, and nothing else. */
  ghost predicate NeedlesOf(values: map<Bytes, Bytes>, ns: seq<Needle>) {
    LongestFirst(ns) && forall n :: multiset(ns)[n] == (if Wanted(values, n) then 1 else 0)
  }

  ghost predicate Wanted(values: map<Bytes, Bytes>, n: Needle) {
    n.key in values && |values[n.key]| >= MASK_MIN && n.bytes in Forms(values[n.key])
  }

  /** A text that spells a value of four bytes or more, under that value's key. */
  ghost predicate Spelled(values: map<Bytes, Bytes>, n: Needle) {
    n.key in values && |values[n.key]| >= 4 && Spells(n.bytes, values[n.key])
  }

  /** The needles are those texts, once each. */
  lemma NeedlesSpell(values: map<Bytes, Bytes>, ns: seq<Needle>)
    requires NeedlesOf(values, ns)
    ensures forall n :: multiset(ns)[n] == (if Spelled(values, n) then 1 else 0)
  {
    forall n ensures Wanted(values, n) <==> Spelled(values, n) {
      if n.key in values { FormsSpell(values[n.key], n.bytes); }
    }
  }

  lemma LongestFirstCons(h: Needle, ns: seq<Needle>)
    requires LongestFirst(ns) && forall m | m in ns :: |m.bytes| <= |h.bytes|
    ensures LongestFirst([h] + ns)
  {
    var r := [h] + ns;
    forall i, j | 0 <= i < j < |r| ensures |r[i].bytes| >= |r[j].bytes| {
      assert r[j] == ns[j - 1];
      assert i > 0 ==> r[i] == ns[i - 1];
    }
  }

  lemma LongestFirstRest(ns: seq<Needle>)
    requires LongestFirst(ns) && ns != []
    ensures LongestFirst(ns[1..]) && forall m | m in ns[1..] :: |m.bytes| <= |ns[0].bytes|
  {
    forall i | 0 <= i < |ns| - 1 ensures ns[1..][i] == ns[i + 1] {}
  }

  /** The stable sort by descending length: n goes before the first needle no longer than it. */
  function Insert(n: Needle, ns: seq<Needle>): (r: seq<Needle>)
    requires LongestFirst(ns)
    ensures LongestFirst(r) && multiset(r) == multiset{n} + multiset(ns)
  {
    if ns == [] then [n]
    else
      LongestFirstRest(ns);
      assert ns == [ns[0]] + ns[1..];
      if |ns[0].bytes| <= |n.bytes| then
        LongestFirstCons(n, ns);
        [n] + ns
      else
        var rest := Insert(n, ns[1..]);
        assert forall m | m in rest :: m in multiset(rest);
        LongestFirstCons(ns[0], rest);
        [ns[0]] + rest
  }

  function SortByLength(ns: seq<Needle>): (r: seq<Needle>)
    ensures LongestFirst(r) && multiset(r) == multiset(ns)
  {
    if ns == [] then []
    else
      assert ns == [ns[0]] + ns[1..];
      Insert(ns[0], SortByLength(ns[1..]))
  }

  /** The masked values' needles are nonempty, and bracket-free exactly when the values are: the
      encoded forms bring no brackets of their own. */
  lemma NeedlesAreUsable(values: map<Bytes, Bytes>, ns: seq<Needle>)
    requires NeedlesOf(values, ns)
    ensures NonEmpty(ns)
    ensures NoBrackets(ns) <==> forall k | k in values && |values[k]| >= MASK_MIN :: BracketFree(values[k])
  {
    forall n | n in ns
      ensures n.bytes != [] && Wanted(values, n) && (BracketFree(values[n.key]) ==> BracketFree(n.bytes))
    {
      assert n in multiset(ns);
      FormsHaveNoBrackets(values[n.key]);
    }
    forall k | k in values && |values[k]| >= MASK_MIN ensures Needle(values[k], k) in ns {
      assert Forms(values[k])[0] == values[k];
      assert Wanted(values, Needle(values[k], k));
      assert Needle(values[k], k) in multiset(ns);
    }
  }

  method DistinctNeedles(forms: seq<Bytes>, key: Bytes) returns (ns: seq<Needle>)
    ensures forall n :: multiset(ns)[n] == (if n.key == key && n.bytes in forms then 1 else 0)
  {
    ns := [];
    var seen: set<Bytes> := {};
    for i := 0 to |forms|
      invariant seen == set f | f in forms[..i]
      invariant forall n :: multiset(ns)[n] == (if n.key == key && n.bytes in forms[..i] then 1 else 0)
    {
      assert forms[..i + 1] == forms[..i] + [forms[i]];
      if forms[i] !in seen {
        seen := seen + {forms[i]};
        ns := ns + [Needle(forms[i], key)];
      }
    }
    assert forms[..|forms|] == forms;
  }

  /** found holds each wanted needle of the keys done, once. */
  ghost predicate FoundAllBut(values: map<Bytes, Bytes>, found: seq<Needle>, todo: set<Bytes>) {
    forall n :: multiset(found)[n] == (if n.key !in todo && Wanted(values, n) then 1 else 0)
  }

  lemma FoundOneMore(values: map<Bytes, Bytes>, found: seq<Needle>, todo: set<Bytes>, key: Bytes, more: seq<Needle>)
    requires FoundAllBut(values, found, todo) && key in todo && key in values
    requires forall n :: multiset(more)[n] == (if n.key == key && Wanted(values, n) then 1 else 0)
    ensures FoundAllBut(values, found + more, todo - {key})
  {
    forall n ensures multiset(found + more)[n] == (if n.key !in todo - {key} && Wanted(values, n) then 1 else 0) {
      assert multiset(found + more)[n] == multiset(found)[n] + multiset(more)[n];
    }
  }

  method FormsOfAll(values: map<Bytes, Bytes>) returns (found: seq<Needle>)
    ensures FoundAllBut(values, found, {})
  {
    found := [];
    var todo := values.Keys;
    while todo != {}
      invariant todo <= values.Keys && FoundAllBut(values, found, todo)
    {
      var key :| key in todo;
      var more := [];
      if |values[key]| >= MASK_MIN { more := DistinctNeedles(Forms(values[key]), key); }
      FoundOneMore(values, found, todo, key, more);
      found, todo := found + more, todo - {key};
    }
  }

  class KvRedactor {
    var needles: seq<Needle>
    var hits: map<Bytes, nat>

    constructor (values: map<Bytes, Bytes>)
      ensures NeedlesOf(values, needles) && hits == map[]
      ensures forall n :: multiset(needles)[n] == (if Spelled(values, n) then 1 else 0)
    {
      var found := FormsOfAll(values);
      var sorted := SortByLength(found);
      NeedlesSpell(values, sorted);
      needles := sorted;
      hits := map[];
    }

    ghost predicate Valid() reads this { NonEmpty(needles) }

    function HitsOf(key: Bytes): nat reads this { if key in hits then hits[key] else 0 }

    method Redact(buf: Bytes) returns (out: Bytes)
      requires Valid()
      modifies this`hits
      ensures out == Redaction.Redact(needles, buf)
      ensures forall k :: HitsOf(k) == old(HitsOf(k)) + Hits(needles, buf, k)
    {
      out := buf;
      for i := 0 to |needles|
        invariant Redaction.Redact(needles[i..], out) == Redaction.Redact(needles, buf)
        invariant forall k :: HitsOf(k) + Hits(needles[i..], out, k) == old(HitsOf(k)) + Hits(needles, buf, k)
      {
        var n := needles[i];
        assert needles[i..][1..] == needles[i + 1..] && needles[i..][0] == n;
        var c := Count(out, n.bytes);
        if c > 0 {
          hits := hits[n.key := HitsOf(n.key) + c];
          out := ReplaceAll(out, n.bytes, Placeholder(n.key));
        } else {
          CountZero(out, n.bytes, Placeholder(n.key));
        }
      }
    }

    method HoldbackLen(buf: Bytes) returns (hold: nat)
      requires Valid()
      ensures hold == Holdback(needles, buf)
    {
      hold := 0;
      for i := 0 to |needles|
        invariant hold == 0 || CouldGrow(needles, buf, hold)
        invariant hold <= |buf| && NoneLonger(needles[..i], buf, hold)
      {
        hold := LongerMatch(needles[i].bytes, buf, hold);
        assert needles[..i + 1] == needles[..i] + [needles[i]];
        OneMoreNeedle(needles[..i], needles[i], buf);
      }
      assert needles[..|needles|] == needles;
      HoldIsUnique(needles, buf, hold, Holdback(needles, buf));
    }
  }

  ghost predicate Extends(n: Bytes, buf: Bytes, l: nat) {
    l <= |buf| && buf[|buf| - l..] < n
  }

  lemma OneMoreNeedle(ns: seq<Needle>, n: Needle, buf: Bytes)
    ensures forall l: nat :: CouldGrow(ns + [n], buf, l) ==> CouldGrow(ns, buf, l) || Extends(n.bytes, buf, l)
  {}

  /** One needle's turn: the longest proper prefix of n, longer than hold, that ends buf. */
  method LongerMatch(n: Bytes, buf: Bytes, hold: nat) returns (l: nat)
    requires n != [] && hold <= |buf|
    ensures l == hold || Extends(n, buf, l)
    ensures hold <= l <= |buf| && forall k: nat | k > l :: !Extends(n, buf, k)
  {
    l := if |n| - 1 < |buf| then |n| - 1 else |buf|;
    while l > hold
      invariant l <= |buf| && l < |n|
      invariant forall k: nat | k > l :: !Extends(n, buf, k)
    {
      if HasSuffix(buf, n[..l]) {
        assert Extends(n, buf, l);
        return;
      }
      assert !Extends(n, buf, l);
      l := l - 1;
    }
    l := hold;
  }

  lemma {:induction false} CountZero(s: Bytes, w: Bytes, r: Bytes)
    requires w != [] && Count(s, w) == 0
    ensures ReplaceAll(s, w, r) == s
  {
    if |s| >= |w| && s[..|w|] != w { CountZero(s[1..], w, r); }
  }

  /** What is written to a stream. A write may fail, having passed on a part of its bytes. */
  class Sink {
    var written: Bytes
    ghost var faults: nat

    method Write(p: Bytes) returns (ok: bool)
      modifies this
      ensures ok ==> written == old(written) + p
      ensures old(written) <= written <= old(written) + p
      ensures faults == old(faults) + if ok then 0 else 1
    {
      ok := *;
      if !ok { faults := faults + 1; }
      var n :| 0 <= n <= |p|;
      written := written + (if ok then p else p[..n]);
    }
  }

  class MaskWriter {
    const m: KvRedactor
    const w: Sink
    var tail: Bytes

    constructor (m: KvRedactor, w: Sink)
      ensures this.m == m && this.w == w && tail == []
    {
      this.m, this.w, tail := m, w, [];
    }

    /** Holds back first, redacts second. A failed write keeps the tail, but what it was about
        to redact stays counted. */
    method Write(p: Bytes) returns (n: nat, ok: bool)
      requires m.Valid()
      modifies this, w, m`hits
      ensures var buf := old(tail) + p; var out := Redact(m.needles, Release(m.needles, buf));
        && (ok ==> n == |p| && tail == Keep(m.needles, buf) && w.written == old(w.written) + out)
        && (!ok ==> n == 0 && tail == old(tail) && old(w.written) <= w.written <= old(w.written) + out)
        && forall k :: m.HitsOf(k) == old(m.HitsOf(k)) + Hits(m.needles, Release(m.needles, buf), k)
      ensures w.faults == old(w.faults) + if ok then 0 else 1
    {
      var buf := tail + p;
      var hold := m.HoldbackLen(buf);
      var out := m.Redact(buf[..|buf| - hold]);
      ok := w.Write(out);
      if !ok { return 0, false; }
      tail := buf[|buf| - hold..];
      n := |p|;
    }

    /** The tail is gone even when the write fails; what then came out of it is a piece of its
        redaction, and no hit is counted twice. */
    method Flush() returns (ok: bool)
      requires m.Valid()
      modifies this, w, m`hits
      ensures tail == []
      ensures ok ==> w.written == old(w.written) + Redact(m.needles, old(tail))
      ensures !ok ==> old(w.written) <= w.written <= old(w.written) + Redact(m.needles, old(tail))
      ensures forall k :: m.HitsOf(k) == old(m.HitsOf(k)) + Hits(m.needles, old(tail), k)
      ensures w.faults == old(w.faults) + if ok then 0 else 1
    {
      if |tail| == 0 {
        RedactEmpty(m.needles);
        return true;
      }
      var out := m.Redact(tail);
      ok := w.Write(out);
      tail := [];
    }
  }

  lemma {:induction false} RedactEmpty(ns: seq<Needle>)
    requires NonEmpty(ns)
    ensures Redact(ns, []) == [] && forall k :: Hits(ns, [], k) == 0
  {
    if ns != [] { RedactEmpty(ns[1..]); }
  }

  datatype Chunk = Chunk(toStderr: bool, bytes: Bytes)

  /** The chunks of one stream, in the order they were written. */
  function ChunksOf(schedule: seq<Chunk>, toStderr: bool): seq<Bytes> {
    if schedule == [] then []
    else
      var first := if schedule[0].toStderr == toStderr then [schedule[0].bytes] else [];
      first + ChunksOf(schedule[1..], toStderr)
  }

  predicate Same(a: seq<Bytes>, b: seq<Bytes>) { a == b }

  ghost predicate Yields(ns: seq<Needle>, tail: Bytes, rest: seq<Bytes>, out: Bytes)
    requires NonEmpty(ns)
  {
    forall r | Same(r, rest) :: out == Stream(ns, tail, r)
  }

  ghost predicate Counts(ns: seq<Needle>, tail: Bytes, rest: seq<Bytes>, k: Bytes, n: nat)
    requires NonEmpty(ns)
  {
    forall r | Same(r, rest) :: n == StreamHits(ns, tail, r, k)
  }

  /** What a stream still owes in bytes and in hits: Stream and StreamHits, unfolded by OwedIs only. */
  ghost function Owed(ns: seq<Needle>, tail: Bytes, rest: seq<Bytes>): Bytes
    requires NonEmpty(ns)
  {
    assert Yields(ns, tail, rest, Stream(ns, tail, rest));
    var out :| Yields(ns, tail, rest, out);
    out
  }

  ghost function OwedHits(ns: seq<Needle>, tail: Bytes, rest: seq<Bytes>, k: Bytes): nat
    requires NonEmpty(ns)
  {
    assert Counts(ns, tail, rest, k, StreamHits(ns, tail, rest, k));
    var n: nat :| Counts(ns, tail, rest, k, n);
    n
  }

  lemma OwedIs(ns: seq<Needle>, tail: Bytes, rest: seq<Bytes>)
    requires NonEmpty(ns)
    ensures Owed(ns, tail, rest) == Stream(ns, tail, rest)
    ensures forall k :: OwedHits(ns, tail, rest, k) == StreamHits(ns, tail, rest, k)
  {
    assert Same(rest, rest);
  }

  /** How far a stream has got: what it still owes completes what it has written. */
  ghost predicate OnCourse(mw: MaskWriter, base: Bytes, rest: seq<Bytes>, all: seq<Bytes>)
    requires mw.m.Valid()
    reads mw, mw.m, mw.w
  {
    mw.w.written + Owed(mw.m.needles, mw.tail, rest) == base + Owed(mw.m.needles, [], all)
  }

  lemma StreamStep(ns: seq<Needle>, tail: Bytes, p: Bytes, rest: seq<Bytes>, written: Bytes)
    requires NonEmpty(ns)
    ensures var buf := tail + p;
      && written + Redact(ns, Release(ns, buf)) + Owed(ns, Keep(ns, buf), rest) == written + Owed(ns, tail, [p] + rest)
      && forall k ::
        OwedHits(ns, tail, [p] + rest, k) == Hits(ns, Release(ns, buf), k) + OwedHits(ns, Keep(ns, buf), rest, k)
  {
    var buf := tail + p;
    assert ([p] + rest)[1..] == rest;
    OwedIs(ns, tail, [p] + rest);
    OwedIs(ns, Keep(ns, buf), rest);
    Associative(written, Redact(ns, Release(ns, buf)), Stream(ns, Keep(ns, buf), rest));
  }

  lemma NextChunk(schedule: seq<Chunk>, i: nat)
    requires i < |schedule|
    ensures var c := schedule[i];
      && ChunksOf(schedule[i..], c.toStderr) == [c.bytes] + ChunksOf(schedule[i + 1..], c.toStderr)
      && ChunksOf(schedule[i..], !c.toStderr) == ChunksOf(schedule[i + 1..], !c.toStderr)
  {
    assert schedule[i..][1..] == schedule[i + 1..];
  }

  /** One write of a child: what the stream still owes, in bytes and in hits, is owed by what follows. */
  method Pass(mw: MaskWriter, p: Bytes, ghost rest: seq<Bytes>, ghost base: Bytes, ghost all: seq<Bytes>)
      returns (ok: bool)
    requires mw.m.Valid() && OnCourse(mw, base, [p] + rest, all)
    modifies mw, mw.w, mw.m`hits
    ensures mw.w.faults == old(mw.w.faults) + if ok then 0 else 1
    ensures ok ==> OnCourse(mw, base, rest, all)
    ensures ok ==> forall k ::
      mw.m.HitsOf(k) + OwedHits(mw.m.needles, mw.tail, rest, k)
        == old(mw.m.HitsOf(k)) + OwedHits(mw.m.needles, old(mw.tail), [p] + rest, k)
  {
    StreamStep(mw.m.needles, mw.tail, p, rest, mw.w.written);
    var n;
    n, ok := mw.Write(p);
  }

  /** Every write of a child, before its streams are flushed. */
  method PassAll(stdout: MaskWriter, stderr: MaskWriter, schedule: seq<Chunk>) returns (ok: bool)
    requires stdout.m == stderr.m && stdout != stderr && stdout.w != stderr.w
    requires stdout.m.Valid() && stdout.tail == stderr.tail == []
    modifies stdout, stderr, stdout.w, stderr.w, stdout.m`hits
    ensures stdout.w.faults + stderr.w.faults == old(stdout.w.faults) + old(stderr.w.faults) + if ok then 0 else 1
    ensures ok ==> OnCourse(stdout, old(stdout.w.written), [], ChunksOf(schedule, false))
    ensures ok ==> OnCourse(stderr, old(stderr.w.written), [], ChunksOf(schedule, true))
    ensures ok ==> forall k ::
      stdout.m.HitsOf(k) + OwedHits(stdout.m.needles, stdout.tail, [], k)
                         + OwedHits(stdout.m.needles, stderr.tail, [], k)
        == old(stdout.m.HitsOf(k)) + OwedHits(stdout.m.needles, [], ChunksOf(schedule, false), k)
                                   + OwedHits(stdout.m.needles, [], ChunksOf(schedule, true), k)
  {
    ok := true;
    var m, i := stdout.m, 0;
    ghost var outs, errs := ChunksOf(schedule, false), ChunksOf(schedule, true);
    ghost var out, err := outs, errs;
    ghost var w1, w2 := stdout.w.written, stderr.w.written;
    assert schedule[0..] == schedule;
    while i < |schedule|
      invariant 0 <= i <= |schedule|
      invariant out == ChunksOf(schedule[i..], false) && err == ChunksOf(schedule[i..], true)
      invariant OnCourse(stdout, w1, out, outs) && OnCourse(stderr, w2, err, errs)
      invariant stdout.w.faults + stderr.w.faults == old(stdout.w.faults) + old(stderr.w.faults)
      invariant forall k ::
        m.HitsOf(k) + OwedHits(m.needles, stdout.tail, out, k) + OwedHits(m.needles, stderr.tail, err, k)
          == old(m.HitsOf(k)) + OwedHits(m.needles, [], outs, k) + OwedHits(m.needles, [], errs, k)
    {
      var c := schedule[i];
      ghost var rest := ChunksOf(schedule[i + 1..], c.toStderr);
      NextChunk(schedule, i);
      if c.toStderr {
        ok := Pass(stderr, c.bytes, rest, w2, errs);
        err := rest;
      } else {
        ok := Pass(stdout, c.bytes, rest, w1, outs);
        out := rest;
      }
      if !ok { return; }
      i := i + 1;
    }
    assert schedule[i..] == [];
  }

  /** A child's whole output: however its writes are cut, and however stdout and stderr are
      interleaved, each stream comes out as that stream's text redacted whole, and the shared
      count is what both texts hold. */
  method MaskChild(stdout: MaskWriter, stderr: MaskWriter, schedule: seq<Chunk>) returns (ok: bool)
    requires stdout.m == stderr.m && stdout != stderr && stdout.w != stderr.w
    requires stdout.m.Valid() && stdout.tail == stderr.tail == []
    requires NoBrackets(stdout.m.needles) && NeverSplits(stdout.m.needles)
    modifies stdout, stderr, stdout.w, stderr.w, stdout.m`hits
    ensures ok <==> stdout.w.faults + stderr.w.faults == old(stdout.w.faults) + old(stderr.w.faults)
    ensures ok ==>
      stdout.w.written == old(stdout.w.written) + Redact(stdout.m.needles, Concat(ChunksOf(schedule, false)))
    ensures ok ==>
      stderr.w.written == old(stderr.w.written) + Redact(stdout.m.needles, Concat(ChunksOf(schedule, true)))
    ensures ok ==> forall k ::
      stdout.m.HitsOf(k) == old(stdout.m.HitsOf(k))
        + Hits(stdout.m.needles, Concat(ChunksOf(schedule, false)), k)
        + Hits(stdout.m.needles, Concat(ChunksOf(schedule, true)), k)
  {
    WholeStream(stdout.m.needles, ChunksOf(schedule, false));
    WholeStream(stdout.m.needles, ChunksOf(schedule, true));
    ok := PassAll(stdout, stderr, schedule);
    if !ok { return; }
    OwedIs(stdout.m.needles, stdout.tail, []);
    OwedIs(stdout.m.needles, stderr.tail, []);
    var ok1 := stdout.Flush();
    var ok2 := stderr.Flush();
    ok := ok1 && ok2;
  }

  lemma WholeStream(ns: seq<Needle>, chunks: seq<Bytes>)
    requires NonEmpty(ns) && NoBrackets(ns) && NeverSplits(ns)
    ensures Owed(ns, [], chunks) == Redact(ns, Concat(chunks))
    ensures forall k :: OwedHits(ns, [], chunks, k) == Hits(ns, Concat(chunks), k)
  {
    NeverSplitsStreamsExactly(ns);
    OwedIs(ns, [], chunks);
    assert StreamsAs(ns, chunks, Concat(chunks));
  }
}
