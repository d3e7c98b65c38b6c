/** What the redactor does to a text, and when doing it piece by piece makes no difference. */
module Redaction {
  import opened ByteStrings

  /** One spelling of one field's value. */
  datatype Needle = Needle(bytes: Bytes, key: Bytes)

  const REDACTED: Bytes := [82, 69, 68, 65, 67, 84, 69, 68, 58]  // "REDACTED:"

  function Inner(key: Bytes): Bytes { REDACTED + key }

  function Placeholder(key: Bytes): Bytes { [OPEN] + Inner(key) + [CLOSE] }

  ghost predicate NonEmpty(ns: seq<Needle>) {
    forall n | n in ns :: n.bytes != []
  }

  ghost predicate NoBrackets(ns: seq<Needle>) {
    forall n | n in ns :: BracketFree(n.bytes)
  }

  ghost predicate LongestFirst(ns: seq<Needle>) {
    forall i, j | 0 <= i < j < |ns| :: |ns[i].bytes| >= |ns[j].bytes|
  }

  /** The whole needle list applied to buf, in order. */
  ghost function Redact(ns: seq<Needle>, buf: Bytes): Bytes
    requires NonEmpty(ns)
  {
    if ns == [] then buf
    else Redact(ns[1..], ReplaceAll(buf, ns[0].bytes, Placeholder(ns[0].key)))
  }

  /** How many replacements that makes on behalf of key. */
  ghost function Hits(ns: seq<Needle>, buf: Bytes, key: Bytes): nat
    requires NonEmpty(ns)
  {
    if ns == [] then 0
    else
      var here := if ns[0].key == key then Count(buf, ns[0].bytes) else 0;
      here + Hits(ns[1..], ReplaceAll(buf, ns[0].bytes, Placeholder(ns[0].key)), key)
  }

  ghost predicate SeamForAll(ns: seq<Needle>, x: Bytes, y: Bytes) {
    forall n | n in ns :: Seam(x, y, n.bytes)
  }

  /** Cutting a text where no needle occurrence crosses changes neither output nor counts. */
  lemma {:induction false} RedactAtSeam(ns: seq<Needle>, x: Bytes, y: Bytes, key: Bytes)
    requires NonEmpty(ns) && NoBrackets(ns) && SeamForAll(ns, x, y)
    ensures Redact(ns, x + y) == Redact(ns, x) + Redact(ns, y)
    ensures Hits(ns, x + y, key) == Hits(ns, x, key) + Hits(ns, y, key)
  {
    if ns != [] {
      var m, r := ns[0].bytes, Placeholder(ns[0].key);
      ReplaceAtSeam(x, y, m, r);
      forall n | n in ns[1..] ensures Seam(ReplaceAll(x, m, r), ReplaceAll(y, m, r), n.bytes) {
        SeamSurvives(x, y, m, r, n.bytes);
      }
      RedactAtSeam(ns[1..], ReplaceAll(x, m, r), ReplaceAll(y, m, r), key);
    }
  }

  // ----- What is held back -----

  ghost predicate ProperPrefix(ns: seq<Needle>, w: Bytes) {
    exists n :: n in ns && w < n.bytes
  }

  /** The last l bytes of buf are a needle whose rest has not arrived yet. */
  ghost predicate CouldGrow(ns: seq<Needle>, buf: Bytes, l: nat) {
    l <= |buf| && ProperPrefix(ns, buf[|buf| - l..])
  }

  ghost predicate NoneLonger(ns: seq<Needle>, buf: Bytes, h: nat) {
    forall l: nat :: l > h ==> !CouldGrow(ns, buf, l)
  }

  ghost predicate IsHold(ns: seq<Needle>, buf: Bytes, h: nat) {
    h <= |buf| && (h == 0 || CouldGrow(ns, buf, h)) && NoneLonger(ns, buf, h)
  }

  ghost function HoldUpTo(ns: seq<Needle>, buf: Bytes, l: nat): (h: nat)
    requires l <= |buf| && NoneLonger(ns, buf, l)
    ensures IsHold(ns, buf, h)
  {
    if l == 0 || CouldGrow(ns, buf, l) then l else HoldUpTo(ns, buf, l - 1)
  }

  /** The length of the longest suffix of buf that starts a needle without finishing it. */
  ghost function Holdback(ns: seq<Needle>, buf: Bytes): (h: nat)
    ensures IsHold(ns, buf, h)
  {
    HoldUpTo(ns, buf, |buf|)
  }

  ghost function Release(ns: seq<Needle>, buf: Bytes): Bytes { buf[..|buf| - Holdback(ns, buf)] }

  ghost function Keep(ns: seq<Needle>, buf: Bytes): Bytes { buf[|buf| - Holdback(ns, buf)..] }

  lemma HoldIsUnique(ns: seq<Needle>, buf: Bytes, g: nat, h: nat)
    requires IsHold(ns, buf, g) && IsHold(ns, buf, h)
    ensures g == h
  {}

  /** What waits for the next write is shorter than the longest needle. */
  lemma KeepIsShort(ns: seq<Needle>, buf: Bytes)
    ensures Keep(ns, buf) == [] || exists n :: n in ns && |Keep(ns, buf)| < |n.bytes|
  {
    if Keep(ns, buf) != [] {
      var n :| n in ns && Keep(ns, buf) < n.bytes;
    }
  }

  /** No nonempty proper suffix of a needle is a proper prefix of a needle. */
  ghost predicate OverlapFree(ns: seq<Needle>) {
    forall a, j: nat | a in ns && 0 < j < |a.bytes| :: !ProperPrefix(ns, a.bytes[j..])
  }

  /** An unfinished needle may begin inside a finished one only where the finished one is itself
      still growing, so that the hold reaches back to its start. */
  ghost predicate NeverSplits(ns: seq<Needle>) {
    forall a, j: nat, w: Bytes | a in ns && 0 < j < |a.bytes| && ProperPrefix(ns, a.bytes[j..] + w) ::
      ProperPrefix(ns, a.bytes + w)
  }

  lemma OverlapFreeNeverSplits(ns: seq<Needle>)
    ensures OverlapFree(ns) ==> NeverSplits(ns)
  {
    forall a, j: nat, w: Bytes | a in ns && 0 < j < |a.bytes| && ProperPrefix(ns, a.bytes[j..] + w)
      ensures ProperPrefix(ns, a.bytes[j..])
    {
      var n :| n in ns && a.bytes[j..] + w < n.bytes;
      assert a.bytes[j..] == n.bytes[..|a.bytes| - j];
    }
  }

  /** Whatever arrives next, a needle that would cross a cut shows up as a longer suffix that
      could grow. */
  lemma SplitCouldGrow(ns: seq<Needle>, head: Bytes, t: Bytes, rest: Bytes, n: Needle, j: nat)
    requires n in ns && NeverSplits(ns) && (t == [] || ProperPrefix(ns, t))
    requires SplitsAt(head, t + rest, n.bytes, j)
    ensures CouldGrow(ns, head + t, j + |t|)
  {
    var a, l := n.bytes, j + |t|;
    LastOfSum(head, t, j);
    assert a[j..] == (t + rest)[..|a| - j];
    if l < |a| {
      StillArriving(a, t, rest, j);
    } else {
      AllArrived(a, t, rest, j);
    }
  }

  lemma StillArriving(a: Bytes, t: Bytes, rest: Bytes, j: nat)
    requires j + |t| <= |a| && |a| - j <= |t + rest| && a[j..] == (t + rest)[..|a| - j]
    ensures a[..j] + t == a[..j + |t|]
  {
    forall k | 0 <= k < |t| ensures a[j + k] == t[k] {
      assert a[j..][k] == (t + rest)[k];
    }
  }

  lemma AllArrived(a: Bytes, t: Bytes, rest: Bytes, j: nat)
    requires j <= |a| <= j + |t| && a[j..] == (t + rest)[..|a| - j]
    ensures var w := t[|a| - j..]; t == a[j..] + w && a[..j] + t == a + w
  {
    assert a[j..] == t[..|a| - j];
    assert a == a[..j] + a[j..];
  }

  lemma LastOfSum(head: Bytes, t: Bytes, j: nat)
    requires j <= |head|
    ensures var buf := head + t; buf[|buf| - (j + |t|)..] == head[|head| - j..] + t
  {}

  lemma HoldLeavesSeam(ns: seq<Needle>, buf: Bytes, rest: Bytes)
    requires NeverSplits(ns)
    ensures SeamForAll(ns, Release(ns, buf), Keep(ns, buf) + rest)
  {
    CutLeavesSeam(ns, Release(ns, buf), Keep(ns, buf), rest);
    assert buf == Release(ns, buf) + Keep(ns, buf);
  }

  lemma CutLeavesSeam(ns: seq<Needle>, head: Bytes, t: Bytes, rest: Bytes)
    requires NeverSplits(ns) && (t == [] || ProperPrefix(ns, t))
    ensures NoneLonger(ns, head + t, |t|) ==> SeamForAll(ns, head, t + rest)
  {
    forall n, j: nat | n in ns && SplitsAt(head, t + rest, n.bytes, j)
      ensures CouldGrow(ns, head + t, j + |t|)
    {
      SplitCouldGrow(ns, head, t, rest, n, j);
    }
  }

  /** No cut that holdback makes falls inside a needle occurrence, whatever arrives next. */
  ghost predicate CutsAreSeams(ns: seq<Needle>) {
    forall buf: Bytes, rest: Bytes :: SeamForAll(ns, Release(ns, buf), Keep(ns, buf) + rest)
  }

  /** NeverSplits is exactly what holding back needs. */
  lemma NeverSplitsIsExact(ns: seq<Needle>)
    ensures NeverSplits(ns) <==> CutsAreSeams(ns)
  {
    if NeverSplits(ns) {
      forall buf: Bytes, rest: Bytes ensures SeamForAll(ns, Release(ns, buf), Keep(ns, buf) + rest) {
        HoldLeavesSeam(ns, buf, rest);
      }
    } else {
      var a, j: nat, w: Bytes :| a in ns && 0 < j < |a.bytes|
        && ProperPrefix(ns, a.bytes[j..] + w) && !ProperPrefix(ns, a.bytes + w);
      HoldCuts(ns, a, j, w);
      var buf := a.bytes + w;
      assert !Seam(Release(ns, buf), Keep(ns, buf) + [], a.bytes);
      assert !SeamForAll(ns, Release(ns, buf), Keep(ns, buf) + []);
    }
  }

  /** A finished needle that holdback does cut in two. */
  lemma HoldCuts(ns: seq<Needle>, a: Needle, j: nat, w: Bytes)
    requires a in ns && 0 < j < |a.bytes|
    requires ProperPrefix(ns, a.bytes[j..] + w) && !ProperPrefix(ns, a.bytes + w)
    ensures var buf := a.bytes + w; var c := |Release(ns, buf)|;
      && 0 < c <= j
      && Release(ns, buf) == a.bytes[..c]
      && Keep(ns, buf) == a.bytes[c..] + w
      && SplitsAt(Release(ns, buf), Keep(ns, buf) + [], a.bytes, c)
  {
    HoldWithin(ns, a.bytes, j, w);
    CutInside(a.bytes, w, |Release(ns, a.bytes + w)|);
  }

  lemma HoldWithin(ns: seq<Needle>, a: Bytes, j: nat, w: Bytes)
    requires 0 < j < |a| && ProperPrefix(ns, a[j..] + w) && !ProperPrefix(ns, a + w)
    ensures 0 < |Release(ns, a + w)| <= j
  {
    var buf := a + w;
    assert buf[j..] == a[j..] + w;
    assert CouldGrow(ns, buf, |buf| - j);
    assert buf[|buf| - |buf|..] == buf;
  }

  lemma CutInside(a: Bytes, w: Bytes, c: nat)
    requires c <= |a|
    ensures (a + w)[..c] == a[..c] && (a + w)[c..] == a[c..] + w
    ensures HasSuffix(a[..c], a[..c]) && a[c..] <= a[c..] + w + []
  {
    assert a[..c][0..] == a[..c];
  }

  // ----- A stream of writes -----

  function Concat(chunks: seq<Bytes>): Bytes {
    if chunks == [] then [] else chunks[0] + Concat(chunks[1..])
  }

  /** What comes out of writing chunks one after another, with tail already held, and flushing. */
  ghost function Stream(ns: seq<Needle>, tail: Bytes, chunks: seq<Bytes>): Bytes
    requires NonEmpty(ns)
    decreases chunks
  {
    if chunks == [] then Redact(ns, tail)
    else
      var buf := tail + chunks[0];
      Redact(ns, Release(ns, buf)) + Stream(ns, Keep(ns, buf), chunks[1..])
  }

  ghost function StreamHits(ns: seq<Needle>, tail: Bytes, chunks: seq<Bytes>, key: Bytes): nat
    requires NonEmpty(ns)
    decreases chunks
  {
    if chunks == [] then Hits(ns, tail, key)
    else
      var buf := tail + chunks[0];
      Hits(ns, Release(ns, buf), key) + StreamHits(ns, Keep(ns, buf), chunks[1..], key)
  }

  lemma Regroup(ns: seq<Needle>, tail: Bytes, p: Bytes, rest: Bytes)
    ensures tail + (p + rest) == Release(ns, tail + p) + (Keep(ns, tail + p) + rest)
  {
    var buf := tail + p;
    assert buf == Release(ns, buf) + Keep(ns, buf);
    calc {
      tail + (p + rest);
      { Associative(tail, p, rest); }
      buf + rest;
      { Associative(Release(ns, buf), Keep(ns, buf), rest); }
      Release(ns, buf) + (Keep(ns, buf) + rest);
    }
  }

  /** Streaming under any chunking is redacting the whole text once, with the same counts. */
  lemma {:induction false} StreamIsWhole(ns: seq<Needle>, tail: Bytes, chunks: seq<Bytes>, key: Bytes)
    requires NonEmpty(ns) && NoBrackets(ns) && NeverSplits(ns)
    ensures Stream(ns, tail, chunks) == Redact(ns, tail + Concat(chunks))
    ensures StreamHits(ns, tail, chunks, key) == Hits(ns, tail + Concat(chunks), key)
    decreases chunks
  {
    if chunks == [] {
      assert tail + Concat(chunks) == tail;
    } else {
      var buf, rest := tail + chunks[0], Concat(chunks[1..]);
      StreamIsWhole(ns, Keep(ns, buf), chunks[1..], key);
      HoldLeavesSeam(ns, buf, rest);
      RedactAtSeam(ns, Release(ns, buf), Keep(ns, buf) + rest, key);
      Regroup(ns, tail, chunks[0], rest);
    }
  }

  ghost predicate StreamsAs(ns: seq<Needle>, chunks: seq<Bytes>, whole: Bytes)
    requires NonEmpty(ns)
  {
    && Stream(ns, [], chunks) == Redact(ns, whole)
    && forall key :: StreamHits(ns, [], chunks, key) == Hits(ns, whole, key)
  }

  /** Every chunking of every text comes out, and is counted, as that text redacted whole. */
  ghost predicate StreamsExactly(ns: seq<Needle>)
    requires NonEmpty(ns)
  {
    forall chunks :: StreamsAs(ns, chunks, Concat(chunks))
  }

  lemma NeverSplitsStreamsExactly(ns: seq<Needle>)
    requires NonEmpty(ns) && NoBrackets(ns) && NeverSplits(ns)
    ensures StreamsExactly(ns)
  {
    forall chunks ensures StreamsAs(ns, chunks, Concat(chunks)) {
      assert [] + Concat(chunks) == Concat(chunks);
      forall key ensures StreamHits(ns, [], chunks, key) == Hits(ns, Concat(chunks), key) {
        StreamIsWhole(ns, [], chunks, key);
      }
      StreamIsWhole(ns, [], chunks, []);
    }
  }

  /** The stream promise for overlap-free, bracket-free needles. */
  lemma OverlapFreeStreamsExactly(ns: seq<Needle>)
    requires NonEmpty(ns) && NoBrackets(ns) && OverlapFree(ns)
    ensures StreamsExactly(ns)
  {
    OverlapFreeNeverSplits(ns);
    NeverSplitsStreamsExactly(ns);
  }

  // ----- What is left of the needles -----

  /** No placeholder brings back a needle that was already dealt with when it is written. */
  ghost predicate PlaceholdersClean(ns: seq<Needle>) {
    forall i, j | 0 <= j <= i < |ns| :: !Occurs(Inner(ns[i].key), ns[j].bytes)
  }

  lemma {:induction false} StaysOut(ns: seq<Needle>, buf: Bytes, w: Bytes)
    requires NonEmpty(ns) && w != [] && BracketFree(w)
    requires forall n | n in ns :: !Occurs(Inner(n.key), w)
    ensures Occurs(Redact(ns, buf), w) ==> Occurs(buf, w)
  {
    if ns != [] {
      var next := ReplaceAll(buf, ns[0].bytes, Placeholder(ns[0].key));
      StaysOut(ns[1..], next, w);
      if Occurs(next, w) { OccurrenceOrigin(buf, ns[0].bytes, Inner(ns[0].key), w); }
    }
  }

  /** No needle occurs in the output, whatever the text: not one that overlaps itself, nor one
      nested in another. */
  lemma {:induction false} NoNeedleSurvives(ns: seq<Needle>, buf: Bytes, n: Needle)
    requires NonEmpty(ns) && NoBrackets(ns) && PlaceholdersClean(ns) && n in ns
    ensures !Occurs(Redact(ns, buf), n.bytes)
  {
    var next := ReplaceAll(buf, ns[0].bytes, Placeholder(ns[0].key));
    if n == ns[0] {
      assert !Occurs(Inner(ns[0].key), n.bytes);
      if Occurs(next, n.bytes) { OccurrenceOrigin(buf, n.bytes, Inner(n.key), n.bytes); }
      forall m | m in ns[1..] ensures !Occurs(Inner(m.key), n.bytes) {
        var i :| 0 <= i < |ns[1..]| && m == ns[1..][i];
        assert m == ns[i + 1];
      }
      StaysOut(ns[1..], next, n.bytes);
    } else {
      assert PlaceholdersClean(ns[1..]) by {
        forall i, j | 0 <= j <= i < |ns[1..]| ensures !Occurs(Inner(ns[1..][i].key), ns[1..][j].bytes) {
          assert ns[1..][i] == ns[i + 1] && ns[1..][j] == ns[j + 1];
        }
      }
      NoNeedleSurvives(ns[1..], next, n);
    }
  }
}
