/** Exact streaming for any needles at all: one cut decides, and a cut through a finished needle may still be
    harmless. */
module HarmlessCuts {
  import opened ByteStrings
  import opened Redaction
  import opened RedactionBounds

  /** Redacting what one write releases, and what it keeps with all that follows, is redacting it all. */
  ghost predicate Harmless(ns: seq<Needle>, buf: Bytes, rest: Bytes)
    requires NonEmpty(ns)
  {
    && Redact(ns, Release(ns, buf)) + Redact(ns, Keep(ns, buf) + rest) == Redact(ns, buf + rest)
    && forall key :: HitsAdd(ns, buf, rest, key)
  }

  ghost predicate HitsAdd(ns: seq<Needle>, buf: Bytes, rest: Bytes, key: Bytes)
    requires NonEmpty(ns)
  {
    Hits(ns, Release(ns, buf), key) + Hits(ns, Keep(ns, buf) + rest, key) == Hits(ns, buf + rest, key)
  }

  ghost predicate CutsHarmless(ns: seq<Needle>)
    requires NonEmpty(ns)
  {
    forall buf: Bytes, rest: Bytes :: Harmless(ns, buf, rest)
  }

  lemma {:induction false} HarmlessStream(ns: seq<Needle>, tail: Bytes, chunks: seq<Bytes>, key: Bytes)
    requires NonEmpty(ns) && CutsHarmless(ns)
    ensures Stream(ns, tail, chunks) == Redact(ns, tail + Concat(chunks))
    ensures StreamHits(ns, tail, chunks, key) == Hits(ns, tail + Concat(chunks), key)
    decreases chunks
  {
    if chunks == [] {
      assert tail + Concat(chunks) == tail;
    } else {
      var buf, rest := tail + chunks[0], Concat(chunks[1..]);
      HarmlessStream(ns, Keep(ns, buf), chunks[1..], key);
      assert Harmless(ns, buf, rest) && HitsAdd(ns, buf, rest, key);
      Associative(tail, chunks[0], rest);
    }
  }

  /** Two writes and one write of the same text, as far as a first write decides. */
  lemma TwoWrites(ns: seq<Needle>, buf: Bytes, rest: Bytes, key: Bytes)
    requires NonEmpty(ns) && StreamsExactly(ns)
    ensures Redact(ns, Release(ns, buf)) + Redact(ns, Keep(ns, buf) + rest) == Redact(ns, buf + rest)
    ensures HitsAdd(ns, buf, rest, key)
  {
    var keep := Keep(ns, buf);
    assert Concat([buf, rest]) == buf + rest by {
      assert [buf, rest][1..] == [rest] && Concat([rest]) == rest + Concat([rest][1..]) == rest;
    }
    assert Concat([keep + rest]) == keep + rest + Concat([keep + rest][1..]) == keep + rest;
    assert StreamsAs(ns, [buf, rest], Concat([buf, rest]));
    assert StreamsAs(ns, [keep + rest], Concat([keep + rest]));
    assert [] + buf == buf && [buf, rest][1..] == [rest];
    SameFirstBuffer(ns, keep, rest, key);
  }

  lemma SameFirstBuffer(ns: seq<Needle>, keep: Bytes, rest: Bytes, key: Bytes)
    requires NonEmpty(ns)
    ensures Stream(ns, keep, [rest]) == Stream(ns, [], [keep + rest])
    ensures StreamHits(ns, keep, [rest], key) == StreamHits(ns, [], [keep + rest], key)
  {
    assert [] + (keep + rest) == keep + rest && [rest][1..] == [keep + rest][1..] == [];
  }

  /** Whatever the needles, streaming is exact if and only if no single cut does harm. */
  lemma StreamsExactlyIffHarmless(ns: seq<Needle>)
    requires NonEmpty(ns)
    ensures StreamsExactly(ns) <==> CutsHarmless(ns)
  {
    if CutsHarmless(ns) {
      forall chunks ensures StreamsAs(ns, chunks, Concat(chunks)) {
        assert [] + Concat(chunks) == Concat(chunks);
        HarmlessStream(ns, [], chunks, []);
        forall key ensures StreamHits(ns, [], chunks, key) == Hits(ns, Concat(chunks), key) {
          HarmlessStream(ns, [], chunks, key);
        }
      }
    }
    if StreamsExactly(ns) {
      forall buf: Bytes, rest: Bytes ensures Harmless(ns, buf, rest) {
        TwoWrites(ns, buf, rest, []);
        forall key ensures HitsAdd(ns, buf, rest, key) { TwoWrites(ns, buf, rest, key); }
      }
    }
  }

  lemma WholeBuffer(ns: seq<Needle>, buf: Bytes, rest: Bytes)
    ensures Release(ns, buf) + (Keep(ns, buf) + rest) == buf + rest
  {
    assert buf == Release(ns, buf) + Keep(ns, buf);
    Associative(Release(ns, buf), Keep(ns, buf), rest);
  }

  /** A cut that no needle crosses does none. */
  lemma SeamHarmless(ns: seq<Needle>, buf: Bytes, rest: Bytes)
    requires NonEmpty(ns) && NoBrackets(ns) && SeamForAll(ns, Release(ns, buf), Keep(ns, buf) + rest)
    ensures Harmless(ns, buf, rest)
  {
    WholeBuffer(ns, buf, rest);
    RedactAtSeam(ns, Release(ns, buf), Keep(ns, buf) + rest, []);
    forall key ensures HitsAdd(ns, buf, rest, key) {
      RedactAtSeam(ns, Release(ns, buf), Keep(ns, buf) + rest, key);
    }
  }

  /** So only the cuts through a finished needle have to be looked at. */
  lemma StreamsExactlyIffSplitsHarmless(ns: seq<Needle>)
    requires NonEmpty(ns) && NoBrackets(ns)
    ensures StreamsExactly(ns) <==>
      forall buf: Bytes, rest: Bytes | !SeamForAll(ns, Release(ns, buf), Keep(ns, buf) + rest) :: Harmless(ns, buf, rest)
  {
    StreamsExactlyIffHarmless(ns);
    forall buf: Bytes, rest: Bytes | SeamForAll(ns, Release(ns, buf), Keep(ns, buf) + rest) ensures Harmless(ns, buf, rest) {
      SeamHarmless(ns, buf, rest);
    }
  }

  // ---- Needles of which one is cut and another makes up for it ----

  const A: byte := 97
  const B: byte := 98
  const Q: byte := 81
  const X: byte := 120
  const KEY: Bytes := [107]

  const LONG_B: Needle := Needle([B, Q, Q, X, 121], KEY)
  const LONG_A: Needle := Needle([A, B, Q, Q, 122], KEY)
  const BQQ: Needle := Needle([B, Q, Q], KEY)
  const AB: Needle := Needle([A, B], KEY)

  const FIRST: seq<Needle> := [LONG_B, LONG_A, BQQ]
  const MENDED: seq<Needle> := FIRST + [AB]

  /** What is held when ab is cut. */
  const HELD: Bytes := [B, Q, Q, X]

  lemma MendedMembers(n: Needle)
    requires n in MENDED
    ensures n == LONG_B || n == LONG_A || n == BQQ || n == AB
  {}

  lemma MendedPlain()
    ensures PlainKeys(MENDED)
  {
    assert B !in Inner(KEY) && BracketFree(KEY);
    forall n, m | n in MENDED && m in MENDED ensures !Occurs(Inner(n.key), m.bytes) && BracketFree(n.key) {
      MendedMembers(n);
      MendedMembers(m);
      ByteOccurs(Inner(KEY), m.bytes, B);
    }
  }

  lemma MendedUsable()
    ensures NonEmpty(MENDED) && NoBrackets(MENDED) && LongestFirst(MENDED)
  {
    forall n | n in MENDED ensures n.bytes != [] && BracketFree(n.bytes) {
      MendedMembers(n);
    }
  }

  /** A needle that an unfinished one begins inside: only after the a of ab or of abQQz. */
  lemma WhereCut(n: Needle, j: nat, m: Needle)
    requires n in MENDED && m in MENDED && 0 < j < |n.bytes| && n.bytes[j] == m.bytes[0]
    ensures j == 1 && (n == AB || n == LONG_A) && m.bytes[0] == B && (m == LONG_B || m == BQQ)
  {
    MendedMembers(n);
    MendedMembers(m);
  }

  lemma MendedNotNever()
    ensures !NeverSplits(MENDED)
  {
    assert AB.bytes[1..] + [Q, Q, X] == HELD && AB.bytes + [Q, Q, X] == [A, B, Q, Q, X];
    assert HELD < LONG_B.bytes && LONG_B in MENDED && AB in MENDED;
    forall n | n in MENDED ensures !([A, B, Q, Q, X] < n.bytes) {
      MendedMembers(n);
    }
  }

  lemma HoldIsLongest(ns: seq<Needle>, x: Bytes, t: Bytes, w: Bytes)
    requires w != [] && HasSuffix(x, w) && IsHold(ns, x + t, |t|)
    ensures !ProperPrefix(ns, w + t)
  {
    LastOfSum(x, t, |w|);
    assert NoneLonger(ns, x + t, |t|);
    assert CouldGrow(ns, x + t, |w| + |t|) <==> ProperPrefix(ns, w + t);
  }

  /** The hold reaches as far back as anything could still grow. */
  lemma HoldReaches(ns: seq<Needle>, buf: Bytes, w: Bytes)
    requires w != [] && HasSuffix(Release(ns, buf), w)
    ensures !ProperPrefix(ns, w + Keep(ns, buf))
  {
    assert buf == Release(ns, buf) + Keep(ns, buf);
    HoldIsLongest(ns, Release(ns, buf), Keep(ns, buf), w);
  }

  lemma KeptStarts(buf: Bytes, rest: Bytes, n: Needle, j: nat) returns (m: Needle)
    requires n in MENDED && SplitsAt(Release(MENDED, buf), Keep(MENDED, buf) + rest, n.bytes, j)
    ensures m in MENDED && Keep(MENDED, buf) != [] && Keep(MENDED, buf) < m.bytes && n.bytes[j] == m.bytes[0]
  {
    var t := Keep(MENDED, buf);
    HoldReaches(MENDED, buf, n.bytes[..j]);
    assert n.bytes[..j] < n.bytes && n.bytes[..j] + [] == n.bytes[..j];
    assert t != [];
    m :| m in MENDED && t < m.bytes;
    assert n.bytes[j..][0] == (t + rest)[0] == t[0];
  }

  /** Holding back cuts a finished needle here in one way only: between ab's letters, with bQQx held. */
  lemma OnlyCut(buf: Bytes, rest: Bytes, n: Needle, j: nat)
    requires n in MENDED && SplitsAt(Release(MENDED, buf), Keep(MENDED, buf) + rest, n.bytes, j)
    ensures n == AB && Keep(MENDED, buf) == HELD
  {
    var t := Keep(MENDED, buf);
    var m := KeptStarts(buf, rest, n, j);
    WhereCut(n, j, m);
    StartOfLongB(t, m);
    ShortGrows(t);
    assert n.bytes[..1] == [A];
    HoldReaches(MENDED, buf, [A]);
    assert t == HELD;
    NotLongA(rest);
  }

  lemma StartOfLongB(t: Bytes, m: Needle)
    requires t < m.bytes && (m == LONG_B || m == BQQ)
    ensures |t| <= 4 && t == LONG_B.bytes[..|t|]
  {
    assert BQQ.bytes == LONG_B.bytes[..3];
  }

  lemma ShortGrows(t: Bytes)
    requires |t| <= 4 && t == LONG_B.bytes[..|t|]
    ensures |t| == 4 ==> t == HELD
    ensures |t| <= 3 ==> ProperPrefix(MENDED, [A] + t)
  {
    if |t| <= 3 {
      assert [A] + t == LONG_A.bytes[..|t| + 1] && LONG_A in MENDED;
    }
  }

  lemma NotLongA(rest: Bytes)
    ensures !(LONG_A.bytes[1..] <= HELD + rest)
  {
    assert LONG_A.bytes[1..][3] == 122 && (HELD + rest)[3] == X;
  }

  // ---- What makes up for it: bQQ takes the b before ab has its turn ----

  lemma {:induction false} RedactInTwo(a: seq<Needle>, b: seq<Needle>, buf: Bytes, key: Bytes)
    requires NonEmpty(a) && NonEmpty(b) && NonEmpty(a + b)
    ensures Redact(a + b, buf) == Redact(b, Redact(a, buf))
    ensures Hits(a + b, buf, key) == Hits(a, buf, key) + Hits(b, Redact(a, buf), key)
  {
    if a == [] {
      assert a + b == b;
    } else {
      assert (a + b)[1..] == a[1..] + b;
      RedactInTwo(a[1..], b, ReplaceAll(buf, a[0].bytes, Placeholder(a[0].key)), key);
    }
  }

  lemma FirstStays(s: Bytes, m: Bytes, r: Bytes)
    requires m != [] && s != [] && s[0] != m[0]
    ensures ReplaceAll(s, m, r) == [s[0]] + ReplaceAll(s[1..], m, r)
  {
    if |s| < |m| {
      assert s == [s[0]] + s[1..];
    } else {
      assert s[..|m|][0] == s[0];
    }
  }

  lemma ThreeStay(s: Bytes, m: Bytes, r: Bytes)
    requires m != [] && |s| >= 3 && s[0] != m[0] && s[1] != m[0] && s[2] != m[0]
    ensures ReplaceAll(s, m, r) == s[..3] + ReplaceAll(s[3..], m, r)
  {
    FirstStays(s, m, r);
    TwoStay(s[1..], m, r);
    assert s[1..][2..] == s[3..] && s[..3] == [s[0]] + [s[1], s[2]];
  }

  /** Text whose first letter is no longer there for ab to end with. */
  predicate Covered(t: Bytes) {
    t != [] && (t[0] == OPEN || (|t| >= 3 && t[..3] == BQQ.bytes))
  }

  lemma Unmatched(s: Bytes, m: Bytes, r: Bytes)
    requires m != [] && s != [] && !(m <= s)
    ensures ReplaceAll(s, m, r) == [s[0]] + ReplaceAll(s[1..], m, r)
  {
    if |s| < |m| {
      assert s == [s[0]] + s[1..];
    }
  }

  lemma LongBTurn(y: Bytes)
    requires |y| >= 3 && y[..3] == BQQ.bytes
    ensures Covered(ReplaceAll(y, LONG_B.bytes, Placeholder(KEY)))
  {
    var m, r := LONG_B.bytes, Placeholder(KEY);
    if m <= y {
      assert ReplaceAll(y, m, r) == r + ReplaceAll(y[5..], m, r);
    } else {
      assert y[..3][0] == y[0] && y[..3][1] == y[1] && y[..3][2] == y[2];
      Unmatched(y, m, r);
      TwoStay(y[1..], m, r);
    }
  }

  lemma TwoStay(s: Bytes, m: Bytes, r: Bytes)
    requires m != [] && |s| >= 2 && s[0] != m[0] && s[1] != m[0]
    ensures ReplaceAll(s, m, r) == [s[0], s[1]] + ReplaceAll(s[2..], m, r)
  {
    FirstStays(s, m, r);
    FirstStays(s[1..], m, r);
    assert s[1..][1..] == s[2..];
  }

  lemma LongATurn(y: Bytes)
    requires Covered(y)
    ensures Covered(ReplaceAll(y, LONG_A.bytes, Placeholder(KEY)))
  {
    if y[0] == OPEN {
      FirstStays(y, LONG_A.bytes, Placeholder(KEY));
    } else {
      assert y[..3][0] == y[0] && y[..3][1] == y[1] && y[..3][2] == y[2];
      ThreeStay(y, LONG_A.bytes, Placeholder(KEY));
    }
  }

  lemma BqqTurn(y: Bytes)
    requires Covered(y)
    ensures var t := ReplaceAll(y, BQQ.bytes, Placeholder(KEY)); t != [] && t[0] == OPEN
  {
    var r := Placeholder(KEY);
    if y[0] == OPEN {
      FirstStays(y, BQQ.bytes, r);
    } else {
      assert ReplaceAll(y, BQQ.bytes, r) == r + ReplaceAll(y[3..], BQQ.bytes, r);
    }
  }

  lemma ThreeTurns(y: Bytes)
    ensures NonEmpty(FIRST)
    ensures var r := Placeholder(KEY);
      Redact(FIRST, y) == ReplaceAll(ReplaceAll(ReplaceAll(y, LONG_B.bytes, r), LONG_A.bytes, r), BQQ.bytes, r)
  {
    var next := ReplaceAll(y, LONG_B.bytes, Placeholder(KEY));
    assert FIRST[0] == LONG_B && FIRST[1..] == [LONG_A, BQQ];
    assert Redact(FIRST, y) == Redact([LONG_A, BQQ], next);
    RedactTwo(LONG_A, BQQ, next);
  }

  lemma HeldIsTaken(y: Bytes)
    requires |y| >= 3 && y[..3] == BQQ.bytes
    ensures NonEmpty(FIRST) && Redact(FIRST, y) != [] && Redact(FIRST, y)[0] == OPEN
  {
    var r := Placeholder(KEY);
    LongBTurn(y);
    LongATurn(ReplaceAll(y, LONG_B.bytes, r));
    BqqTurn(ReplaceAll(ReplaceAll(y, LONG_B.bytes, r), LONG_A.bytes, r));
    ThreeTurns(y);
  }

  lemma AtStartOf(x: Bytes, y: Bytes, n: Needle, j: nat)
    requires |y| >= 4 && y[..4] == HELD && n in FIRST
    ensures !SplitsAt(x, y, n.bytes, j)
  {
    assert y[0] == B && y[3] == X;
    if 0 < j < |n.bytes| {
      assert n.bytes[j..][0] == n.bytes[j] && (j == 1 && n == LONG_A ==> n.bytes[j..][3] == 122);
    }
  }

  /** The cut does no harm, whatever is on either side. */
  lemma HeldHarmless(x: Bytes, y: Bytes, key: Bytes)
    requires |y| >= 4 && y[..4] == HELD
    ensures NonEmpty(MENDED) && Redact(MENDED, x + y) == Redact(MENDED, x) + Redact(MENDED, y)
    ensures Hits(MENDED, x + y, key) == Hits(MENDED, x, key) + Hits(MENDED, y, key)
  {
    MendedUsable();
    assert NonEmpty(FIRST) && NoBrackets(FIRST) && NonEmpty([AB]) && NoBrackets([AB]);
    forall n, j: nat | n in FIRST ensures !SplitsAt(x, y, n.bytes, j) {
      AtStartOf(x, y, n, j);
    }
    RedactAtSeam(FIRST, x, y, key);
    assert y[..3] == y[..4][..3] == BQQ.bytes;
    HeldIsTaken(y);
    forall n, j: nat | n in [AB] ensures !SplitsAt(Redact(FIRST, x), Redact(FIRST, y), n.bytes, j) {
      assert 0 < j < |n.bytes| ==> n.bytes[j..][0] == B;
    }
    RedactAtSeam([AB], Redact(FIRST, x), Redact(FIRST, y), key);
    RedactInTwo(FIRST, [AB], x + y, key);
    RedactInTwo(FIRST, [AB], x, key);
    RedactInTwo(FIRST, [AB], y, key);
  }

  /** These needles stream exactly although one of them is cut: without its proviso the condition is
      sufficient and not necessary. */
  lemma MendedStreamsExactly()
    ensures NonEmpty(MENDED) && NoBrackets(MENDED) && LongestFirst(MENDED) && PlainKeys(MENDED)
    ensures StreamsExactly(MENDED) && !NeverSplits(MENDED) && !GrowsAlone(MENDED)
  {
    MendedUsable();
    MendedPlain();
    MendedNotNever();
    forall buf: Bytes, rest: Bytes
      | !SeamForAll(MENDED, Release(MENDED, buf), Keep(MENDED, buf) + rest)
      ensures Harmless(MENDED, buf, rest)
    {
      var n, j: nat :| n in MENDED && SplitsAt(Release(MENDED, buf), Keep(MENDED, buf) + rest, n.bytes, j);
      OnlyCut(buf, rest, n, j);
      WholeBuffer(MENDED, buf, rest);
      assert (HELD + rest)[..4] == HELD;
      HeldHarmless(Release(MENDED, buf), HELD + rest, []);
      forall key ensures HitsAdd(MENDED, buf, rest, key) {
        HeldHarmless(Release(MENDED, buf), HELD + rest, key);
      }
    }
    StreamsExactlyIffSplitsHarmless(MENDED);
    if GrowsAlone(MENDED) { StreamsExactlyIffNeverSplits(MENDED); }
  }
}
