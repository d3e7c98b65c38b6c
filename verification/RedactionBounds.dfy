/** The streaming promise fails outside its side conditions: where, and exactly when. */
module RedactionBounds {
  import opened ByteStrings
  import opened Redaction

  /** No placeholder's inner text contains any needle, and no key contains a bracket. */
  ghost predicate PlainKeys(ns: seq<Needle>) {
    && (forall a, b | a in ns && b in ns :: !Occurs(Inner(a.key), b.bytes))
    && forall n | n in ns :: BracketFree(n.key)
  }

  lemma PlaceholderOrigin(key: Bytes, w: Bytes)
    requires w != [] && BracketFree(w)
    ensures Occurs(Placeholder(key), w) ==> Occurs(Inner(key), w)
  {
    var p := Placeholder(key);
    forall i: nat | OccursAt(p, w, i) ensures Occurs(Inner(key), w) {
      OccurrenceAvoids(p, w, i, 0);
      OccurrenceAvoids(p, w, i, |p| - 1);
      OccursInside(p, w, i, 1, |p| - 1);
      assert p[1..|p| - 1] == Inner(key);
    }
  }

  lemma ByteOccurs(s: Bytes, w: Bytes, b: byte)
    requires b in w
    ensures Occurs(s, w) ==> b in s
  {
    var k :| 0 <= k < |w| && w[k] == b;
    forall i: nat | OccursAt(s, w, i) ensures b in s {
      assert s[i + k] == s[i..i + |w|][k];
    }
  }

  lemma LongOccurrence(s: Bytes, w: Bytes)
    requires |w| >= |s|
    ensures Occurs(s, w) ==> s == w
  {
    assert s[0..|s|] == s;
  }

  lemma {:induction false} NothingToRedact(ns: seq<Needle>, buf: Bytes)
    requires NonEmpty(ns) && forall n | n in ns :: !Occurs(buf, n.bytes)
    ensures Redact(ns, buf) == buf
  {
    if ns != [] {
      ReplaceNothing(buf, ns[0].bytes, Placeholder(ns[0].key));
      NothingToRedact(ns[1..], buf);
    }
  }

  /** Longest first, a needle standing alone is replaced whole: by one placeholder and nothing
      else. */
  lemma {:induction false} NeedleReplacedWhole(ns: seq<Needle>, a: Needle) returns (key: Bytes)
    requires NonEmpty(ns) && NoBrackets(ns) && LongestFirst(ns) && PlainKeys(ns) && a in ns
    ensures Needle(a.bytes, key) in ns && Redact(ns, a.bytes) == Placeholder(key)
  {
    var h := ns[0];
    var r := Placeholder(h.key);
    if h.bytes == a.bytes {
      assert a.bytes[|a.bytes|..] == [];
      assert ReplaceAll(a.bytes, h.bytes, r) == r;
      forall n | n in ns[1..] ensures !Occurs(r, n.bytes) {
        PlaceholderOrigin(h.key, n.bytes);
      }
      NothingToRedact(ns[1..], r);
      key := h.key;
    } else {
      var i :| 0 <= i < |ns| && ns[i] == a;
      assert |h.bytes| >= |a.bytes|;
      LongOccurrence(a.bytes, h.bytes);
      ReplaceNothing(a.bytes, h.bytes, r);
      assert LongestFirst(ns[1..]) by {
        forall i, j | 0 <= i < j < |ns[1..]| ensures |ns[1..][i].bytes| >= |ns[1..][j].bytes| {
          assert ns[1..][i] == ns[i + 1] && ns[1..][j] == ns[j + 1];
        }
      }
      key := NeedleReplacedWhole(ns[1..], a);
    }
  }

  lemma {:induction false} RedactedBracketsClose(ns: seq<Needle>, x: Bytes)
    requires NonEmpty(ns) && NoBrackets(ns)
    requires x != [] && (OPEN in x ==> CLOSE in x)
    ensures Redact(ns, x) != [] && (OPEN in Redact(ns, x) ==> CLOSE in Redact(ns, x))
  {
    if ns != [] {
      var r := Placeholder(ns[0].key);
      BracketsCome(x, ns[0].bytes, r);
      RedactedBracketsClose(ns[1..], ReplaceAll(x, ns[0].bytes, r));
    }
  }

  /** A finished needle with an unfinished one beginning inside it is cut in two, and comes out
      different from the whole, unless it is itself the start of a longer needle. */
  lemma OverlapBreaksStream(ns: seq<Needle>, a: Needle, j: nat)
    requires NonEmpty(ns) && NoBrackets(ns) && LongestFirst(ns) && PlainKeys(ns)
    requires a in ns && 0 < j < |a.bytes|
    requires ProperPrefix(ns, a.bytes[j..]) && !ProperPrefix(ns, a.bytes)
    ensures Stream(ns, [], [a.bytes]) != Redact(ns, a.bytes)
  {
    var key := NeedleReplacedWhole(ns, a);
    assert a.bytes[j..] + [] == a.bytes[j..] && a.bytes + [] == a.bytes;
    HoldCuts(ns, a, j, []);
    var x, y := Release(ns, a.bytes), Keep(ns, a.bytes);
    assert [] + a.bytes == a.bytes && [a.bytes][1..] == [];
    assert Stream(ns, [], [a.bytes]) == Redact(ns, x) + Redact(ns, y);
    RedactedBracketsClose(ns, x);
    RedactedBracketsClose(ns, y);
    if Redact(ns, x) + Redact(ns, y) == Placeholder(key) {
      PlaceholderInTwo(key, Redact(ns, x), Redact(ns, y));
    }
  }

  lemma PlaceholderInTwo(key: Bytes, a: Bytes, b: Bytes)
    requires BracketFree(key) && a != [] && b != [] && a + b == Placeholder(key)
    ensures OPEN in a && CLOSE !in a
  {
    var p := Placeholder(key);
    assert a[0] == p[0];
    forall i | 0 <= i < |a| ensures a[i] != CLOSE {
      assert a[i] == p[i];
      assert i > 0 ==> p[i] == Inner(key)[i - 1];
    }
  }

  /** No needle is the start of another. */
  ghost predicate PrefixFree(ns: seq<Needle>) {
    forall n | n in ns :: !ProperPrefix(ns, n.bytes)
  }

  /** Streaming exactly forces every overlapping needle to be the start of a longer one. */
  lemma ExactStreamsNeedGrowth(ns: seq<Needle>, a: Needle, j: nat)
    requires NonEmpty(ns) && NoBrackets(ns) && LongestFirst(ns) && PlainKeys(ns)
    requires StreamsExactly(ns) && a in ns && 0 < j < |a.bytes|
    ensures ProperPrefix(ns, a.bytes[j..]) ==> ProperPrefix(ns, a.bytes)
  {
    assert StreamsAs(ns, [a.bytes], Concat([a.bytes]));
    assert Concat([a.bytes]) == a.bytes + [] == a.bytes;
    if ProperPrefix(ns, a.bytes[j..]) && !ProperPrefix(ns, a.bytes) {
      OverlapBreaksStream(ns, a, j);
    }
  }

  /** Where no needle starts another, never splitting is being overlap-free, and the promise holds for
      every text and every chunking if and only if the needles are. */
  lemma StreamsExactlyIffOverlapFree(ns: seq<Needle>)
    requires NonEmpty(ns) && NoBrackets(ns) && LongestFirst(ns) && PlainKeys(ns) && PrefixFree(ns)
    ensures StreamsExactly(ns) <==> OverlapFree(ns)
  {
    if OverlapFree(ns) {
      OverlapFreeStreamsExactly(ns);
    }
    if StreamsExactly(ns) {
      forall a, j: nat | a in ns && 0 < j < |a.bytes| ensures !ProperPrefix(ns, a.bytes[j..]) {
        ExactStreamsNeedGrowth(ns, a, j);
      }
    }
  }

  // ----- Needles that start one another -----

  /** No needle occurs in t anywhere but at its start. */
  ghost predicate OnlyAtStart(ns: seq<Needle>, t: Bytes) {
    forall n, p: nat | n in ns && OccursAt(t, n.bytes, p) :: p == 0
  }

  /** Where a needle that could still have grown meets a byte that ends it, with an unfinished needle
      inside, nothing else begins. */
  ghost predicate GrowsAlone(ns: seq<Needle>) {
    forall a, j: nat, w: Bytes | Splits(ns, a, j, w) && JustStopped(ns, a, w) :: OnlyAtStart(ns, a.bytes + w)
  }

  /** An unfinished needle begins inside the finished a, and the hold does not reach back to a's start. */
  ghost predicate Splits(ns: seq<Needle>, a: Needle, j: nat, w: Bytes) {
    a in ns && 0 < j < |a.bytes| && ProperPrefix(ns, a.bytes[j..] + w) && !ProperPrefix(ns, a.bytes + w)
  }

  ghost predicate JustStopped(ns: seq<Needle>, a: Needle, w: Bytes) {
    w != [] && ProperPrefix(ns, a.bytes + w[..|w| - 1])
  }

  lemma NothingBehind(ns: seq<Needle>, t: Bytes, l: nat)
    requires OnlyAtStart(ns, t) && 0 < l <= |t|
    ensures forall n | n in ns :: !Occurs(t[l..], n.bytes)
  {
    forall n, p: nat | n in ns && OccursAt(t[l..], n.bytes, p) ensures OccursAt(t, n.bytes, l + p) {
      assert t[l..][p..p + |n.bytes|] == t[l + p..l + p + |n.bytes|];
    }
  }

  /** Across a byte that w does not have, w occurs on one side or the other. */
  lemma OneSideOrOther(p: Bytes, t: Bytes, w: Bytes)
    requires p != [] && p[|p| - 1] !in w
    ensures Occurs(p + t, w) ==> Occurs(p, w) || Occurs(t, w)
  {
    forall i: nat | OccursAt(p + t, w, i) ensures Occurs(p, w) || Occurs(t, w) {
      OccurrenceAvoids(p + t, w, i, |p| - 1);
      if i < |p| {
        assert (p + t)[i..i + |w|] == p[i..i + |w|];
        assert OccursAt(p, w, i);
      } else {
        assert (p + t)[i..i + |w|] == t[i - |p|..i - |p| + |w|];
        assert OccursAt(t, w, i - |p|);
      }
    }
  }

  /** A placeholder and text without a needle hold no needle together either. */
  lemma NothingAround(ns: seq<Needle>, key: Bytes, t: Bytes, n: Needle)
    requires NonEmpty(ns) && NoBrackets(ns) && PlainKeys(ns) && n in ns && !Occurs(t, n.bytes)
    requires exists m :: m in ns && m.key == key
    ensures !Occurs(Placeholder(key) + t, n.bytes)
  {
    PlaceholderOrigin(key, n.bytes);
    OneSideOrOther(Placeholder(key), t, n.bytes);
  }

  lemma OccursAsStart(ns: seq<Needle>, t: Bytes, n: Needle)
    requires OnlyAtStart(ns, t) && n in ns
    ensures Occurs(t, n.bytes) ==> n.bytes <= t
  {
    forall p: nat | OccursAt(t, n.bytes, p) ensures n.bytes <= t {
      assert p == 0 && t[0..0 + |n.bytes|] == n.bytes;
    }
  }

  /** Text with needles at its start only: the longest of them is replaced and nothing else. */
  lemma {:induction false} StartReplaced(ns: seq<Needle>, t: Bytes) returns (n: Needle)
    requires NonEmpty(ns) && NoBrackets(ns) && LongestFirst(ns) && PlainKeys(ns) && OnlyAtStart(ns, t)
    requires exists m :: m in ns && m.bytes <= t
    ensures n in ns && n.bytes <= t && Redact(ns, t) == Placeholder(n.key) + t[|n.bytes|..]
    ensures forall m | m in ns && m.bytes <= t :: |m.bytes| <= |n.bytes|
  {
    var h := ns[0];
    var r := Placeholder(h.key);
    if h.bytes <= t {
      n := h;
      NothingBehind(ns, t, |h.bytes|);
      ReplaceNothing(t[|h.bytes|..], h.bytes, r);
      assert ReplaceAll(t, h.bytes, r) == r + t[|h.bytes|..];
      forall m | m in ns[1..] ensures !Occurs(r + t[|h.bytes|..], m.bytes) {
        NothingAround(ns, h.key, t[|h.bytes|..], m);
      }
      NothingToRedact(ns[1..], r + t[|h.bytes|..]);
    } else {
      OccursAsStart(ns, t, h);
      ReplaceNothing(t, h.bytes, r);
      assert LongestFirst(ns[1..]) by {
        forall i, j | 0 <= i < j < |ns[1..]| ensures |ns[1..][i].bytes| >= |ns[1..][j].bytes| {
          assert ns[1..][i] == ns[i + 1] && ns[1..][j] == ns[j + 1];
        }
      }
      n := StartReplaced(ns[1..], t);
    }
  }

  lemma PartOnlyAtStart(ns: seq<Needle>, t: Bytes, c: nat)
    requires OnlyAtStart(ns, t) && c <= |t|
    ensures OnlyAtStart(ns, t[..c])
  {
    forall n, p: nat | n in ns && OccursAt(t[..c], n.bytes, p) ensures OccursAt(t, n.bytes, p) {
      assert t[..c][p..p + |n.bytes|] == t[p..p + |n.bytes|];
    }
  }

  /** Two texts that begin with a placeholder and go on without a bracket show whose it was, and how
      much was left behind it. */
  lemma SameStart(k1: Bytes, k2: Bytes, r1: Bytes, r2: Bytes)
    requires BracketFree(k1) && BracketFree(k2) && Placeholder(k1) + r1 == Placeholder(k2) + r2
    ensures |r1| == |r2|
  {
    ClosesFirst(k1, r1);
    ClosesFirst(k2, r2);
    FirstCloseIsUnique(Placeholder(k1) + r1, |Placeholder(k1)| - 1, |Placeholder(k2)| - 1);
  }

  ghost predicate IsFirstClose(s: Bytes, i: nat) {
    i < |s| && s[i] == CLOSE && forall k | 0 <= k < i :: s[k] != CLOSE
  }

  lemma FirstCloseIsUnique(s: Bytes, i: nat, j: nat)
    requires IsFirstClose(s, i) && IsFirstClose(s, j)
    ensures i == j
  {}

  lemma ClosesFirst(key: Bytes, rest: Bytes)
    requires BracketFree(key)
    ensures IsFirstClose(Placeholder(key) + rest, |Placeholder(key)| - 1)
  {
    var p := Placeholder(key);
    forall i | 0 <= i < |p| - 1 ensures (p + rest)[i] != CLOSE {
      assert i > 0 ==> p[i] == Inner(key)[i - 1];
    }
  }

  lemma OneWrite(ns: seq<Needle>, t: Bytes)
    requires NonEmpty(ns)
    ensures Stream(ns, [], [t]) == Redact(ns, Release(ns, t)) + Redact(ns, Keep(ns, t))
  {
    assert [] + t == t && [t][1..] == [];
  }

  /** The released part x begins with no needle, or with one that ends inside it, while a longer one is
      replaced in the whole. */
  lemma CutDiffers(ns: seq<Needle>, x: Bytes, y: Bytes, t: Bytes, a: Needle)
    requires NonEmpty(ns) && NoBrackets(ns) && LongestFirst(ns) && PlainKeys(ns)
    requires t == x + y && OnlyAtStart(ns, t) && OnlyAtStart(ns, x)
    requires a in ns && a.bytes <= t && 0 < |x| < |a.bytes|
    ensures Redact(ns, x) + y != Redact(ns, t)
  {
    var n := StartReplaced(ns, t);
    if exists m :: m in ns && m.bytes <= x {
      var m := StartReplaced(ns, x);
      var rest := x[|m.bytes|..] + y;
      Associative(Placeholder(m.key), x[|m.bytes|..], y);
      if Redact(ns, x) + y == Redact(ns, t) { SameStart(m.key, n.key, rest, t[|n.bytes|..]); }
    } else {
      forall m | m in ns ensures !Occurs(x, m.bytes) { OccursAsStart(ns, x, m); }
      NothingToRedact(ns, x);
      assert (x + y)[0] == a.bytes[0] && Redact(ns, t)[0] == OPEN;
    }
  }

  /** A finished needle that stops growing right where the hold cuts it: the stream differs from the whole. */
  lemma SplitBreaksStream(ns: seq<Needle>, a: Needle, j: nat, w: Bytes)
    requires NonEmpty(ns) && NoBrackets(ns) && LongestFirst(ns) && PlainKeys(ns)
    requires Splits(ns, a, j, w) && OnlyAtStart(ns, a.bytes + w)
    ensures Stream(ns, [], [a.bytes + w]) != Redact(ns, a.bytes + w)
  {
    HoldCuts(ns, a, j, w);
    CutStream(ns, a, a.bytes + w);
  }

  lemma CutStream(ns: seq<Needle>, a: Needle, t: Bytes)
    requires NonEmpty(ns) && NoBrackets(ns) && LongestFirst(ns) && PlainKeys(ns)
    requires OnlyAtStart(ns, t) && a in ns && a.bytes <= t && 0 < |Release(ns, t)| < |a.bytes|
    ensures Stream(ns, [], [t]) != Redact(ns, t)
  {
    var x, y := Release(ns, t), Keep(ns, t);
    assert t[..|x|] == x && t[|x|..] == y && t == x + y;
    OneWrite(ns, t);
    NothingBehind(ns, t, |x|);
    NothingToRedact(ns, y);
    PartOnlyAtStart(ns, t, |x|);
    CutDiffers(ns, x, y, t, a);
  }

  /** Wherever a finished needle can be cut in two, it can be where it has just stopped growing, or
      alone. */
  lemma {:induction false} ShortestSplit(ns: seq<Needle>, a: Needle, j: nat, w: Bytes) returns (v: Bytes)
    requires Splits(ns, a, j, w)
    ensures Splits(ns, a, j, v) && (v == [] || JustStopped(ns, a, v))
    decreases |w|
  {
    v := w;
    if w != [] && !JustStopped(ns, a, w) {
      var less := w[..|w| - 1];
      var n :| n in ns && a.bytes[j..] + w < n.bytes;
      assert a.bytes[j..] + less == (a.bytes[j..] + w)[..|a.bytes| - j + |less|];
      assert a.bytes[j..] + less < n.bytes;
      v := ShortestSplit(ns, a, j, less);
    }
  }

  /** Streaming is exact for every text and every chunking if and only if holding back never cuts a
      finished needle in two. Needles may start one another, as the encoded forms of one value do. */
  lemma StreamsExactlyIffNeverSplits(ns: seq<Needle>)
    requires NonEmpty(ns) && NoBrackets(ns) && LongestFirst(ns) && PlainKeys(ns) && GrowsAlone(ns)
    ensures StreamsExactly(ns) <==> NeverSplits(ns)
  {
    if NeverSplits(ns) {
      NeverSplitsStreamsExactly(ns);
    } else {
      var a, j: nat, w: Bytes :| a in ns && 0 < j < |a.bytes|
        && ProperPrefix(ns, a.bytes[j..] + w) && !ProperPrefix(ns, a.bytes + w);
      var v := ShortestSplit(ns, a, j, w);
      if v == [] {
        assert a.bytes[j..] + [] == a.bytes[j..] && a.bytes + [] == a.bytes;
        OverlapBreaksStream(ns, a, j);
      } else {
        SplitBreaksStream(ns, a, j, v);
      }
      var t: Bytes := a.bytes + v;
      assert a.bytes + [] == a.bytes;
      assert Concat([t]) == t + [] == t;
      assert !StreamsAs(ns, [t], Concat([t]));
    }
  }

  // ----- Witnesses -----

  const ABCA: Bytes := [97, 98, 99, 97]

  lemma AbcaHold(ns: seq<Needle>, key: Bytes)
    requires ns == [Needle(ABCA, key)]
    ensures Release(ns, ABCA) == [97, 98, 99] && Keep(ns, ABCA) == [97]
  {
    var w := ABCA;
    forall l: nat | CouldGrow(ns, w, l) ensures l <= 1 {
      var t := w[4 - l..];
      assert l > 0 ==> t[0] == w[4 - l] && t[0] == w[0];
      assert l == 4 ==> t == w;
    }
    assert w[3..] == [97] && w[3..] < ns[0].bytes;
    assert CouldGrow(ns, w, 1);
    HoldIsUnique(ns, w, 1, Holdback(ns, w));
  }

  lemma OneNeedle(n: Needle, s: Bytes)
    requires n.bytes != []
    ensures Redact([n], s) == ReplaceAll(s, n.bytes, Placeholder(n.key))
    ensures |s| < |n.bytes| ==> Redact([n], s) == s
    ensures s == n.bytes ==> Redact([n], s) == Placeholder(n.key)
  {
    assert [n][1..] == [];
    if s == n.bytes {
      assert s[..|s|] == s && s[|s|..] == [];
      assert ReplaceAll(s[|s|..], n.bytes, Placeholder(n.key)) == [];
    }
  }

  /** The needle "abca" ends as it begins: written whole and flushed, it comes out unmasked. */
  lemma OverlapWitness(key: Bytes)
    ensures var ns := [Needle(ABCA, key)];
      && Stream(ns, [], [ABCA]) == ABCA
      && Redact(ns, ABCA) == Placeholder(key)
  {
    var n := Needle(ABCA, key);
    AbcaHold([n], key);
    OneNeedle(n, ABCA);
    OneNeedle(n, [97, 98, 99]);
    OneNeedle(n, [97]);
    assert [] + ABCA == ABCA && [ABCA][1..] == [];
    assert Stream([n], [], [ABCA]) == [97, 98, 99] + Stream([n], [97], []);
  }

  const WXYZ1: Bytes := [119, 120, 121, 122, 49]
  const ABC: Bytes := [97, 98, 99]

  ghost function BracketNeedles(k1: Bytes, k2: Bytes): seq<Needle> {
    [Needle(WXYZ1, k1), Needle([CLOSE] + ABC, k2)]
  }

  /** Brackets in a needle break the promise without any overlap: once "wxyz1" became a
      placeholder, its closing bracket and the text behind it read as the needle "]abc". */
  lemma BracketWitness(k1: Bytes, k2: Bytes)
    requires BracketFree(k1)
    ensures var ns := BracketNeedles(k1, k2);
      && OverlapFree(ns)
      && Stream(ns, [], [WXYZ1, ABC]) == Placeholder(k1) + ABC
      && Redact(ns, WXYZ1 + ABC) == [OPEN] + Inner(k1) + Placeholder(k2)
  {
    BracketNeedlesOverlapFree(k1, k2);
    BracketStreamed(k1, k2);
    BracketWhole(k1, k2);
  }

  lemma BracketNeedlesOverlapFree(k1: Bytes, k2: Bytes)
    ensures OverlapFree(BracketNeedles(k1, k2))
  {
    var ns := BracketNeedles(k1, k2);
    var c := [CLOSE] + ABC;
    assert forall n | n in ns :: n.bytes == WXYZ1 || n.bytes == c;
    forall n, j: nat | n in ns && 0 < j < |n.bytes| ensures !ProperPrefix(ns, n.bytes[j..]) {
      assert n.bytes[j..][0] == n.bytes[j];
      assert WXYZ1[0] != n.bytes[j] && c[0] != n.bytes[j];
    }
  }

  /** A text that no needle starts with, and in which no needle starts later, is released at once. */
  lemma NothingStarts(ns: seq<Needle>, buf: Bytes)
    requires NonEmpty(ns) && !ProperPrefix(ns, buf)
    requires forall n, i | n in ns && 0 < i < |buf| :: buf[i] != n.bytes[0]
    ensures Release(ns, buf) == buf && Keep(ns, buf) == []
  {
    forall l: nat | 0 < l <= |buf| ensures !CouldGrow(ns, buf, l) {
      assert buf[|buf| - |buf|..] == buf;
      assert buf[|buf| - l..][0] == buf[|buf| - l];
    }
    HoldIsUnique(ns, buf, 0, Holdback(ns, buf));
  }

  lemma WriteThrough(ns: seq<Needle>, p: Bytes, rest: seq<Bytes>)
    requires NonEmpty(ns) && Release(ns, p) == p && Keep(ns, p) == []
    ensures Stream(ns, [], [p] + rest) == Redact(ns, p) + Stream(ns, [], rest)
  {
    assert [] + p == p && ([p] + rest)[1..] == rest;
  }

  lemma NothingHeld(k1: Bytes, k2: Bytes)
    ensures var ns := BracketNeedles(k1, k2);
      && Release(ns, WXYZ1) == WXYZ1 && Keep(ns, WXYZ1) == [] && Release(ns, ABC) == ABC && Keep(ns, ABC) == []
  {
    var ns := BracketNeedles(k1, k2);
    assert forall n | n in ns :: n.bytes == WXYZ1 || n.bytes == [CLOSE] + ABC;
    assert ABC[0] != WXYZ1[0] && ABC[0] != ([CLOSE] + ABC)[0];
    NothingStarts(ns, WXYZ1);
    NothingStarts(ns, ABC);
  }

  lemma BracketStreamed(k1: Bytes, k2: Bytes)
    requires BracketFree(k1)
    ensures Stream(BracketNeedles(k1, k2), [], [WXYZ1, ABC]) == Placeholder(k1) + ABC
  {
    var ns := BracketNeedles(k1, k2);
    NothingHeld(k1, k2);
    WriteThrough(ns, WXYZ1, [ABC]);
    WriteThrough(ns, ABC, []);
    assert [WXYZ1] + [ABC] == [WXYZ1, ABC] && [ABC] + [] == [ABC];
    RedactsFirst(k1, k2);
    assert ABC + [] == ABC;
  }

  lemma RedactTwo(m: Needle, n: Needle, buf: Bytes)
    requires m.bytes != [] && n.bytes != []
    ensures Redact([m, n], buf)
         == ReplaceAll(ReplaceAll(buf, m.bytes, Placeholder(m.key)), n.bytes, Placeholder(n.key))
  {
    assert [m, n][1..] == [n] && [n][1..] == [];
    var next := ReplaceAll(buf, m.bytes, Placeholder(m.key));
    assert Redact([n], next) == ReplaceAll(next, n.bytes, Placeholder(n.key));
  }

  lemma RedactsFirst(k1: Bytes, k2: Bytes)
    requires BracketFree(k1)
    ensures var ns := BracketNeedles(k1, k2);
      Redact(ns, WXYZ1) == Placeholder(k1) && Redact(ns, ABC) == ABC && Redact(ns, []) == []
  {
    var c, p1 := [CLOSE] + ABC, Placeholder(k1);
    forall buf | buf in [WXYZ1, ABC, []] { RedactTwo(Needle(WXYZ1, k1), Needle(c, k2), buf); }
    assert WXYZ1[5..] == [] && ReplaceAll(WXYZ1, WXYZ1, p1) == p1;
    ShortOfClose(p1, ABC);
    ReplaceNothing(p1, c, Placeholder(k2));
  }

  lemma BracketWhole(k1: Bytes, k2: Bytes)
    requires BracketFree(k1)
    ensures Redact(BracketNeedles(k1, k2), WXYZ1 + ABC) == [OPEN] + Inner(k1) + Placeholder(k2)
  {
    var c, p1 := [CLOSE] + ABC, Placeholder(k1);
    RedactTwo(Needle(WXYZ1, k1), Needle(c, k2), WXYZ1 + ABC);
    assert (WXYZ1 + ABC)[..5] == WXYZ1 && (WXYZ1 + ABC)[5..] == ABC;
    assert ReplaceAll(WXYZ1 + ABC, WXYZ1, p1) == p1 + ABC;
    ClosingNeedle([OPEN] + Inner(k1), ABC, Placeholder(k2));
    assert p1 + ABC == ([OPEN] + Inner(k1)) + c;
  }

  lemma ShortOfClose(p: Bytes, b: Bytes)
    requires |p| > 0 && b != []
    ensures Occurs(p, [CLOSE] + b) ==> CLOSE in p[..|p| - 1]
  {
    var c := [CLOSE] + b;
    forall i: nat | OccursAt(p, c, i) ensures CLOSE in p[..|p| - 1] {
      assert p[i] == c[0];
      assert p[..|p| - 1][i] == CLOSE;
    }
  }

  lemma {:induction false} ClosingNeedle(pre: Bytes, b: Bytes, r: Bytes)
    requires CLOSE !in pre && b != []
    ensures ReplaceAll(pre + ([CLOSE] + b), [CLOSE] + b, r) == pre + r
  {
    var c := [CLOSE] + b;
    var s := pre + c;
    if pre == [] {
      assert s == c && s[|c|..] == [];
    } else {
      assert s[0] == pre[0] && s[..|c|][0] == s[0];
      assert s[1..] == pre[1..] + c;
      ClosingNeedle(pre[1..], b, r);
    }
  }

  /** A needle that a placeholder spells out survives: "REDACTED" is written back by its own
      replacement. */
  lemma SurvivorWitness(key: Bytes)
    ensures var w := REDACTED[..8]; var ns := [Needle(w, key)];
      Redact(ns, w) == Placeholder(key) && Occurs(Redact(ns, w), w)
  {
    var w := REDACTED[..8];
    var ns := [Needle(w, key)];
    assert w[8..] == [] && ns[1..] == [];
    assert ReplaceAll(w, w, Placeholder(key)) == Placeholder(key);
    assert OccursAt(Placeholder(key), w, 1);
  }
}
