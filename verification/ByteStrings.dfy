/** Byte strings, and Go's bytes.ReplaceAll and bytes.Count on them: both scan left to right
    and take occurrences that do not overlap. */
module ByteStrings {
  newtype byte = b: int | 0 <= b < 256

  type Bytes = seq<byte>

  const OPEN: byte := 91   // '['
  const CLOSE: byte := 93  // ']'

  predicate HasSuffix(s: Bytes, w: Bytes) {
    |w| <= |s| && s[|s| - |w|..] == w
  }

  predicate BracketFree(s: Bytes) {
    OPEN !in s && CLOSE !in s
  }

  ghost predicate OccursAt(s: Bytes, w: Bytes, i: nat) {
    i + |w| <= |s| && s[i..i + |w|] == w
  }

  ghost predicate Occurs(s: Bytes, w: Bytes) {
    exists i: nat :: OccursAt(s, w, i)
  }

  function ReplaceAll(s: Bytes, old': Bytes, new': Bytes): Bytes
    requires old' != []
  {
    if |s| < |old'| then s
    else if s[..|old'|] == old' then new' + ReplaceAll(s[|old'|..], old', new')
    else [s[0]] + ReplaceAll(s[1..], old', new')
  }

  function Count(s: Bytes, w: Bytes): nat
    requires w != []
  {
    if |s| < |w| then 0
    else if s[..|w|] == w then 1 + Count(s[|w|..], w)
    else Count(s[1..], w)
  }

  /** A byte at which w does not occur is passed over. */
  lemma PassedOver(s: Bytes, w: Bytes, r: Bytes)
    requires w != [] && s != [] && !OccursAt(s, w, 0)
    ensures ReplaceAll(s, w, r) == [s[0]] + ReplaceAll(s[1..], w, r) && Count(s, w) == Count(s[1..], w)
  {
    if |s| < |w| { assert s == [s[0]] + s[1..]; }
  }

  lemma TakenAtStart(w: Bytes, y: Bytes, r: Bytes)
    requires w != []
    ensures ReplaceAll(w + y, w, r) == r + ReplaceAll(y, w, r) && Count(w + y, w) == 1 + Count(y, w)
  {
    assert (w + y)[..|w|] == w && (w + y)[|w|..] == y;
  }

  lemma InFrontOf(all: Bytes, x: Bytes, r: Bytes, y: Bytes)
    requires x != [] && all == [x[0]] + (x[1..] + r + y)
    ensures all == x + r + y
  {}

  lemma NotYet(x: Bytes, w: Bytes, y: Bytes)
    requires x != [] && forall j: nat | j < |x| :: !OccursAt(x + w + y, w, j)
    ensures (x + w + y)[1..] == x[1..] + w + y && (x + w + y)[0] == x[0]
    ensures forall j: nat | j < |x[1..]| :: !OccursAt(x[1..] + w + y, w, j)
  {
    assert (x + w + y)[1..] == x[1..] + w + y;
    OccursBehind(x + w + y, w);
  }

  lemma {:induction false} TakenBehind(x: Bytes, w: Bytes, y: Bytes, r: Bytes)
    requires w != [] && forall j: nat | j < |x| :: !OccursAt(x + w + y, w, j)
    ensures ReplaceAll(x + w + y, w, r) == x + r + ReplaceAll(y, w, r) && Count(x + w + y, w) == 1 + Count(y, w)
  {
    if x == [] {
      TakenAtStart(w, y, r);
      assert x + w + y == w + y && x + r + ReplaceAll(y, w, r) == r + ReplaceAll(y, w, r);
    } else {
      NotYet(x, w, y);
      TakenBehind(x[1..], w, y, r);
      PassedOver(x + w + y, w, r);
      InFrontOf(ReplaceAll(x + w + y, w, r), x, r, ReplaceAll(y, w, r));
    }
  }

  /** Both take the first occurrence there is and go on behind it. */
  lemma FirstOccurrenceTaken(s: Bytes, w: Bytes, r: Bytes, i: nat)
    requires w != [] && OccursAt(s, w, i) && forall j: nat | j < i :: !OccursAt(s, w, j)
    ensures var rest := s[i + |w|..];
      ReplaceAll(s, w, r) == s[..i] + r + ReplaceAll(rest, w, r) && Count(s, w) == 1 + Count(rest, w)
  {
    assert s == s[..i] + w + s[i + |w|..];
    TakenBehind(s[..i], w, s[i + |w|..], r);
  }

  lemma OccursBehind(s: Bytes, w: Bytes)
    requires s != []
    ensures forall j: nat :: OccursAt(s[1..], w, j) <==> OccursAt(s, w, j + 1)
  {
    forall j: nat ensures OccursAt(s[1..], w, j) <==> OccursAt(s, w, j + 1) {
      if j + 1 + |w| <= |s| { assert s[1..][j..j + |w|] == s[j + 1..j + 1 + |w|]; }
    }
  }

  /** An occurrence of w in x + y that has its first j bytes in x and the rest in y. */
  ghost predicate SplitsAt(x: Bytes, y: Bytes, w: Bytes, j: nat) {
    0 < j < |w| && HasSuffix(x, w[..j]) && w[j..] <= y
  }

  /** No occurrence of w in x + y lies across the boundary. */
  ghost predicate Seam(x: Bytes, y: Bytes, w: Bytes) {
    forall j: nat :: !SplitsAt(x, y, w, j)
  }

  /** Where no occurrence lies across a cut, replacing and counting may be done on each side. */
  lemma {:induction false} ReplaceAtSeam(x: Bytes, y: Bytes, w: Bytes, r: Bytes)
    requires w != [] && Seam(x, y, w)
    ensures ReplaceAll(x + y, w, r) == ReplaceAll(x, w, r) + ReplaceAll(y, w, r)
    ensures Count(x + y, w) == Count(x, w) + Count(y, w)
  {
    var s := x + y;
    if x == [] {
      assert s == y;
    } else if |s| >= |w| {
      OpeningSplit(x, y, w);
      if s[..|w|] == w {
        assert s[|w|..] == x[|w|..] + y && x[..|w|] == w;
        SeamOfTail(x, y, w, |w|);
        ReplaceAtSeam(x[|w|..], y, w, r);
        Associative(r, ReplaceAll(x[|w|..], w, r), ReplaceAll(y, w, r));
      } else {
        assert s[1..] == x[1..] + y && s[0] == x[0];
        SeamOfTail(x, y, w, 1);
        ReplaceAtSeam(x[1..], y, w, r);
        assert |x| >= |w| ==> x[..|w|] == s[..|w|];
        assert |x| < |w| ==> |x[1..]| < |w|;
        Associative([x[0]], ReplaceAll(x[1..], w, r), ReplaceAll(y, w, r));
        assert x == [x[0]] + x[1..];
      }
    }
  }

  lemma Associative(a: Bytes, b: Bytes, c: Bytes)
    ensures a + (b + c) == a + b + c
  {}

  lemma OpeningSplit(x: Bytes, y: Bytes, w: Bytes)
    ensures x != [] && w <= x + y ==> |w| <= |x| || SplitsAt(x, y, w, |x|)
  {
    if x != [] && w <= x + y && |x| < |w| {
      assert w[..|x|] == (x + y)[..|x|] == x;
      assert w[|x|..] == y[..|w| - |x|];
    }
  }

  lemma SeamOfTail(x: Bytes, y: Bytes, w: Bytes, k: nat)
    requires k <= |x|
    ensures Seam(x, y, w) ==> Seam(x[k..], y, w)
  {
    forall j: nat | SplitsAt(x[k..], y, w, j) ensures SplitsAt(x, y, w, j) {
      SuffixOfSum(x[..k], x[k..], w[..j]);
      assert x == x[..k] + x[k..];
    }
  }

  lemma SuffixOfSum(a: Bytes, b: Bytes, w: Bytes)
    ensures HasSuffix(b, w) ==> HasSuffix(a + b, w)
    ensures HasSuffix(a + b, w) && |w| <= |b| ==> HasSuffix(b, w)
  {
    if |w| <= |b| {
      assert (a + b)[|a + b| - |w|..] == b[|b| - |w|..];
    }
  }

  /** Output without the placeholder's last byte had nothing replaced in it. */
  lemma {:induction false} NothingReplaced(x: Bytes, m: Bytes, r: Bytes)
    requires m != [] && r != [] && r[|r| - 1] !in ReplaceAll(x, m, r)
    ensures ReplaceAll(x, m, r) == x
  {
    if |x| >= |m| && x[..|m|] == m {
      LastOfFirst(r, ReplaceAll(x[|m|..], m, r));
    } else if |x| >= |m| {
      var rest := ReplaceAll(x[1..], m, r);
      assert ReplaceAll(x, m, r) == [x[0]] + rest;
      NothingReplaced(x[1..], m, r);
    }
  }

  lemma LastOfFirst(a: Bytes, b: Bytes)
    requires a != []
    ensures a[|a| - 1] in a + b
  {
    assert (a + b)[|a| - 1] == a[|a| - 1];
  }

  /** A suffix of the replaced text without the placeholder's last byte is original text. */
  lemma {:induction false} SuffixSurvives(x: Bytes, m: Bytes, r: Bytes, w: Bytes)
    requires m != [] && r != [] && r[|r| - 1] !in w
    requires HasSuffix(ReplaceAll(x, m, r), w)
    ensures HasSuffix(x, w)
  {
    if |x| < |m| {
    } else if w == ReplaceAll(x, m, r) {
      NothingReplaced(x, m, r);
    } else {
      var k := if x[..|m|] == m then |m| else 1;
      var first := if x[..|m|] == m then r else [x[0]];
      var rest := ReplaceAll(x[k..], m, r);
      assert ReplaceAll(x, m, r) == first + rest;
      if x[..|m|] == m { SuffixAvoids(r, rest, w); }
      SuffixOfSum(first, rest, w);
      SuffixSurvives(x[k..], m, r, w);
      SuffixOfSum(x[..k], x[k..], w);
      assert x == x[..k] + x[k..];
    }
  }

  lemma SuffixAvoids(a: Bytes, b: Bytes, w: Bytes)
    requires a != [] && a[|a| - 1] !in w && HasSuffix(a + b, w)
    ensures |w| <= |b|
  {
    forall k | |a + b| - |w| <= k < |a + b| ensures (a + b)[k] in w {
      assert (a + b)[k] == w[k - (|a + b| - |w|)];
    }
    assert (a + b)[|a| - 1] == a[|a| - 1];
  }

  /** A prefix of the replaced text without the placeholder's first byte is original text. */
  lemma {:induction false} PrefixSurvives(y: Bytes, m: Bytes, r: Bytes, w: Bytes)
    requires m != [] && r != [] && r[0] !in w
    requires w <= ReplaceAll(y, m, r)
    ensures w <= y
  {
    assert w != [] ==> w[0] == ReplaceAll(y, m, r)[0];
    if |y| >= |m| && y[..|m|] != m && w != [] {
      assert w[1..] <= ReplaceAll(y[1..], m, r);
      PrefixSurvives(y[1..], m, r, w[1..]);
    }
  }

  /** A cut that no occurrence crosses stays one after something else was replaced on each side. */
  lemma SeamSurvives(x: Bytes, y: Bytes, m: Bytes, r: Bytes, w: Bytes)
    requires m != [] && r != [] && r[0] == OPEN && r[|r| - 1] == CLOSE
    requires BracketFree(w)
    ensures Seam(x, y, w) ==> Seam(ReplaceAll(x, m, r), ReplaceAll(y, m, r), w)
  {
    forall j: nat | SplitsAt(ReplaceAll(x, m, r), ReplaceAll(y, m, r), w, j)
      ensures SplitsAt(x, y, w, j)
    {
      SuffixSurvives(x, m, r, w[..j]);
      PrefixSurvives(y, m, r, w[j..]);
    }
  }

  lemma OccursInTail(s: Bytes, w: Bytes, k: nat)
    requires k <= |s| && Occurs(s[k..], w)
    ensures Occurs(s, w)
  {
    var i: nat :| OccursAt(s[k..], w, i);
    assert s[k..][i..i + |w|] == s[k + i..k + i + |w|];
    assert OccursAt(s, w, k + i);
  }

  /** An occurrence cannot cover a position that holds a byte it does not contain. */
  lemma OccurrenceAvoids(s: Bytes, w: Bytes, i: nat, p: nat)
    requires OccursAt(s, w, i) && p < |s| && s[p] !in w
    ensures p < i || i + |w| <= p
  {
    forall k | i <= k < i + |w| ensures s[k] in w {
      assert s[k] == w[k - i];
    }
  }

  lemma OccursInside(s: Bytes, w: Bytes, i: nat, lo: nat, hi: nat)
    requires OccursAt(s, w, i) && lo <= i && i + |w| <= hi <= |s|
    ensures Occurs(s[lo..hi], w)
  {
    var part := s[lo..hi];
    forall k | 0 <= k < |w| ensures part[i - lo + k] == w[k] {
      assert s[i + k] == w[k];
    }
    assert OccursAt(part, w, i - lo);
  }

  /** What occurs after a bracketed placeholder was put in occurs in the original or in the
      placeholder's inner text: the replacement itself creates no occurrence. */
  lemma {:induction false} OccurrenceOrigin(x: Bytes, m: Bytes, inner: Bytes, w: Bytes)
    requires m != [] && w != [] && BracketFree(w)
    requires Occurs(ReplaceAll(x, m, [OPEN] + inner + [CLOSE]), w)
    ensures Occurs(inner, w) || (Occurs(x, w) && w != m)
  {
    var r := [OPEN] + inner + [CLOSE];
    var out := ReplaceAll(x, m, r);
    var i: nat :| OccursAt(out, w, i);
    if |x| < |m| {
    } else if x[..|m|] == m {
      OccurrenceAvoids(out, w, i, 0);
      OccurrenceAvoids(out, w, i, |r| - 1);
      if i < |r| {
        OccursInside(out, w, i, 1, |r| - 1);
        assert out[1..|r| - 1] == inner;
      } else {
        OccursInside(out, w, i, |r|, |out|);
        assert out[|r|..|out|] == ReplaceAll(x[|m|..], m, r);
        OccurrenceOrigin(x[|m|..], m, inner, w);
        if !Occurs(inner, w) { OccursInTail(x, w, |m|); }
      }
    } else if i > 0 {
      OccursInside(out, w, i, 1, |out|);
      assert out[1..|out|] == ReplaceAll(x[1..], m, r);
      OccurrenceOrigin(x[1..], m, inner, w);
      if !Occurs(inner, w) { OccursInTail(x, w, 1); }
    } else {
      PrefixSurvives(x, m, r, w);
      assert OccursAt(x, w, 0);
    }
  }

  /** Nothing to replace, nothing replaced. */
  lemma {:induction false} ReplaceNothing(s: Bytes, w: Bytes, r: Bytes)
    requires w != [] && !Occurs(s, w)
    ensures ReplaceAll(s, w, r) == s && Count(s, w) == 0
  {
    if |s| >= |w| {
      assert !OccursAt(s, w, 0);
      if Occurs(s[1..], w) { OccursInTail(s, w, 1); }
      ReplaceNothing(s[1..], w, r);
    }
  }

  /** In text without brackets of its own, a closing bracket comes with every opening one. */
  lemma {:induction false} BracketsCome(s: Bytes, m: Bytes, r: Bytes)
    requires m != [] && r != [] && OPEN in r && CLOSE in r
    requires OPEN in s ==> CLOSE in s
    requires BracketFree(m)
    ensures OPEN in ReplaceAll(s, m, r) ==> CLOSE in ReplaceAll(s, m, r)
    ensures s != [] ==> ReplaceAll(s, m, r) != []
    ensures CLOSE in s ==> CLOSE in ReplaceAll(s, m, r)
  {
    var out := ReplaceAll(s, m, r);
    if |s| < |m| {
    } else if s[..|m|] == m {
      assert forall c | c in r :: c in out;
    } else {
      if CLOSE in s { KeepsClose(s, m, r); }
      if OPEN in out && CLOSE !in s {
        assert OPEN !in s[1..] && CLOSE !in s[1..];
        BracketsCome(s[1..], m, r);
      }
    }
  }

  lemma {:induction false} KeepsClose(s: Bytes, m: Bytes, r: Bytes)
    requires m != [] && BracketFree(m) && CLOSE in s
    ensures CLOSE in ReplaceAll(s, m, r)
  {
    if |s| < |m| {
    } else if s[..|m|] == m {
      assert s == m + s[|m|..];
      KeepsClose(s[|m|..], m, r);
    } else if s[0] != CLOSE {
      KeepsClose(s[1..], m, r);
    }
  }
}
