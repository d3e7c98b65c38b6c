/** Whether anything of a needle can be left in the output: exactly when some placeholder, once the needles
    behind its own have been applied to it, still spells one out. */
module Survivors {
  import opened ByteStrings
  import opened Redaction
  import opened RedactionBounds

  /** No needle before it has the same bytes; a later one of the same bytes finds nothing to replace. */
  predicate IsFirst(ns: seq<Needle>, i: nat)
    requires i < |ns|
  {
    forall j | 0 <= j < i :: ns[j].bytes != ns[i].bytes
  }

  ghost predicate NoneIn(ns: seq<Needle>, t: Bytes) {
    forall n | n in ns :: !Occurs(t, n.bytes)
  }

  /** Every needle's placeholder text, redacted by the needles behind it, holds no needle. */
  ghost predicate PlaceholdersSettle(ns: seq<Needle>)
    requires NonEmpty(ns)
  {
    forall i | 0 <= i < |ns| && IsFirst(ns, i) :: Settles(ns, i)
  }

  ghost predicate Settles(ns: seq<Needle>, i: nat)
    requires NonEmpty(ns) && i < |ns|
  {
    NoneIn(ns, Redact(ns[i + 1..], Inner(ns[i].key)))
  }

  // ---- Text between brackets ----

  lemma OneByte(b: byte, w: Bytes)
    requires w != []
    ensures Occurs([b], w) ==> b in w
  {
    forall i: nat | OccursAt([b], w, i) ensures b in w {
      assert w[0] == [b][i];
    }
  }

  lemma NotInBracket(b: byte, ns: seq<Needle>)
    requires NonEmpty(ns) && NoBrackets(ns) && (b == OPEN || b == CLOSE)
    ensures Redact(ns, [b]) == [b]
  {
    forall n | n in ns ensures !Occurs([b], n.bytes) {
      OneByte(b, n.bytes);
    }
    NothingToRedact(ns, [b]);
  }

  ghost predicate BracketAtCut(x: Bytes, y: Bytes) {
    (x != [] && x[|x| - 1] in [OPEN, CLOSE]) || (y != [] && y[0] in [OPEN, CLOSE])
  }

  lemma SplitHasBracket(x: Bytes, y: Bytes, w: Bytes, j: nat)
    requires BracketAtCut(x, y)
    ensures SplitsAt(x, y, w, j) ==> !BracketFree(w)
  {
    if SplitsAt(x, y, w, j) {
      assert w[..j][j - 1] == x[|x| - j..][j - 1];
      assert w[j..][0] == y[0];
    }
  }

  /** A bracket on either side of a cut lets both sides be redacted apart. */
  lemma RedactAtBracket(ns: seq<Needle>, x: Bytes, y: Bytes)
    requires NonEmpty(ns) && NoBrackets(ns) && BracketAtCut(x, y)
    ensures Redact(ns, x + y) == Redact(ns, x) + Redact(ns, y)
  {
    forall n, j: nat | n in ns ensures !SplitsAt(x, y, n.bytes, j) {
      SplitHasBracket(x, y, n.bytes, j);
    }
    RedactAtSeam(ns, x, y, []);
  }

  lemma PlaceholderRedacted(ns: seq<Needle>, key: Bytes)
    requires NonEmpty(ns) && NoBrackets(ns)
    ensures Redact(ns, Placeholder(key)) == [OPEN] + Redact(ns, Inner(key)) + [CLOSE]
  {
    NotInBracket(OPEN, ns);
    NotInBracket(CLOSE, ns);
    RedactAtBracket(ns, [OPEN], Inner(key));
    RedactAtBracket(ns, [OPEN] + Inner(key), [CLOSE]);
  }

  /** Across a byte that w does not have, on its right. */
  lemma OtherSideOrOne(p: Bytes, t: Bytes, w: Bytes)
    requires t != [] && t[0] !in w
    ensures Occurs(p + t, w) ==> Occurs(p, w) || Occurs(t, w)
  {
    forall i: nat | OccursAt(p + t, w, i) ensures Occurs(p, w) || Occurs(t, w) {
      OccurrenceAvoids(p + t, w, i, |p|);
      if i + |w| <= |p| {
        assert (p + t)[i..i + |w|] == p[i..i + |w|];
        assert OccursAt(p, w, i);
      } else {
        assert (p + t)[i..i + |w|] == t[i - |p|..i - |p| + |w|];
        assert OccursAt(t, w, i - |p|);
      }
    }
  }

  lemma InOneOfThree(a: Bytes, b: Bytes, c: Bytes, w: Bytes)
    requires w != [] && BracketFree(w)
    ensures Occurs(a + ([OPEN] + b + [CLOSE]) + c, w) ==> Occurs(a, w) || Occurs(b, w) || Occurs(c, w)
  {
    var mid := [OPEN] + b + [CLOSE];
    OneSideOrOther(a + mid, c, w);
    OtherSideOrOne(a, mid, w);
    OtherSideOrOne([OPEN] + b, [CLOSE], w);
    OneSideOrOther([OPEN], b, w);
    OneByte(OPEN, w);
    OneByte(CLOSE, w);
  }

  lemma OccursBetween(a: Bytes, b: Bytes, c: Bytes, w: Bytes)
    requires Occurs(b, w)
    ensures Occurs(a + b + c, w)
  {
    var i: nat :| OccursAt(b, w, i);
    assert (a + b + c)[|a| + i..|a| + i + |w|] == b[i..i + |w|];
    assert OccursAt(a + b + c, w, |a| + i);
  }

  // ---- One needle's turn ----

  /** The first occurrence is replaced, and the text before it is as it was. */
  ghost predicate FirstTurn(t: Bytes, m: Bytes, r: Bytes, x: Bytes, y: Bytes)
    requires m != []
  {
    t == x + m + y && !Occurs(x, m) && ReplaceAll(t, m, r) == x + r + ReplaceAll(y, m, r)
  }

  lemma {:induction false} FirstReplaced(t: Bytes, m: Bytes, r: Bytes) returns (x: Bytes, y: Bytes)
    requires m != [] && Occurs(t, m)
    ensures FirstTurn(t, m, r, x, y)
  {
    if t[..|m|] == m {
      x, y := [], t[|m|..];
      LongOccurrence(x, m);
    } else {
      OccursInRest(t, m);
      x, y := FirstReplaced(t[1..], m, r);
      TurnLater(t, m, r, x, y);
      x := [t[0]] + x;
    }
  }

  lemma OccursInRest(t: Bytes, m: Bytes)
    requires m != [] && Occurs(t, m) && |m| <= |t| && t[..|m|] != m
    ensures Occurs(t[1..], m)
  {
    var i: nat :| OccursAt(t, m, i);
    assert i > 0 && t[1..][i - 1..i - 1 + |m|] == t[i..i + |m|];
    assert OccursAt(t[1..], m, i - 1);
  }

  lemma TurnLater(t: Bytes, m: Bytes, r: Bytes, x: Bytes, y: Bytes)
    requires m != [] && |m| <= |t| && t[..|m|] != m && FirstTurn(t[1..], m, r, x, y)
    ensures FirstTurn(t, m, r, [t[0]] + x, y)
  {
    OccursLater(t[0], x, m);
    assert t == [t[0]] + t[1..];
    InFront(t[0], x, m, y);
    InFront(t[0], x, r, ReplaceAll(y, m, r));
    FrontIsPrefix([t[0]] + x, m, y);
    PrefixOfPrefix(m, [t[0]] + x, t);
  }

  lemma InFront(b: byte, x: Bytes, m: Bytes, y: Bytes)
    ensures [b] + (x + m + y) == [b] + x + m + y
  {}

  lemma FrontIsPrefix(x: Bytes, m: Bytes, y: Bytes)
    ensures x <= x + m + y
  {}

  lemma PrefixOfPrefix(m: Bytes, u: Bytes, t: Bytes)
    requires u <= t && |m| <= |t|
    ensures m <= u ==> t[..|m|] == m
  {}

  lemma OccursLater(b: byte, x: Bytes, m: Bytes)
    ensures Occurs([b] + x, m) ==> Occurs(x, m) || m <= [b] + x
  {
    forall i: nat | OccursAt([b] + x, m, i) ensures Occurs(x, m) || m <= [b] + x {
      if i > 0 {
        assert ([b] + x)[i..i + |m|] == x[i - 1..i - 1 + |m|];
        assert OccursAt(x, m, i - 1);
      }
    }
  }

  // ---- What is left ----

  /** Text in which the first i needles no longer occur. */
  ghost predicate DoneWith(ns: seq<Needle>, i: nat, t: Bytes)
    requires i <= |ns|
  {
    forall j | 0 <= j < i :: !Occurs(t, ns[j].bytes)
  }

  lemma DoneWithPart(ns: seq<Needle>, i: nat, a: Bytes, b: Bytes, c: Bytes)
    requires i <= |ns| && DoneWith(ns, i, a + b + c)
    ensures DoneWith(ns, i, a) && DoneWith(ns, i, c)
  {
    forall j | 0 <= j < i ensures !Occurs(a, ns[j].bytes) && !Occurs(c, ns[j].bytes) {
      if Occurs(a, ns[j].bytes) { OccursBetween([], a, b + c, ns[j].bytes); }
      if Occurs(c, ns[j].bytes) { OccursBetween(a + b, c, [], ns[j].bytes); }
      assert [] + a + (b + c) == a + b + c && a + b + c + [] == a + b + c;
    }
  }

  /** The text before a needle, its placeholder and the text behind it are redacted apart. */
  lemma TurnParts(ns: seq<Needle>, t: Bytes, x: Bytes, y: Bytes)
    requires ns != [] && NonEmpty(ns) && NoBrackets(ns)
    requires FirstTurn(t, ns[0].bytes, Placeholder(ns[0].key), x, y)
    ensures Redact(ns, t) == Redact(ns[1..], x) + ([OPEN] + Redact(ns[1..], Inner(ns[0].key)) + [CLOSE]) + Redact(ns, y)
  {
    var rest, r := ns[1..], Placeholder(ns[0].key);
    var behind := ReplaceAll(y, ns[0].bytes, r);
    RedactAtBracket(rest, x + r, behind);
    RedactAtBracket(rest, x, r);
    PlaceholderRedacted(rest, ns[0].key);
  }

  lemma Suffix(ns: seq<Needle>, i: nat)
    requires NonEmpty(ns) && NoBrackets(ns) && i < |ns|
    ensures NonEmpty(ns[i..]) && NoBrackets(ns[i..]) && ns[i..][0] == ns[i] && ns[i..][1..] == ns[i + 1..]
  {}

  lemma {:induction false} NothingLeft(ns: seq<Needle>, i: nat, t: Bytes)
    requires NonEmpty(ns) && NoBrackets(ns) && PlaceholdersSettle(ns) && i <= |ns| && DoneWith(ns, i, t)
    ensures NoneIn(ns, Redact(ns[i..], t))
    decreases |ns| - i, |t|
  {
    if i == |ns| {
      assert ns[i..] == [];
    } else {
      Suffix(ns, i);
      if !Occurs(t, ns[i].bytes) {
        ReplaceNothing(t, ns[i].bytes, Placeholder(ns[i].key));
        NothingLeft(ns, i + 1, t);
      } else {
        var x, y := FirstReplaced(t, ns[i].bytes, Placeholder(ns[i].key));
        DoneWithPart(ns, i, x, ns[i].bytes, y);
        TurnParts(ns[i..], t, x, y);
        NothingLeft(ns, i + 1, x);
        NothingLeft(ns, i, y);
        assert Settles(ns, i);
        NoneInThree(ns, Redact(ns[i + 1..], x), Redact(ns[i + 1..], Inner(ns[i].key)), Redact(ns[i..], y));
      }
    }
  }

  lemma NoneInThree(ns: seq<Needle>, a: Bytes, b: Bytes, c: Bytes)
    requires NonEmpty(ns) && NoBrackets(ns) && NoneIn(ns, a) && NoneIn(ns, b) && NoneIn(ns, c)
    ensures NoneIn(ns, a + ([OPEN] + b + [CLOSE]) + c)
  {
    forall n | n in ns ensures !Occurs(a + ([OPEN] + b + [CLOSE]) + c, n.bytes) {
      InOneOfThree(a, b, c, n.bytes);
    }
  }

  // ---- A placeholder that does not settle ----

  /** Longest first, a needle standing alone is left to the first needle of its bytes. */
  lemma {:induction false} OwnTurn(ns: seq<Needle>, i: nat, k: nat)
    requires NonEmpty(ns) && NoBrackets(ns) && LongestFirst(ns) && k <= i < |ns| && IsFirst(ns, i)
    ensures Redact(ns[k..], ns[i].bytes) == [OPEN] + Redact(ns[i + 1..], Inner(ns[i].key)) + [CLOSE]
    decreases i - k
  {
    var b, r := ns[i].bytes, Placeholder(ns[k].key);
    Suffix(ns, k);
    if k == i {
      assert b[|b|..] == [] && ReplaceAll(b, b, r) == r + ReplaceAll([], b, r) == r;
      PlaceholderRedacted(ns[i + 1..], ns[i].key);
    } else {
      LongOccurrence(b, ns[k].bytes);
      ReplaceNothing(b, ns[k].bytes, r);
      OwnTurn(ns, i, k + 1);
    }
  }

  /** For every text no needle is left in its redaction. */
  ghost predicate NothingSurvives(ns: seq<Needle>)
    requires NonEmpty(ns)
  {
    forall buf: Bytes :: NoneIn(ns, Redact(ns, buf))
  }

  /** No needle is ever left in the output if and only if every placeholder settles. */
  lemma NothingSurvivesIff(ns: seq<Needle>)
    requires NonEmpty(ns) && NoBrackets(ns) && LongestFirst(ns)
    ensures NothingSurvives(ns) <==> PlaceholdersSettle(ns)
  {
    assert ns[0..] == ns;
    if PlaceholdersSettle(ns) {
      forall buf: Bytes ensures NoneIn(ns, Redact(ns, buf)) {
        NothingLeft(ns, 0, buf);
      }
    }
    if NothingSurvives(ns) {
      forall i | 0 <= i < |ns| && IsFirst(ns, i) ensures Settles(ns, i) {
        OwnTurn(ns, i, 0);
        Unwrapped(ns, Redact(ns, ns[i].bytes), Redact(ns[i + 1..], Inner(ns[i].key)));
      }
    }
  }

  lemma Unwrapped(ns: seq<Needle>, whole: Bytes, inner: Bytes)
    requires NoneIn(ns, whole) && whole == [OPEN] + inner + [CLOSE]
    ensures NoneIn(ns, inner)
  {
    forall n | n in ns ensures !Occurs(inner, n.bytes) {
      if Occurs(inner, n.bytes) { OccursBetween([OPEN], inner, [CLOSE], n.bytes); }
    }
  }

  /** Placeholders without needles in them settle at once. */
  lemma CleanSettles(ns: seq<Needle>)
    requires NonEmpty(ns) && PlainKeys(ns)
    ensures PlaceholdersSettle(ns)
  {
    forall i | 0 <= i < |ns| && IsFirst(ns, i) ensures Settles(ns, i) {
      assert ns[i] in ns;
      forall n | n in ns[i + 1..] ensures !Occurs(Inner(ns[i].key), n.bytes) {
        assert n in ns;
      }
      NothingToRedact(ns[i + 1..], Inner(ns[i].key));
    }
  }

  // ---- Masked streams ----

  /** However a masked text is cut into writes, no needle is anywhere in what comes out of them. */
  ghost predicate NothingStreamed(ns: seq<Needle>)
    requires NonEmpty(ns)
  {
    forall chunks :: NoneIn(ns, Stream(ns, [], chunks))
  }

  lemma StreamedIff(ns: seq<Needle>)
    requires NonEmpty(ns) && StreamsExactly(ns)
    ensures NothingStreamed(ns) <==> NothingSurvives(ns)
  {
    forall chunks ensures Stream(ns, [], chunks) == Redact(ns, Concat(chunks)) {
      assert StreamsAs(ns, chunks, Concat(chunks));
    }
    forall buf: Bytes ensures Stream(ns, [], [buf]) == Redact(ns, buf) {
      assert Concat([buf]) == buf + Concat([]) == buf;
      assert StreamsAs(ns, [buf], Concat([buf]));
    }
  }

  /** Clean placeholders, and exact streaming: nothing gets out. */
  lemma NothingStreamedWhenClean(ns: seq<Needle>)
    requires NonEmpty(ns) && NoBrackets(ns) && PlaceholdersClean(ns) && StreamsExactly(ns)
    ensures NothingStreamed(ns)
  {
    forall buf: Bytes, n | n in ns ensures !Occurs(Redact(ns, buf), n.bytes) {
      NoNeedleSurvives(ns, buf, n);
    }
    StreamedIff(ns);
  }

  /** Where holding back never cuts a finished needle, no chunking of any text lets a needle out if and
      only if every placeholder settles. */
  lemma NothingStreamedIff(ns: seq<Needle>)
    requires NonEmpty(ns) && NoBrackets(ns) && LongestFirst(ns) && NeverSplits(ns)
    ensures NothingStreamed(ns) <==> PlaceholdersSettle(ns)
  {
    NeverSplitsStreamsExactly(ns);
    StreamedIff(ns);
    NothingSurvivesIff(ns);
  }
}
