/** The streaming promise for the needle sets a redactor really has: the encoded forms of its values. */
module MaskedValues {
  import opened ByteStrings
  import opened Redaction
  import opened RedactionBounds
  import opened HarmlessCuts
  import opened RedactedForms
  import opened KvRedactor

  /** For the needles built from any values, streaming is exact if and only if holding back never cuts a
      finished needle in two. */
  lemma MaskStreamsExactlyIff(values: map<Bytes, Bytes>, ns: seq<Needle>)
    requires NeedlesOf(values, ns) && forall k | k in values && |values[k]| >= MASK_MIN :: BracketFree(values[k])
    requires PlainKeys(ns) && GrowsAlone(ns)
    ensures NonEmpty(ns) && (StreamsExactly(ns) <==> NeverSplits(ns))
  {
    NeedlesAreUsable(values, ns);
    StreamsExactlyIffNeverSplits(ns);
  }

  /** And for values of any bytes, if and only if no single cut does harm. */
  lemma MaskStreamsExactlyIffHarmless(values: map<Bytes, Bytes>, ns: seq<Needle>)
    requires NeedlesOf(values, ns)
    ensures NonEmpty(ns) && (StreamsExactly(ns) <==> CutsHarmless(ns))
  {
    NeedlesAreUsable(values, ns);
    StreamsExactlyIffHarmless(ns);
  }

  /** Every form of a value that the writer looks for is one of its needles. */
  lemma FormIsNeedle(values: map<Bytes, Bytes>, ns: seq<Needle>, k: Bytes, f: Bytes)
    requires NeedlesOf(values, ns) && k in values && |values[k]| >= MASK_MIN && f in Forms(values[k])
    ensures Needle(f, k) in ns
  {
    assert Wanted(values, Needle(f, k));
    assert Needle(f, k) in multiset(ns);
  }

  lemma CouldGrowIsHeld(ns: seq<Needle>, buf: Bytes, start: Bytes, n: Needle)
    requires n in ns && start < n.bytes && start != [] && HasSuffix(buf, start)
    ensures Holdback(ns, buf) >= |start|
  {
    assert CouldGrow(ns, buf, |start|);
  }

  /** No form fires while a longer one may still arrive: text that ends in the unpadded base64 of a value is held
      from where that form begins, whatever else is masked. */
  lemma RawFormWaits(values: map<Bytes, Bytes>, ns: seq<Needle>, k: Bytes, url: bool, buf: Bytes)
    requires NeedlesOf(values, ns) && k in values && |values[k]| >= MASK_MIN
    requires HasSuffix(buf, Base64(url, false, values[k]))
    ensures Holdback(ns, buf) >= |Base64(url, false, values[k])|
  {
    var v := values[k];
    var raw, long := Base64(url, false, v), Base64(url, false, v + [NEWLINE]);
    RawStartsEveryForm(url, false, v);
    NewlineFormLonger(url, v);
    Base64HasNoBrackets(url, false, v);
    NewlineFormIsForm(url, v);
    FormIsNeedle(values, ns, k, long);
    CouldGrowIsHeld(ns, buf, raw, Needle(long, k));
  }

  lemma NewlineFormIsForm(url: bool, v: Bytes)
    ensures Base64(url, false, v + [NEWLINE]) in Forms(v)
  {
    var nl := FourForms(v + [NEWLINE]);
    assert nl[1] == Base64(false, false, v + [NEWLINE]) && nl[3] == Base64(true, false, v + [NEWLINE]);
    assert Forms(v)[7] == nl[1] && Forms(v)[9] == nl[3];
  }

  const KEY: Bytes := [107]

  function AllOf(forms: seq<Bytes>): (ns: seq<Needle>)
    ensures |ns| == |forms| && forall i | 0 <= i < |ns| :: ns[i] == Needle(forms[i], KEY)
  {
    seq(|forms|, i requires 0 <= i < |forms| => Needle(forms[i], KEY))
  }

  // ---- "gab2": Z2FiMg==, Z2FiMgo=, Z2FiMgo, Z2FiMg ----

  const SMALL_A: byte := 97
  const SMALL_G: byte := 103
  const GAB2: Bytes := [103, 97, 98, 50]
  const GAB2_RAW: Bytes := [90, 50, 70, 105, 77, 103]
  const GAB2_FORMS: seq<Bytes> :=
    [GAB2_RAW + [61, 61], GAB2_RAW + [111, 61], GAB2_RAW + [111], GAB2_RAW, GAB2]

  function Padding(pad: bool, n: nat): Bytes {
    if !pad then [] else if n == 1 then [61, 61] else [61]
  }

  /** The base64 of four or five bytes: a full group and an unfinished one. */
  lemma TwoGroups(url: bool, pad: bool, s: Bytes)
    requires 4 <= |s| <= 5
    ensures Base64(url, pad, s) == Group(url, s[..3]) + (Group(url, s[3..]) + Padding(pad, |s| - 3))
  {
    assert Base64(url, pad, s[3..]) == Group(url, s[3..]) + Padding(pad, |s| - 3);
  }

  /** Four bytes, alone and with a newline behind them. */
  lemma FourBytes(url: bool, pad: bool, v: Bytes, first: Bytes, rest: Bytes, withNewline: Bytes)
    requires |v| == 4 && Group(url, v[..3]) == first
    requires Group(url, [v[3]]) == rest && Group(url, [v[3], NEWLINE]) == withNewline
    ensures Base64(url, pad, v) == first + (rest + Padding(pad, 1))
    ensures Base64(url, pad, v + [NEWLINE]) == first + (withNewline + Padding(pad, 2))
  {
    var nl := v + [NEWLINE];
    assert v[3..] == [v[3]] && nl[..3] == v[..3] && nl[3..] == [v[3], NEWLINE];
    TwoGroups(url, pad, v);
    TwoGroups(url, pad, nl);
  }

  lemma Gab2Groups(url: bool)
    ensures Group(url, [103, 97, 98]) == [90, 50, 70, 105]
    ensures Group(url, [50]) == [77, 103] && Group(url, [50, NEWLINE]) == [77, 103, 111]
  {}

  lemma Gab2Base64(url: bool, pad: bool)
    ensures Base64(url, pad, GAB2) == GAB2_RAW + (if pad then [61, 61] else [])
    ensures Base64(url, pad, GAB2 + [NEWLINE]) == GAB2_RAW + [111] + (if pad then [61] else [])
  {
    Gab2Groups(url);
    assert GAB2[..3] == [103, 97, 98];
    FourBytes(url, pad, GAB2, [90, 50, 70, 105], [77, 103], [77, 103, 111]);
  }

  /** A value spelled the same in both alphabets and as a URL has five forms. */
  lemma FiveForms(v: Bytes, b: Bytes, r: Bytes, bn: Bytes, rn: Bytes)
    requires QueryEscape(v) == v
    requires forall url :: Base64(url, true, v) == b && Base64(url, false, v) == r
    requires forall url :: Base64(url, true, v + [NEWLINE]) == bn && Base64(url, false, v + [NEWLINE]) == rn
    ensures Forms(v) == [v, v, b, r, b, r, bn, rn, bn, rn]
  {
    assert FourForms(v) == [b, r, b, r] && FourForms(v + [NEWLINE]) == [bn, rn, bn, rn];
  }

  lemma Gab2Forms()
    ensures forall f :: f in Forms(GAB2) <==> f in GAB2_FORMS
  {
    var b, r, bn, rn := GAB2_FORMS[0], GAB2_FORMS[3], GAB2_FORMS[1], GAB2_FORMS[2];
    Escaped(GAB2);
    forall url: bool, pad: bool {
      Gab2Base64(url, pad);
    }
    assert r + [] == r && rn + [] == rn && r + [111] + [61] == bn;
    FiveForms(GAB2, b, r, bn, rn);
    SameFive(GAB2, b, r, bn, rn);
  }

  lemma SameFive(v: Bytes, b: Bytes, r: Bytes, bn: Bytes, rn: Bytes)
    ensures forall f :: f in [v, v, b, r, b, r, bn, rn, bn, rn] <==> f in [b, bn, rn, r, v]
  {}

  lemma {:induction false} Escaped(v: Bytes)
    requires forall b | b in v :: Unreserved(b)
    ensures QueryEscape(v) == v
  {
    if v != [] {
      assert v == [v[0]] + v[1..];
      Escaped(v[1..]);
    }
  }

  lemma IsOneOf(forms: seq<Bytes>, n: Needle)
    ensures n in AllOf(forms) <==> n.key == KEY && n.bytes in forms
  {
    if n.key == KEY && n.bytes in forms {
      var i :| 0 <= i < |forms| && forms[i] == n.bytes;
      assert AllOf(forms)[i] == n;
    }
  }

  ghost predicate DistinctForms(forms: seq<Bytes>) {
    && (forall i, j | 0 <= i < j < |forms| :: forms[i] != forms[j])
    && forall i, j | 0 <= i < j < |forms| :: |forms[i]| >= |forms[j]|
  }

  lemma {:induction false} OnceEach(ns: seq<Needle>, n: Needle)
    requires forall i, j | 0 <= i < j < |ns| :: ns[i] != ns[j]
    ensures multiset(ns)[n] == if n in ns then 1 else 0
  {
    if ns != [] {
      var k := |ns| - 1;
      assert ns == ns[..k] + [ns[k]];
      OnceEach(ns[..k], n);
      assert ns[k] !in ns[..k];
    }
  }

  /** The needles of one value, listed longest first. */
  lemma BuiltFrom(v: Bytes, forms: seq<Bytes>)
    requires |v| >= MASK_MIN && DistinctForms(forms) && forall f :: f in Forms(v) <==> f in forms
    ensures NeedlesOf(map[KEY := v], AllOf(forms))
  {
    var values, ns := map[KEY := v], AllOf(forms);
    forall n ensures multiset(ns)[n] == if Wanted(values, n) then 1 else 0 {
      OnceEach(ns, n);
      IsOneOf(forms, n);
    }
  }

  /** The values whose masking is looked at: all their forms hold one letter that no placeholder has. */
  lemma PlainWith(forms: seq<Bytes>, b: byte)
    requires forall f | f in forms :: b in f
    requires b !in Inner(KEY)
    ensures PlainKeys(AllOf(forms))
  {
    var ns := AllOf(forms);
    forall n, m | n in ns && m in ns ensures !Occurs(Inner(n.key), m.bytes) && BracketFree(n.key) {
      IsOneOf(forms, n);
      IsOneOf(forms, m);
      ByteOccurs(Inner(KEY), m.bytes, b);
    }
  }

  ghost function Gab2Needles(): seq<Needle> {
    AllOf(GAB2_FORMS)
  }

  lemma Gab2Distinct()
    ensures DistinctForms(GAB2_FORMS) && forall f | f in GAB2_FORMS :: SMALL_G in f
  {
    assert GAB2_FORMS[0][6] != GAB2_FORMS[1][6];
    forall f | f in GAB2_FORMS ensures SMALL_G in f {
      assert f == GAB2 || f[5] == SMALL_G;
      assert GAB2[0] == SMALL_G;
    }
  }

  lemma Gab2Built()
    ensures NeedlesOf(map[KEY := GAB2], Gab2Needles()) && PlainKeys(Gab2Needles())
    ensures NonEmpty(Gab2Needles()) && NoBrackets(Gab2Needles()) && LongestFirst(Gab2Needles())
  {
    Gab2Forms();
    Gab2Distinct();
    BuiltFrom(GAB2, GAB2_FORMS);
    PlainWith(GAB2_FORMS, SMALL_G);
    NeedlesAreUsable(map[KEY := GAB2], Gab2Needles());
  }

  /** One of gab2's needles that begins inside another: only the value itself, at the end of the bare
      unpadded form. */
  lemma Gab2Overlap(a: Bytes, n: Bytes, j: nat, w: Bytes)
    requires a in GAB2_FORMS && n in GAB2_FORMS && 0 < j < |a| && a[j..] + w < n
    ensures a == GAB2_RAW && n == GAB2 && j == 5 && |w| <= 2 && w == GAB2[1..1 + |w|]
  {
    FirstBytes(a, n, j, w);
  }

  lemma FirstBytes(a: Bytes, n: Bytes, j: nat, w: Bytes)
    requires j < |a| && a[j..] + w < n
    ensures a[j] == n[0] && (j + 1 < |a| ==> a[j + 1] == n[1])
    ensures j + 1 == |a| ==> w == n[1..1 + |w|]
  {
    var m := a[j..] + w;
    assert m == n[..|m|];
    assert m[0] == a[j] && (j + 1 < |a| ==> m[1] == a[j + 1]);
    if j + 1 == |a| { assert w == m[1..]; }
  }

  const CAUGHT: Bytes := GAB2_RAW + [SMALL_A]

  lemma Gab2Starts(f: Bytes)
    requires f in GAB2_FORMS
    ensures f == GAB2 || (6 <= |f| && f[..6] == GAB2_RAW && (|f| > 6 ==> f[6] != 97))
  {}

  lemma CaughtOnlyAtStart(n: Bytes, p: nat)
    requires n in GAB2_FORMS && OccursAt(CAUGHT, n, p)
    ensures p == 0
  {
    Gab2Starts(n);
    assert CAUGHT[p..p + |n|][0] == CAUGHT[p];
    assert n == GAB2 || n[..6][0] == n[0];
  }

  /** The bare form followed by the value's second letter is the only text in which gab2's needles are
      cut, and nothing else begins inside it. */
  lemma Gab2GrowsAlone()
    ensures GrowsAlone(Gab2Needles())
  {
    var ns := Gab2Needles();
    forall a, j: nat, w: Bytes | Splits(ns, a, j, w) && JustStopped(ns, a, w) ensures OnlyAtStart(ns, a.bytes + w) {
      var n :| n in ns && a.bytes[j..] + w < n.bytes;
      var e :| e in ns && a.bytes + w[..|w| - 1] < e.bytes;
      IsOneOf(GAB2_FORMS, a);
      IsOneOf(GAB2_FORMS, n);
      IsOneOf(GAB2_FORMS, e);
      Gab2Overlap(a.bytes, n.bytes, j, w);
      Gab2Stops(e.bytes, w);
      forall m, p: nat | m in ns && OccursAt(CAUGHT, m.bytes, p) ensures p == 0 {
        IsOneOf(GAB2_FORMS, m);
        CaughtOnlyAtStart(m.bytes, p);
      }
    }
  }

  lemma SameBytes(s: Bytes, t: Bytes)
    requires s <= t
    ensures forall i | 0 <= i < |s| :: s[i] == t[i]
  {}

  /** No form goes on from the bare one with the value's second letter. */
  lemma Gab2Stops(e: Bytes, w: Bytes)
    requires e in GAB2_FORMS && 0 < |w| <= 2 && w == GAB2[1..1 + |w|]
    ensures |w| == 1 ==> GAB2_RAW + w == CAUGHT
    ensures |w| == 2 ==> !(GAB2_RAW + w[..|w| - 1] < e)
  {
    Gab2Starts(e);
    assert w[0] == SMALL_A;
    assert |w| == 2 ==> w[..1] == [SMALL_A] && (GAB2_RAW + [SMALL_A])[6] == SMALL_A;
  }

  lemma Gab2Splits()
    ensures Splits(Gab2Needles(), Needle(GAB2_RAW, KEY), 5, [97])
    ensures !NeverSplits(Gab2Needles())
  {
    var ns, a := Gab2Needles(), Needle(GAB2_RAW, KEY);
    IsOneOf(GAB2_FORMS, a);
    IsOneOf(GAB2_FORMS, Needle(GAB2, KEY));
    assert GAB2_RAW[5..] + [97] == [103, 97] < GAB2;
    forall n | n in ns ensures !(CAUGHT < n.bytes) {
      IsOneOf(GAB2_FORMS, n);
      Gab2Starts(n.bytes);
      assert |n.bytes| > 7 ==> n.bytes[..7][6] == n.bytes[6] && CAUGHT[6] == 97;
    }
  }

  /** A redactor of the value gab2 does not stream exactly, */
  lemma Gab2NotExact()
    ensures NeedlesOf(map[KEY := GAB2], Gab2Needles()) && NonEmpty(Gab2Needles()) && !StreamsExactly(Gab2Needles())
  {
    Gab2Built();
    Gab2GrowsAlone();
    Gab2Splits();
    StreamsExactlyIffNeverSplits(Gab2Needles());
  }

  lemma CaughtAlone()
    ensures OnlyAtStart(Gab2Needles(), CAUGHT)
  {
    forall m, p: nat | m in Gab2Needles() && OccursAt(CAUGHT, m.bytes, p) ensures p == 0 {
      IsOneOf(GAB2_FORMS, m);
      CaughtOnlyAtStart(m.bytes, p);
    }
  }

  /** The hold cuts it inside the bare form. */
  lemma Gab2Cut() returns (x: Bytes, y: Bytes)
    ensures x == Release(Gab2Needles(), CAUGHT) && y == Keep(Gab2Needles(), CAUGHT)
    ensures 0 < |x| <= 5 && x == CAUGHT[..|x|] && y == CAUGHT[|x|..]
  {
    var ns := Gab2Needles();
    Gab2Splits();
    HoldCuts(ns, Needle(GAB2_RAW, KEY), 5, [SMALL_A]);
    x, y := Release(ns, CAUGHT), Keep(ns, CAUGHT);
  }

  lemma Gab2FormsAreLong(x: Bytes, m: Needle)
    requires m in Gab2Needles() && |x| <= 5 && x == CAUGHT[..|x|]
    ensures !(m.bytes <= x)
  {
    IsOneOf(GAB2_FORMS, m);
    Gab2Starts(m.bytes);
    assert GAB2[0] != CAUGHT[0];
    if m.bytes <= x { SameBytes(m.bytes, x); }
  }

  /** and this shows it: its bare base64 form, written with an "a" behind it, comes out unmasked, */
  lemma Gab2Witness()
    ensures NonEmpty(Gab2Needles()) && Stream(Gab2Needles(), [], [CAUGHT]) == CAUGHT
  {
    var ns := Gab2Needles();
    Gab2Built();
    CaughtAlone();
    var x, y := Gab2Cut();
    OneWrite(ns, CAUGHT);
    NothingBehind(ns, CAUGHT, |x|);
    NothingToRedact(ns, y);
    PartOnlyAtStart(ns, CAUGHT, |x|);
    forall m | m in ns ensures !Occurs(x, m.bytes) {
      Gab2FormsAreLong(x, m);
      OccursAsStart(ns, x, m);
    }
    NothingToRedact(ns, x);
  }

  /** while one redaction masks it. */
  lemma Gab2Masked()
    ensures NonEmpty(Gab2Needles()) && Redact(Gab2Needles(), CAUGHT) == Placeholder(KEY) + [SMALL_A]
  {
    var ns := Gab2Needles();
    Gab2Built();
    CaughtAlone();
    IsOneOf(GAB2_FORMS, Needle(GAB2_RAW, KEY));
    assert GAB2_RAW <= CAUGHT;
    var n := StartReplaced(ns, CAUGHT);
    IsOneOf(GAB2_FORMS, n);
    StartOfCaught(n.bytes);
  }

  lemma StartOfCaught(n: Bytes)
    requires n in GAB2_FORMS && n <= CAUGHT && |GAB2_RAW| <= |n|
    ensures n == GAB2_RAW
  {
    Gab2Starts(n);
    SameBytes(n, CAUGHT);
    assert |n| == 6 ==> n[..6] == n;
  }

  // ---- "abcd": YWJjZA==, YWJjZAo=, YWJjZAo, YWJjZA ----

  const CAPITAL_Y: byte := 89
  const ABCD: Bytes := [97, 98, 99, 100]
  const ABCD_RAW: Bytes := [89, 87, 74, 106, 90, 65]
  const ABCD_FORMS: seq<Bytes> :=
    [ABCD_RAW + [61, 61], ABCD_RAW + [111, 61], ABCD_RAW + [111], ABCD_RAW, ABCD]

  lemma AbcdGroups(url: bool)
    ensures Group(url, [97, 98, 99]) == [89, 87, 74, 106]
    ensures Group(url, [100]) == [90, 65] && Group(url, [100, NEWLINE]) == [90, 65, 111]
  {}

  lemma AbcdBase64(url: bool, pad: bool)
    ensures Base64(url, pad, ABCD) == ABCD_RAW + (if pad then [61, 61] else [])
    ensures Base64(url, pad, ABCD + [NEWLINE]) == ABCD_RAW + [111] + (if pad then [61] else [])
  {
    AbcdGroups(url);
    assert ABCD[..3] == [97, 98, 99];
    FourBytes(url, pad, ABCD, [89, 87, 74, 106], [90, 65], [90, 65, 111]);
  }

  lemma AbcdForms()
    ensures forall f :: f in Forms(ABCD) <==> f in ABCD_FORMS
  {
    var b, r, bn, rn := ABCD_FORMS[0], ABCD_FORMS[3], ABCD_FORMS[1], ABCD_FORMS[2];
    Escaped(ABCD);
    forall url: bool, pad: bool {
      AbcdBase64(url, pad);
    }
    assert r + [] == r && rn + [] == rn && r + [111] + [61] == bn;
    FiveForms(ABCD, b, r, bn, rn);
    SameFive(ABCD, b, r, bn, rn);
  }

  /** No form of abcd has one of their first letters further on. */
  lemma AbcdLetters(f: Bytes, j: nat)
    requires f in ABCD_FORMS && j < |f|
    ensures if j == 0 then f[j] == CAPITAL_Y || f[j] == SMALL_A else f[j] != CAPITAL_Y && f[j] != SMALL_A
  {}

  lemma AbcdOverlapFree()
    ensures OverlapFree(AllOf(ABCD_FORMS))
  {
    var ns := AllOf(ABCD_FORMS);
    forall a, j: nat, n | a in ns && n in ns && 0 < j < |a.bytes| ensures !(a.bytes[j..] < n.bytes) {
      IsOneOf(ABCD_FORMS, a);
      IsOneOf(ABCD_FORMS, n);
      AbcdLetters(a.bytes, j);
      AbcdLetters(n.bytes, 0);
      assert a.bytes[j..][0] == a.bytes[j];
    }
  }

  lemma AbcdBuilt()
    ensures NeedlesOf(map[KEY := ABCD], AllOf(ABCD_FORMS))
    ensures NonEmpty(AllOf(ABCD_FORMS)) && NoBrackets(AllOf(ABCD_FORMS))
  {
    AbcdForms();
    assert ABCD_FORMS[0][6] != ABCD_FORMS[1][6];
    BuiltFrom(ABCD, ABCD_FORMS);
    NeedlesAreUsable(map[KEY := ABCD], AllOf(ABCD_FORMS));
  }

  /** A redactor of the value abcd does stream exactly, although its needles start one another. */
  lemma AbcdStreamsExactly()
    ensures NeedlesOf(map[KEY := ABCD], AllOf(ABCD_FORMS)) && NonEmpty(AllOf(ABCD_FORMS))
    ensures StreamsExactly(AllOf(ABCD_FORMS)) && !PrefixFree(AllOf(ABCD_FORMS))
  {
    AbcdBuilt();
    AbcdOverlapFree();
    OverlapFreeStreamsExactly(AllOf(ABCD_FORMS));
    IsOneOf(ABCD_FORMS, Needle(ABCD_RAW, KEY));
    assert ABCD_RAW < ABCD_FORMS[2];
    IsOneOf(ABCD_FORMS, Needle(ABCD_FORMS[2], KEY));
  }
}
