/** What a redactor built from values does to any spelling of one. */
module MaskedSpellings {
  import opened ByteStrings
  import opened Redaction
  import opened RedactionBounds
  import opened RedactedForms
  import opened DecodedForms
  import opened KvRedactor
  import opened MaskedValues

  /** Any spelling of a value, standing alone, is replaced by one placeholder, that of a key whose value it
      spells. */
  lemma SpellingMasked(values: map<Bytes, Bytes>, ns: seq<Needle>, k: Bytes, t: Bytes) returns (key: Bytes)
    requires NeedlesOf(values, ns) && forall k | k in values && |values[k]| >= MASK_MIN :: BracketFree(values[k])
    requires PlainKeys(ns) && Spelled(values, Needle(t, k))
    ensures NonEmpty(ns) && Spelled(values, Needle(t, key)) && Redact(ns, t) == Placeholder(key)
  {
    NeedlesAreUsable(values, ns);
    NeedlesSpell(values, ns);
    assert Needle(t, k) in multiset(ns);
    key := NeedleReplacedWhole(ns, Needle(t, k));
    assert Needle(t, key) in multiset(ns);
  }

  // ---- "p@ss", as a query spells it ----

  function Ascii(s: string): (b: Bytes)
    requires forall c | c in s :: c as int < 128
    ensures |b| == |s| && forall i | 0 <= i < |b| :: b[i] as int == s[i] as int
  {
    seq(|s|, i requires 0 <= i < |s| => (assert s[i] in s; s[i] as int as byte))
  }

  const PASSWORD: Bytes := Ascii("password")
  const P_AT_SS: Bytes := Ascii("p@ss")
  const P_40_SS: Bytes := Ascii("p%40ss")

  lemma PercentSpells()
    ensures Spells(P_40_SS, P_AT_SS)
  {
    var t := P_40_SS;
    assert t == [112, 37, 52, 48, 115, 115] && P_AT_SS == [112, 64, 115, 115];
    EscapeIff(t, P_AT_SS);
    EscapedAt();
  }

  lemma EscapedAt()
    ensures QueryEscape([112, 64, 115, 115]) == [112, 37, 52, 48, 115, 115]
  {
    Escaped([115, 115]);
    assert [112, 64, 115, 115][1..] == [64, 115, 115] && [64, 115, 115][1..] == [115, 115];
    assert QueryEscape([64, 115, 115]) == [37, 52, 48] + [115, 115];
    assert QueryEscape([112, 64, 115, 115]) == [112] + QueryEscape([64, 115, 115]);
  }

  lemma NeedleIsForm(k: Bytes, v: Bytes, ns: seq<Needle>, n: Needle)
    requires NeedlesOf(map[k := v], ns) && n in ns
    ensures n.key == k && n.bytes in Forms(v)
  {
    assert n in multiset(ns) && Wanted(map[k := v], n);
  }

  /** None of its needles is in the placeholder: each has a byte that is not. */
  lemma NotInPlaceholder(t: Bytes)
    requires t in Forms(P_AT_SS)
    ensures !Occurs(Inner(PASSWORD), t) && BracketFree(PASSWORD)
  {
    var x := OddByte(t);
    OddBytes();
    ByteOccurs(Inner(PASSWORD), t, x);
  }

  lemma OddBytes()
    ensures 64 !in Inner(PASSWORD) && 37 !in Inner(PASSWORD) && 99 !in Inner(PASSWORD) && BracketFree(PASSWORD)
  {}

  lemma AtKeysPlain(ns: seq<Needle>)
    requires NeedlesOf(map[PASSWORD := P_AT_SS], ns)
    ensures PlainKeys(ns)
  {
    forall a, b | a in ns && b in ns ensures !Occurs(Inner(a.key), b.bytes) && BracketFree(a.key) {
      NeedleIsForm(PASSWORD, P_AT_SS, ns, a);
      NeedleIsForm(PASSWORD, P_AT_SS, ns, b);
      NotInPlaceholder(b.bytes);
    }
  }

  lemma PlaceholderText()
    ensures Placeholder(PASSWORD) == Ascii("[REDACTED:password]")
  {}

  lemma OddByte(t: Bytes) returns (x: byte)
    requires t in Forms(P_AT_SS)
    ensures x in t && x in {64, 37, 99}
  {
    assert P_AT_SS == [112, 64, 115, 115];
    EscapedAt();
    if t == P_AT_SS {
      x := 64;
    } else if t == QueryEscape(P_AT_SS) {
      x := 37;
    } else {
      x := 99;
      StartsWithC(P_AT_SS, t);
      StartsWithC(P_AT_SS + [NEWLINE], t);
      var four, more := FourForms(P_AT_SS), FourForms(P_AT_SS + [NEWLINE]);
      assert t in four || t in more;
    }
  }

  lemma StartsWithC(s: Bytes, t: Bytes)
    requires |s| >= 4 && s[0] == 112 && s[1] == 64
    ensures t in FourForms(s) ==> t != [] && t[0] == 99
  {
    assert s[..3][0] == s[0] && s[..3][1] == s[1];
    forall url: bool ensures Group(url, s[..3])[0] == 99 {
      GroupIs(url, s[..3], 0);
    }
  }

  /** A child that prints the password p@ss as a query spells it prints the placeholder. */
  lemma PercentWitness(ns: seq<Needle>)
    requires NeedlesOf(map[PASSWORD := P_AT_SS], ns)
    ensures NonEmpty(ns) && Redact(ns, P_40_SS) == Ascii("[REDACTED:password]")
  {
    PercentSpells();
    AtKeysPlain(ns);
    OnlySpelling(PASSWORD, P_AT_SS, ns, P_40_SS);
    PlaceholderText();
  }

  lemma OnlySpelling(k: Bytes, v: Bytes, ns: seq<Needle>, t: Bytes)
    requires NeedlesOf(map[k := v], ns) && PlainKeys(ns) && |v| >= 4 && BracketFree(v) && Spells(t, v)
    ensures NonEmpty(ns) && Redact(ns, t) == Placeholder(k)
  {
    var key := SpellingMasked(map[k := v], ns, k, t);
  }
}
