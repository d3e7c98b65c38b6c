/** The spellings of a value that the redactor looks for. */
module RedactedForms {
  import opened ByteStrings

  const NEWLINE: byte := 10

  /** Tables 1 and 2 of RFC 4648. */
  function Sextet(url: bool, v: int): (c: byte)
    requires 0 <= v < 64
    ensures c != OPEN && c != CLOSE
  {
    if v < 26 then (65 + v) as byte
    else if v < 52 then (97 + v - 26) as byte
    else if v < 62 then (48 + v - 52) as byte
    else if v == 62 then (if url then 45 else 43)
    else if url then 95 else 47
  }

  /** The characters of one group: 8-bit bytes regrouped by six bits, missing bits being zero. */
  function Group(url: bool, s: Bytes): Bytes
    requires 0 < |s| <= 3
  {
    var b0 := s[0] as int;
    var b1 := if |s| > 1 then s[1] as int else 0;
    var b2 := if |s| > 2 then s[2] as int else 0;
    var four := [Sextet(url, b0 / 4), Sextet(url, b0 % 4 * 16 + b1 / 16),
                 Sextet(url, b1 % 16 * 4 + b2 / 64), Sextet(url, b2 % 64)];
    four[..|s| + 1]
  }

  function Base64(url: bool, pad: bool, s: Bytes): Bytes {
    if s == [] then []
    else if |s| < 3 then
      Group(url, s) + (if !pad then [] else if |s| == 1 then [61, 61] else [61])
    else Group(url, s[..3]) + Base64(url, pad, s[3..])
  }

  function Hex(v: int): (c: byte)
    requires 0 <= v < 16
    ensures c != OPEN && c != CLOSE
  {
    if v < 10 then (48 + v) as byte else (65 + v - 10) as byte
  }

  predicate Unreserved(b: byte) {
    || 65 <= b <= 90 || 97 <= b <= 122 || 48 <= b <= 57
    || b in [45, 95, 46, 126]
  }

  function QueryEscape(s: Bytes): Bytes {
    if s == [] then []
    else
      var first := if Unreserved(s[0]) then [s[0]]
                   else if s[0] == 32 then [43]
                   else [37, Hex(s[0] as int / 16), Hex(s[0] as int % 16)];
      first + QueryEscape(s[1..])
  }

  function FourForms(raw: Bytes): seq<Bytes> {
    [Base64(false, true, raw), Base64(false, false, raw),
     Base64(true, true, raw), Base64(true, false, raw)]
  }

  function Forms(v: Bytes): seq<Bytes> {
    [v, QueryEscape(v)] + FourForms(v) + FourForms(v + [NEWLINE])
  }

  lemma NewlineStep(url: bool, pad: bool, v: Bytes)
    requires |v| >= 3
    ensures Base64(url, pad, v + [NEWLINE]) == Group(url, v[..3]) + Base64(url, pad, v[3..] + [NEWLINE])
  {
    var nl := v + [NEWLINE];
    assert nl[..3] == v[..3] && nl[3..] == v[3..] + [NEWLINE];
  }

  /** A newline's leading bits are the zeros that an unfinished group is filled up with. */
  lemma NewlineFillsGroup(url: bool, pad: bool, v: Bytes)
    requires 0 < |v| < 3
    ensures Group(url, v) <= Base64(url, pad, v + [NEWLINE])
    ensures var i := |v| + 1; var a, b := Base64(url, true, v), Base64(url, pad, v + [NEWLINE]);
      i < |a| && i < |b| && a[i] == 61 != b[i]
  {
    var nl := v + [NEWLINE];
    if |v| == 2 {
      assert nl[..3] == nl && nl[3..] == [];
      assert Base64(url, pad, nl) == Group(url, nl);
    }
  }

  /** Unpadded base64 of v is how every other base64 form of v begins, with or without the
      newline that echo appends. */
  lemma {:induction false} RawStartsEveryForm(url: bool, pad: bool, v: Bytes)
    ensures Base64(url, false, v) <= Base64(url, pad, v)
    ensures Base64(url, false, v) <= Base64(url, pad, v + [NEWLINE])
  {
    if |v| >= 3 {
      RawStartsEveryForm(url, pad, v[3..]);
      NewlineStep(url, pad, v);
      CommonPrefix(Group(url, v[..3]), Base64(url, false, v[3..]), Base64(url, pad, v[3..]));
      CommonPrefix(Group(url, v[..3]), Base64(url, false, v[3..]), Base64(url, pad, v[3..] + [NEWLINE]));
    } else if v != [] {
      NewlineFillsGroup(url, pad, v);
    }
  }

  /** The newline takes at least one character more. */
  lemma {:induction false} NewlineFormLonger(url: bool, v: Bytes)
    ensures |Base64(url, false, v)| < |Base64(url, false, v + [NEWLINE])|
  {
    if |v| >= 3 {
      NewlineFormLonger(url, v[3..]);
      NewlineStep(url, false, v);
    } else if |v| == 2 {
      var nl := v + [NEWLINE];
      assert nl[..3] == nl && nl[3..] == [];
    }
  }

  lemma {:induction false} NoPaddingNeeded(url: bool, v: Bytes)
    requires |v| % 3 == 0
    ensures Base64(url, true, v) == Base64(url, false, v)
  {
    if v != [] { NoPaddingNeeded(url, v[3..]); }
  }

  /** Where the padding of v stands, the form with the newline has a character of the alphabet. */
  lemma {:induction false} PaddingPosition(url: bool, v: Bytes) returns (i: nat)
    requires |v| % 3 != 0
    ensures i < |Base64(url, true, v)| && i < |Base64(url, true, v + [NEWLINE])|
    ensures Base64(url, true, v)[i] == 61 != Base64(url, true, v + [NEWLINE])[i]
  {
    if |v| < 3 {
      NewlineFillsGroup(url, true, v);
      i := |v| + 1;
    } else {
      i := PaddingPosition(url, v[3..]);
      NewlineStep(url, true, v);
      i := i + 4;
    }
  }

  /** A needle made of the bare value's padded form finds the form echoed with a newline only when
      the value fills its last group: that is why the newline forms are needles too. */
  lemma PaddedFormSurvivesNewlineIff(url: bool, v: Bytes)
    ensures Base64(url, true, v) <= Base64(url, true, v + [NEWLINE]) <==> |v| % 3 == 0
  {
    if |v| % 3 == 0 {
      NoPaddingNeeded(url, v);
      RawStartsEveryForm(url, true, v);
    } else {
      var i := PaddingPosition(url, v);
    }
  }

  lemma CommonPrefix(g: Bytes, a: Bytes, b: Bytes)
    ensures g + a <= g + b <==> a <= b
  {
    if g + a <= g + b {
      assert a == (g + a)[|g|..] == (g + b)[|g|..|g| + |a|] == b[..|a|];
    }
  }

  lemma {:induction false} Base64HasNoBrackets(url: bool, pad: bool, s: Bytes)
    ensures BracketFree(Base64(url, pad, s))
    ensures |Base64(url, pad, s)| >= |s|
  {
    if |s| >= 3 { Base64HasNoBrackets(url, pad, s[3..]); }
  }

  lemma {:induction false} EscapeHasNoBrackets(s: Bytes)
    ensures BracketFree(QueryEscape(s))
    ensures |QueryEscape(s)| >= |s|
  {
    if s != [] { EscapeHasNoBrackets(s[1..]); }
  }

  lemma FourFormsHaveNoBrackets(raw: Bytes)
    ensures forall f | f in FourForms(raw) :: BracketFree(f) && |f| >= |raw|
  {
    forall url, pad { Base64HasNoBrackets(url, pad, raw); }
  }

  /** Whether any form holds a bracket is whether the value itself does, and no form is shorter
      than the value. */
  lemma FormsHaveNoBrackets(v: Bytes)
    ensures BracketFree(v) <==> forall f | f in Forms(v) :: BracketFree(f)
    ensures forall f | f in Forms(v) :: |f| >= |v|
  {
    EscapeHasNoBrackets(v);
    FourFormsHaveNoBrackets(v);
    FourFormsHaveNoBrackets(v + [NEWLINE]);
    assert Forms(v)[0] == v;
    forall f | f in Forms(v)
      ensures f == v || f == QueryEscape(v) || f in FourForms(v) || f in FourForms(v + [NEWLINE])
    {}
  }
}
