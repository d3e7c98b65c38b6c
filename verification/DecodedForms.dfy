/** The spellings of a value read back: what makes a needle a spelling of its value, said without the encoders. */
module DecodedForms {
  import opened Basics
  import opened ByteStrings
  import opened RedactedForms

  const UPPER := "ABCDEFGHIJKLMNOPQRSTUVWXYZ"
  const LOWER := "abcdefghijklmnopqrstuvwxyz"
  const DIGITS := "0123456789"

  /** Tables 1 and 2 of RFC 4648, and what a query leaves as it is. */
  const STANDARD: string := UPPER + LOWER + DIGITS + "+/"
  const URL_SAFE: string := UPPER + LOWER + DIGITS + "-_"
  const PLAIN: string := UPPER + LOWER + DIGITS + "-_.~"

  const HEX_DIGITS := "0123456789ABCDEF"

  /** Where a character stands in an alphabet; its length when it does not. */
  function Place(alphabet: string, c: byte): (i: nat)
    ensures i <= |alphabet|
    ensures i < |alphabet| ==> alphabet[i] as int == c as int
    ensures i == |alphabet| ==> forall j | 0 <= j < |alphabet| :: alphabet[j] as int != c as int
  {
    if alphabet == [] || alphabet[0] as int == c as int then 0 else Place(alphabet[1..], c) + 1
  }

  predicate Known(alphabet: string, c: byte) {
    Place(alphabet, c) < |alphabet|
  }

  // ---- Base64 ----

  /** The place of a group's i-th character; that of a zero when it has fewer. */
  function PlaceAt(alphabet: string, g: Bytes, i: nat): nat {
    if i < |g| then Place(alphabet, g[i]) else 0
  }

  /** The bytes of two to four characters: six bits each, those left over being zero. */
  function FromGroup(alphabet: string, g: Bytes): Option<Bytes>
    requires 2 <= |g| <= 4 && |alphabet| == 64
  {
    FromPlaces(PlaceAt(alphabet, g, 0), PlaceAt(alphabet, g, 1), PlaceAt(alphabet, g, 2), PlaceAt(alphabet, g, 3), |g| - 1)
  }

  function FromPlaces(a: nat, b: nat, c: nat, d: nat, n: nat): Option<Bytes>
    requires n <= 3
  {
    if a >= 64 || b >= 64 || c >= 64 || d >= 64 then None
    else
      var bytes := ThreeBytes(a, b, c, d);
      if forall i | n <= i < 3 :: bytes[i] == 0 then Some(bytes[..n]) else None
  }

  function ThreeBytes(a: nat, b: nat, c: nat, d: nat): (r: Bytes)
    requires a < 64 && b < 64 && c < 64 && d < 64
    ensures |r| == 3
  {
    [(a * 4 + b / 16) as byte, (b % 16 * 16 + c / 4) as byte, (c % 4 * 64 + d) as byte]
  }

  /** Text without padding, four characters at a time. */
  function FromRaw(alphabet: string, t: Bytes): Option<Bytes>
    requires |alphabet| == 64
  {
    if t == [] then Some([])
    else if |t| == 1 then None
    else if |t| < 4 then FromGroup(alphabet, t)
    else
      var first, rest := FromGroup(alphabet, t[..4]), FromRaw(alphabet, t[4..]);
      if first.Some? && rest.Some? then Some(first.value + rest.value) else None
  }

  function Unpadded(t: Bytes): Bytes {
    if t != [] && t[|t| - 1] == 61 then Unpadded(t[..|t| - 1]) else t
  }

  function FromBase64(alphabet: string, pad: bool, t: Bytes): Option<Bytes>
    requires |alphabet| == 64
  {
    FromRaw(alphabet, if pad then Stripped(t) else t)
  }

  /** Full groups without their padding; or text of one character, which is no base64, when the padding is wrong. */
  function Stripped(t: Bytes): Bytes {
    if |t| % 4 == 0 && |t| - |Unpadded(t)| <= 2 then Unpadded(t) else [61]
  }

  function Alphabet(url: bool): (a: string)
    ensures |a| == 64
  {
    if url then URL_SAFE else STANDARD
  }

  // ---- The encoders use those tables ----

  lemma UpperInOrder(i: nat)
    requires i < 26
    ensures UPPER[i] as int == 65 + i
  {}

  lemma LowerInOrder(i: nat)
    requires i < 26
    ensures LOWER[i] as int == 97 + i
  {}

  lemma DigitsInOrder(i: nat)
    requires i < 10
    ensures DIGITS[i] as int == 48 + i
  {}

  lemma SextetInTable(url: bool, v: nat)
    requires v < 64
    ensures Alphabet(url)[v] as int == Sextet(url, v) as int
  {
    if v < 26 {
      UpperInOrder(v);
    } else if v < 52 {
      LowerInOrder(v - 26);
    } else if v < 62 {
      DigitsInOrder(v - 52);
    }
  }

  lemma SextetFound(url: bool, v: nat)
    requires v < 64
    ensures Place(Alphabet(url), Sextet(url, v)) == v
  {
    var i := Place(Alphabet(url), Sextet(url, v));
    SextetInTable(url, v);
    if i < 64 { SextetInTable(url, i); }
  }

  lemma FoundSextet(url: bool, c: byte)
    ensures var i := Place(Alphabet(url), c); i < 64 ==> Sextet(url, i) == c
  {
    var i := Place(Alphabet(url), c);
    if i < 64 { SextetInTable(url, i); }
  }

  // ---- Base64 there and back ----

  function Sixes(b0: nat, b1: nat, b2: nat): (r: seq<nat>)
    requires b0 < 256 && b1 < 256 && b2 < 256
    ensures |r| == 4 && forall i | 0 <= i < 4 :: r[i] < 64
  {
    [b0 / 4, b0 % 4 * 16 + b1 / 16, b1 % 16 * 4 + b2 / 64, b2 % 64]
  }

  lemma Regrouped(b0: byte, b1: byte, b2: byte)
    ensures var r := Sixes(b0 as nat, b1 as nat, b2 as nat); ThreeBytes(r[0], r[1], r[2], r[3]) == [b0, b1, b2]
  {}

  lemma Ungrouped(a: nat, b: nat, c: nat, d: nat)
    requires a < 64 && b < 64 && c < 64 && d < 64
    ensures var r := ThreeBytes(a, b, c, d); Sixes(r[0] as nat, r[1] as nat, r[2] as nat) == [a, b, c, d]
  {
    UngroupedNumbers(a, b, c, d);
  }

  lemma UngroupedNumbers(a: nat, b: nat, c: nat, d: nat)
    requires b < 64 && c < 64 && d < 64
    ensures var x, y, z := a * 4 + b / 16, b % 16 * 16 + c / 4, c % 4 * 64 + d;
      x / 4 == a && x % 4 * 16 + y / 16 == b && y % 16 * 4 + z / 64 == c && z % 64 == d
  {
    ByFour(a, b / 16);
    BySixteen(b % 16, c / 4);
    BySixtyFour(c % 4, d);
  }

  lemma ByFour(high: nat, low: nat)
    requires low < 4
    ensures (high * 4 + low) / 4 == high && (high * 4 + low) % 4 == low
  {}

  lemma BySixteen(high: nat, low: nat)
    requires low < 16
    ensures (high * 16 + low) / 16 == high && (high * 16 + low) % 16 == low
  {}

  lemma BySixtyFour(high: nat, low: nat)
    requires low < 64
    ensures (high * 64 + low) / 64 == high && (high * 64 + low) % 64 == low
  {}

  function Third(s: Bytes, i: nat): byte {
    if i < |s| then s[i] else 0
  }

  /** The four six-bit numbers of up to three bytes. */
  function SixesOf(s: Bytes): (r: seq<nat>)
    requires 0 < |s| <= 3
    ensures |r| == 4 && forall i | 0 <= i < 4 :: r[i] < 64
  {
    Sixes(s[0] as nat, Third(s, 1) as nat, Third(s, 2) as nat)
  }

  lemma GroupIs(url: bool, s: Bytes, i: nat)
    requires 0 < |s| <= 3 && i <= |s|
    ensures |Group(url, s)| == |s| + 1 && Group(url, s)[i] == Sextet(url, SixesOf(s)[i])
  {}

  lemma ZeroSextet(s: Bytes, i: nat)
    requires 0 < |s| <= 3 && |s| < i <= 3
    ensures SixesOf(s)[i] == 0
  {}

  lemma PlaceInGroup(url: bool, s: Bytes, i: nat)
    requires 0 < |s| <= 3 && i <= 3
    ensures |Group(url, s)| == |s| + 1 && PlaceAt(Alphabet(url), Group(url, s), i) == SixesOf(s)[i]
  {
    GroupIs(url, s, 0);
    if i <= |s| {
      GroupIs(url, s, i);
      SextetFound(url, SixesOf(s)[i]);
    } else {
      ZeroSextet(s, i);
    }
  }

  lemma SixesRead(s: Bytes)
    requires 0 < |s| <= 3
    ensures var r := SixesOf(s); FromPlaces(r[0], r[1], r[2], r[3], |s|) == Some(s)
  {
    Regrouped(s[0], Third(s, 1), Third(s, 2));
    assert [s[0], Third(s, 1), Third(s, 2)][..|s|] == s;
  }

  lemma GroupDecodes(url: bool, s: Bytes)
    requires 0 < |s| <= 3
    ensures |Group(url, s)| == |s| + 1 && FromGroup(Alphabet(url), Group(url, s)) == Some(s)
  {
    PlaceInGroup(url, s, 0);
    PlaceInGroup(url, s, 1);
    PlaceInGroup(url, s, 2);
    PlaceInGroup(url, s, 3);
    SixesRead(s);
  }

  lemma PlacesRead(a: nat, b: nat, c: nat, d: nat, n: nat)
    requires 1 <= n <= 3
    ensures var s := FromPlaces(a, b, c, d, n); s.Some? ==> |s.value| == n && SixesOf(s.value) == [a, b, c, d]
  {
    if FromPlaces(a, b, c, d, n).Some? {
      var bytes, s := ThreeBytes(a, b, c, d), FromPlaces(a, b, c, d, n).value;
      Ungrouped(a, b, c, d);
      assert s[0] == bytes[0] && Third(s, 1) == bytes[1] && Third(s, 2) == bytes[2];
    }
  }

  lemma SamePlaces(url: bool, g: Bytes, s: Bytes)
    requires 2 <= |g| <= 4 && |s| == |g| - 1
    requires forall i | 0 <= i < |g| :: SixesOf(s)[i] == PlaceAt(Alphabet(url), g, i)
    ensures Group(url, s) == g
  {
    forall i | 0 <= i < |g| ensures |Group(url, s)| == |g| && Group(url, s)[i] == g[i] {
      GroupIs(url, s, i);
      FoundSextet(url, g[i]);
    }
  }

  lemma PlacesBack(url: bool, g: Bytes, s: Bytes, a: nat, b: nat, c: nat, d: nat)
    requires 2 <= |g| <= 4 && |s| == |g| - 1 && SixesOf(s) == [a, b, c, d]
    requires a == PlaceAt(Alphabet(url), g, 0) && b == PlaceAt(Alphabet(url), g, 1)
    requires c == PlaceAt(Alphabet(url), g, 2) && d == PlaceAt(Alphabet(url), g, 3)
    ensures forall i | 0 <= i < |g| :: SixesOf(s)[i] == PlaceAt(Alphabet(url), g, i)
  {}

  /** Only what the encoder writes for these bytes is read as them. */
  lemma GroupEncodes(url: bool, g: Bytes, s: Bytes)
    requires 2 <= |g| <= 4 && FromGroup(Alphabet(url), g) == Some(s)
    ensures |s| == |g| - 1 && Group(url, s) == g
  {
    var alphabet := Alphabet(url);
    var a, b, c, d := PlaceAt(alphabet, g, 0), PlaceAt(alphabet, g, 1), PlaceAt(alphabet, g, 2), PlaceAt(alphabet, g, 3);
    PlacesRead(a, b, c, d, |g| - 1);
    PlacesBack(url, g, s, a, b, c, d);
    SamePlaces(url, g, s);
  }

  lemma {:induction false} RawDecodes(url: bool, s: Bytes)
    ensures FromRaw(Alphabet(url), Base64(url, false, s)) == Some(s)
  {
    if 0 < |s| < 3 {
      GroupDecodes(url, s);
      assert Base64(url, false, s) == Group(url, s);
    } else if |s| >= 3 {
      var g, rest := Group(url, s[..3]), Base64(url, false, s[3..]);
      GroupDecodes(url, s[..3]);
      RawDecodes(url, s[3..]);
      assert (g + rest)[..4] == g && (g + rest)[4..] == rest;
      assert s == s[..3] + s[3..];
    }
  }

  lemma {:induction false} RawEncodes(url: bool, t: Bytes)
    ensures var s := FromRaw(Alphabet(url), t); s.Some? ==> Base64(url, false, s.value) == t
  {
    if 2 <= |t| < 4 {
      var s := FromGroup(Alphabet(url), t);
      if s.Some? {
        GroupEncodes(url, t, s.value);
        assert Group(url, s.value) + [] == t;
      }
    } else if |t| >= 4 {
      RawEncodes(url, t[4..]);
      var first, rest := FromGroup(Alphabet(url), t[..4]), FromRaw(Alphabet(url), t[4..]);
      if first.Some? && rest.Some? {
        GroupEncodes(url, t[..4], first.value);
        var s := first.value + rest.value;
        assert s[..3] == first.value && s[3..] == rest.value;
        assert t == t[..4] + t[4..];
      }
    }
  }

  function Pads(n: nat): Bytes {
    if n % 3 == 1 then [61, 61] else if n % 3 == 2 then [61] else []
  }

  lemma PaddedGroup(url: bool, s: Bytes)
    requires 0 < |s| < 3
    ensures Base64(url, false, s) == Group(url, s) && |Group(url, s)| == |s| + 1
    ensures Base64(url, true, s) == Base64(url, false, s) + Pads(|s|)
  {
    GroupIs(url, s, 0);
    assert Group(url, s) + [] == Group(url, s);
  }

  lemma GroupEnds(url: bool, s: Bytes)
    requires 0 < |s| <= 3
    ensures |Group(url, s)| == |s| + 1 && Group(url, s)[|s|] != 61
  {
    GroupIs(url, s, |s|);
  }

  /** Padding is all that the padded form has more, */
  lemma {:induction false} PaddedIsRaw(url: bool, s: Bytes)
    ensures Base64(url, true, s) == Base64(url, false, s) + Pads(|s|)
  {
    if 0 < |s| < 3 {
      PaddedGroup(url, s);
    } else if |s| >= 3 {
      PaddedIsRaw(url, s[3..]);
      assert Pads(|s|) == Pads(|s[3..]|);
      Associative(Group(url, s[..3]), Base64(url, false, s[3..]), Pads(|s|));
    }
  }

  /** it fills the last group up to four characters, */
  lemma {:induction false} PaddedLength(url: bool, s: Bytes)
    ensures (|Base64(url, false, s)| + |Pads(|s|)|) % 4 == 0
  {
    if 0 < |s| < 3 {
      PaddedGroup(url, s);
    } else if |s| >= 3 {
      PaddedLength(url, s[3..]);
      GroupEnds(url, s[..3]);
      SamePadding(|s|);
      FourMore(|Base64(url, false, s[3..])| + |Pads(|s|)|);
      assert |Base64(url, false, s)| == 4 + |Base64(url, false, s[3..])|;
    }
  }

  lemma SamePadding(n: nat)
    requires n >= 3
    ensures Pads(n) == Pads(n - 3)
  {}

  lemma FourMore(n: nat)
    requires n % 4 == 0
    ensures (4 + n) % 4 == 0
  {}

  /** and it is told apart from the alphabet. */
  lemma {:induction false} RawEnds(url: bool, s: Bytes)
    ensures var raw := Base64(url, false, s); raw != [] ==> raw[|raw| - 1] != 61
  {
    if 0 < |s| < 3 {
      PaddedGroup(url, s);
      GroupEnds(url, s);
    } else if |s| >= 3 {
      RawEnds(url, s[3..]);
      GroupEnds(url, s[..3]);
      LastOf(Group(url, s[..3]), Base64(url, false, s[3..]));
    }
  }

  lemma LastOf(a: Bytes, b: Bytes)
    requires a != []
    ensures (a + b)[|a + b| - 1] == if b == [] then a[|a| - 1] else b[|b| - 1]
  {}

  lemma {:induction false} UnpaddedIs(raw: Bytes, pads: Bytes)
    requires (forall i | 0 <= i < |pads| :: pads[i] == 61) && (raw != [] ==> raw[|raw| - 1] != 61)
    ensures Unpadded(raw + pads) == raw
    decreases |pads|
  {
    if pads == [] {
      assert raw + pads == raw;
    } else {
      var less := pads[..|pads| - 1];
      assert (raw + pads)[..|raw + pads| - 1] == raw + less;
      UnpaddedIs(raw, less);
    }
  }

  lemma {:induction false} PaddingOff(t: Bytes)
    ensures |Unpadded(t)| <= |t| && Unpadded(t) <= t && forall i | |Unpadded(t)| <= i < |t| :: t[i] == 61
  {
    if t != [] && t[|t| - 1] == 61 { PaddingOff(t[..|t| - 1]); }
  }

  /** Text reads as these bytes if and only if it is what the encoder writes for them. */
  lemma Base64Iff(url: bool, pad: bool, t: Bytes, s: Bytes)
    ensures FromBase64(Alphabet(url), pad, t) == Some(s) <==> t == Base64(url, pad, s)
  {
    if t == Base64(url, pad, s) {
      if pad { PaddedDecodes(url, s); } else { RawDecodes(url, s); }
    }
    if FromBase64(Alphabet(url), pad, t) == Some(s) {
      if pad { PaddedEncodes(url, t, s); } else { RawEncodes(url, t); }
    }
  }

  /** What the encoder writes with padding: text that ends in no padding of its own, and the padding it needs. */
  ghost predicate IsPadded(t: Bytes, raw: Bytes, pads: Bytes) {
    && t == raw + pads && |pads| <= 2 && (forall i | 0 <= i < |pads| :: pads[i] == 61)
    && (raw != [] ==> raw[|raw| - 1] != 61) && (|raw| + |pads|) % 4 == 0
  }

  lemma EncodedIsPadded(url: bool, s: Bytes)
    ensures IsPadded(Base64(url, true, s), Base64(url, false, s), Pads(|s|))
  {
    PaddedIsRaw(url, s);
    PaddedLength(url, s);
    RawEnds(url, s);
  }

  lemma PaddedReads(alphabet: string, t: Bytes, raw: Bytes, pads: Bytes)
    requires |alphabet| == 64 && IsPadded(t, raw, pads)
    ensures FromBase64(alphabet, true, t) == FromRaw(alphabet, raw)
  {
    StrippedIs(raw, pads);
  }

  lemma PaddedDecodes(url: bool, s: Bytes)
    ensures FromBase64(Alphabet(url), true, Base64(url, true, s)) == Some(s)
  {
    EncodedIsPadded(url, s);
    PaddedReads(Alphabet(url), Base64(url, true, s), Base64(url, false, s), Pads(|s|));
    RawDecodes(url, s);
  }

  lemma StrippedIs(raw: Bytes, pads: Bytes)
    requires |pads| <= 2 && (forall i | 0 <= i < |pads| :: pads[i] == 61)
    requires (raw != [] ==> raw[|raw| - 1] != 61) && (|raw| + |pads|) % 4 == 0
    ensures Stripped(raw + pads) == raw
  {
    UnpaddedIs(raw, pads);
    assert |raw + pads| == |raw| + |pads|;
  }

  lemma PaddedEncodes(url: bool, t: Bytes, s: Bytes)
    requires FromBase64(Alphabet(url), true, t) == Some(s)
    ensures t == Base64(url, true, s)
  {
    RawEncodes(url, Stripped(t));
    EncodedIsPadded(url, s);
    OneIsNone(Alphabet(url), Stripped(t));
    SamePadded(t, Base64(url, true, s), Base64(url, false, s), Pads(|s|));
  }

  lemma SamePadded(t: Bytes, whole: Bytes, raw: Bytes, pads: Bytes)
    requires IsPadded(whole, raw, pads) && Stripped(t) == raw && |raw| != 1
    ensures t == whole
  {
    StrippedPads(t, pads);
  }

  lemma OneIsNone(alphabet: string, t: Bytes)
    requires |alphabet| == 64 && FromRaw(alphabet, t).Some?
    ensures |t| != 1
  {}

  lemma StrippedPads(t: Bytes, pads: Bytes)
    requires |Stripped(t)| != 1 && (|Stripped(t)| + |pads|) % 4 == 0
    requires |pads| <= 2 && forall i | 0 <= i < |pads| :: pads[i] == 61
    ensures t == Stripped(t) + pads
  {
    PaddingOff(t);
    SamePads(Unpadded(t), t, pads);
  }

  lemma SamePads(raw: Bytes, t: Bytes, pads: Bytes)
    requires raw <= t && |t| % 4 == 0 && |t| - |raw| <= 2 && forall i | |raw| <= i < |t| :: t[i] == 61
    requires |pads| <= 2 && |raw + pads| % 4 == 0 && forall i | 0 <= i < |pads| :: pads[i] == 61
    ensures t == raw + pads
  {
    SameLength(|t|, |raw|, |pads|);
  }

  lemma SameLength(t: nat, raw: nat, pads: nat)
    requires raw <= t <= raw + 2 && pads <= 2 && t % 4 == 0 && (raw + pads) % 4 == 0
    ensures t == raw + pads
  {}

  // ---- Query escapes ----

  /** What a query escape stands for: plain characters for themselves, a plus for a space, and two upper-case
      hexadecimal digits for each other byte. */
  function Unescaped(t: Bytes): Option<Bytes> {
    if t == [] then Some([])
    else
      var n := if t[0] == 37 then 3 else 1;
      if n > |t| then None
      else
        var first, rest := OneUnescaped(t[..n]), Unescaped(t[n..]);
        if first.Some? && rest.Some? then Some([first.value] + rest.value) else None
  }

  function OneUnescaped(t: Bytes): Option<byte>
    requires |t| == 1 || |t| == 3
  {
    if |t| == 1 then
      if Known(PLAIN, t[0]) then Some(t[0]) else if t[0] == 43 then Some(32) else None
    else
      var high, low := Place(HEX_DIGITS, t[1]), Place(HEX_DIGITS, t[2]);
      if high == 16 || low == 16 then None
      else
        var b := (16 * high + low) as byte;
        if Known(PLAIN, b) || b == 32 then None else Some(b)
  }

  lemma PlainIsUnreserved(b: byte)
    ensures Known(PLAIN, b) <==> Unreserved(b)
  {
    var i := Place(PLAIN, b);
    if i < |PLAIN| { PlainLetters(i); }
    if Unreserved(b) {
      var j := if 65 <= b <= 90 then b as int - 65 else if 97 <= b <= 122 then b as int - 71
        else if 48 <= b <= 57 then b as int + 4
        else if b == 45 then 62 else if b == 95 then 63 else if b == 46 then 64 else 65;
      PlainLetters(j);
    }
  }

  lemma PlainLetters(i: nat)
    requires i < 66
    ensures |PLAIN| == 66
    ensures PLAIN[i] as int == if i < 26 then 65 + i else if i < 52 then 71 + i else if i < 62 then i - 4
      else if i == 62 then 45 else if i == 63 then 95 else if i == 64 then 46 else 126
  {
    if i < 26 {
      UpperInOrder(i);
    } else if i < 52 {
      LowerInOrder(i - 26);
    } else if i < 62 {
      DigitsInOrder(i - 52);
    }
  }

  lemma HexInOrder(v: nat)
    requires v < 16
    ensures HEX_DIGITS[v] as int == Hex(v) as int
  {}

  lemma HexFound(v: nat)
    requires v < 16
    ensures Place(HEX_DIGITS, Hex(v)) == v
  {
    var i := Place(HEX_DIGITS, Hex(v));
    HexInOrder(v);
    if i < 16 { HexInOrder(i); }
  }

  lemma FoundHex(c: byte)
    ensures var i := Place(HEX_DIGITS, c); i < 16 ==> Hex(i) == c
  {
    var i := Place(HEX_DIGITS, c);
    if i < 16 { HexInOrder(i); }
  }

  /** How one byte is escaped. */
  function OneEscaped(b: byte): Bytes {
    if Unreserved(b) then [b] else if b == 32 then [43] else [37, Hex(b as int / 16), Hex(b as int % 16)]
  }

  lemma OneUnescapes(b: byte)
    ensures OneUnescaped(OneEscaped(b)) == Some(b) && (OneEscaped(b)[0] == 37 <==> |OneEscaped(b)| == 3)
  {
    PlainIsUnreserved(b);
    PlainIsUnreserved(43);
    PlainIsUnreserved(37);
    if |OneEscaped(b)| == 3 { HexUnescapes(b); }
  }

  lemma HexUnescapes(b: byte)
    requires !Known(PLAIN, b) && b != 32
    ensures OneUnescaped([37, Hex(b as int / 16), Hex(b as int % 16)]) == Some(b)
  {
    HexFound(b as int / 16);
    HexFound(b as int % 16);
  }

  /** Two digits that are read as a byte are its digits. */
  lemma HexEscapes(t: Bytes)
    requires |t| == 3
    ensures var b := OneUnescaped(t); b.Some? ==>
      !Known(PLAIN, b.value) && b.value != 32 && t[1] == Hex(b.value as int / 16) && t[2] == Hex(b.value as int % 16)
  {
    FoundHex(t[1]);
    FoundHex(t[2]);
  }

  lemma OneEscapes(t: Bytes)
    requires |t| == (if t != [] && t[0] == 37 then 3 else 1)
    ensures var b := OneUnescaped(t); b.Some? ==> OneEscaped(b.value) == t
  {
    PlainIsUnreserved(t[0]);
    PlainIsUnreserved(32);
    var b := OneUnescaped(t);
    if |t| == 3 && b.Some? {
      HexEscapes(t);
      PlainIsUnreserved(b.value);
    }
  }

  lemma {:induction false} EscapeDecodes(s: Bytes)
    ensures Unescaped(QueryEscape(s)) == Some(s)
  {
    if s != [] {
      var first, rest := OneEscaped(s[0]), QueryEscape(s[1..]);
      OneUnescapes(s[0]);
      EscapeDecodes(s[1..]);
      assert (first + rest)[..|first|] == first && (first + rest)[|first|..] == rest;
      assert s == [s[0]] + s[1..];
    }
  }

  lemma {:induction false} EscapeEncodes(t: Bytes)
    ensures var s := Unescaped(t); s.Some? ==> QueryEscape(s.value) == t
  {
    if t != [] {
      var n := if t[0] == 37 then 3 else 1;
      if n <= |t| {
        OneEscapes(t[..n]);
        EscapeEncodes(t[n..]);
        var first, rest := OneUnescaped(t[..n]), Unescaped(t[n..]);
        if first.Some? && rest.Some? {
          assert ([first.value] + rest.value)[1..] == rest.value;
          assert t == t[..n] + t[n..];
        }
      }
    }
  }

  lemma EscapeIff(t: Bytes, s: Bytes)
    ensures Unescaped(t) == Some(s) <==> t == QueryEscape(s)
  {
    EscapeDecodes(s);
    EscapeEncodes(t);
  }

  // ---- What spells a value ----

  predicate Base64Spells(t: Bytes, v: Bytes) {
    || FromBase64(STANDARD, true, t) == Some(v) || FromBase64(STANDARD, false, t) == Some(v)
    || FromBase64(URL_SAFE, true, t) == Some(v) || FromBase64(URL_SAFE, false, t) == Some(v)
  }

  /** The value itself, its query escape, or base64 of it or of it with a newline, in either alphabet, padded or
      not. */
  predicate Spells(t: Bytes, v: Bytes) {
    t == v || Unescaped(t) == Some(v) || Base64Spells(t, v) || Base64Spells(t, v + [10])
  }

  lemma FourFormsSpell(raw: Bytes, t: Bytes)
    ensures t in FourForms(raw) <==> Base64Spells(t, raw)
  {
    Base64Iff(false, true, t, raw);
    Base64Iff(false, false, t, raw);
    Base64Iff(true, true, t, raw);
    Base64Iff(true, false, t, raw);
  }

  /** The forms of a value are exactly the texts that spell it. */
  lemma FormsSpell(v: Bytes, t: Bytes)
    ensures t in Forms(v) <==> Spells(t, v)
  {
    EscapeIff(t, v);
    FourFormsSpell(v, t);
    FourFormsSpell(v + [NEWLINE], t);
    var first, four, more := [v, QueryEscape(v)], FourForms(v), FourForms(v + [NEWLINE]);
    assert t in first + four + more <==> t in first || t in four || t in more;
  }
}
