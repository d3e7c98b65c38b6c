/** A spool file byte by byte: lines of JSON, written whole or torn, and read back line by line. The
    JSON codec itself is a parameter. */
module SpoolCodec {
  import opened Basics
  import opened ByteStrings

  const NL: byte := 10
  const CR: byte := 13

  /** The scanner's buffer: a line this long or longer stops the whole read. */
  const LINE_LIMIT: nat := 0x10_0000

  /** What writing and reading one record must agree on. */
  ghost predicate IsCodec<R(!new)>(enc: R -> seq<byte>, dec: seq<byte> -> Option<R>) {
    forall r :: dec(enc(r)) == Some(r) && enc(r) != [] && NL !in enc(r) && CR !in enc(r)
  }

  function Encode<R>(enc: R -> seq<byte>, rs: seq<R>): seq<byte> {
    if rs == [] then [] else enc(rs[0]) + [NL] + Encode(enc, rs[1..])
  }

  /** The length of the first line, without its newline. */
  function FirstLine(b: seq<byte>): (n: nat)
    ensures n <= |b| && NL !in b[..n] && (n < |b| ==> b[n] == NL)
  {
    if b == [] || b[0] == NL then 0 else
      var n := FirstLine(b[1..]) + 1;
      assert b[..n] == [b[0]] + b[1..][..n - 1];
      n
  }

  function Lines(b: seq<byte>): seq<seq<byte>> {
    if b == [] then []
    else
      var n := FirstLine(b);
      if n == |b| then [b] else [b[..n]] + Lines(b[n + 1..])
  }

  function DropCR(line: seq<byte>): seq<byte> {
    if line != [] && line[|line| - 1] == CR then line[..|line| - 1] else line
  }

  datatype Loaded<R> = Loaded(entries: seq<R>, skipped: nat)

  /** Reads each line: blank ones are passed over, unreadable ones counted. */
  function Read<R>(dec: seq<byte> -> Option<R>, lines: seq<seq<byte>>): Loaded<R> {
    if lines == [] then Loaded([], 0)
    else
      var line, rest := DropCR(lines[0]), Read(dec, lines[1..]);
      if line == [] then rest
      else match dec(line)
        case None => Loaded(rest.entries, rest.skipped + 1)
        case Some(r) => Loaded([r] + rest.entries, rest.skipped)
  }

  predicate Fits(lines: seq<seq<byte>>) {
    forall i | 0 <= i < |lines| :: |lines[i]| < LINE_LIMIT
  }

  /** What load gets out of a file: its records, or nothing at all when a line is too long. */
  function Load<R>(dec: seq<byte> -> Option<R>, b: seq<byte>): Option<Loaded<R>> {
    if Fits(Lines(b)) then Some(Read(dec, Lines(b))) else None
  }

  // ---- Lines ----

  lemma {:induction false} FirstLineIs(b: seq<byte>, n: nat)
    requires n <= |b| && NL !in b[..n] && (n < |b| ==> b[n] == NL)
    ensures FirstLine(b) == n
  {
    if n > 0 {
      assert b[..n][0] == b[0];
      assert b[1..][..n - 1] == b[..n][1..];
      FirstLineIs(b[1..], n - 1);
    }
  }

  lemma HeadLine(line: seq<byte>, rest: seq<byte>)
    requires NL !in line
    ensures Lines(line + [NL] + rest) == [line] + Lines(rest)
  {
    var b := line + [NL] + rest;
    assert b[..|line|] == line && b[|line| + 1..] == rest;
    FirstLineIs(b, |line|);
  }

  lemma LastLine(line: seq<byte>)
    requires NL !in line && line != []
    ensures Lines(line) == [line]
  {
    assert line[..|line|] == line;
    FirstLineIs(line, |line|);
  }

  lemma {:induction false} FirstLineEndsBy(b: seq<byte>, i: nat)
    requires i < |b| && b[i] == NL
    ensures FirstLine(b) <= i
  {
    if b[0] != NL { FirstLineEndsBy(b[1..], i - 1); }
  }

  lemma CutFirstLine(a: seq<byte>) returns (line: seq<byte>, rest: seq<byte>)
    requires a != [] && a[|a| - 1] == NL
    ensures a == line + [NL] + rest && NL !in line && (rest == [] || rest[|rest| - 1] == NL)
  {
    FirstLineEndsBy(a, |a| - 1);
    var n := FirstLine(a);
    line, rest := a[..n], a[n + 1..];
    assert rest != [] ==> rest[|rest| - 1] == a[|a| - 1];
  }

  lemma Assoc<T>(a: seq<T>, b: seq<T>, c: seq<T>)
    ensures a + b + c == a + (b + c)
  {}

  /** Complete lines are read the same whatever follows them. */
  lemma {:induction false} LinesSplit(a: seq<byte>, b: seq<byte>)
    requires a == [] || a[|a| - 1] == NL
    ensures Lines(a + b) == Lines(a) + Lines(b)
    decreases |a|
  {
    if a == [] {
      assert a + b == b;
    } else {
      var line, rest := CutFirstLine(a);
      LinesSplit(rest, b);
      HeadLine(line, rest);
      HeadLine(line, rest + b);
      Assoc(line + [NL], rest, b);
      Assoc([line], Lines(rest), Lines(b));
    }
  }

  lemma {:induction false} ReadSplit<R>(dec: seq<byte> -> Option<R>, a: seq<seq<byte>>, b: seq<seq<byte>>)
    ensures var x, y := Read(dec, a), Read(dec, b);
      Read(dec, a + b) == Loaded(x.entries + y.entries, x.skipped + y.skipped)
  {
    if a == [] {
      assert a + b == b;
    } else {
      assert (a + b)[0] == a[0] && (a + b)[1..] == a[1..] + b;
      ReadSplit(dec, a[1..], b);
    }
  }

  /** A file's complete first part and the rest load as one, or not at all. */
  lemma LoadSplit<R>(dec: seq<byte> -> Option<R>, a: seq<byte>, b: seq<byte>)
    requires a == [] || a[|a| - 1] == NL
    ensures Load(dec, a + b).Some? <==> Load(dec, a).Some? && Load(dec, b).Some?
    ensures Load(dec, a + b).Some? ==>
      Load(dec, a + b).value == Loaded(Load(dec, a).value.entries + Load(dec, b).value.entries,
                                       Load(dec, a).value.skipped + Load(dec, b).value.skipped)
  {
    LinesSplit(a, b);
    ReadSplit(dec, Lines(a), Lines(b));
    FitsSplit(Lines(a), Lines(b));
  }

  lemma FitsSplit(a: seq<seq<byte>>, b: seq<seq<byte>>)
    ensures Fits(a + b) <==> Fits(a) && Fits(b)
  {
    if Fits(a + b) {
      forall i | 0 <= i < |a| ensures |a[i]| < LINE_LIMIT { assert (a + b)[i] == a[i]; }
      forall i | 0 <= i < |b| ensures |b[i]| < LINE_LIMIT { assert (a + b)[|a| + i] == b[i]; }
    }
  }

  /** What one more line in front makes of a file that loads: nothing if it is blank, one record more if it can
      be read, one skipped line more if not; and a carriage return on its end does not matter. */
  lemma LineByLine<R>(dec: seq<byte> -> Option<R>, line: seq<byte>, rest: seq<byte>)
    requires NL !in line && CR !in line && |line| + 1 < LINE_LIMIT && Load(dec, rest).Some?
    ensures Load(dec, line + [NL] + rest) == Load(dec, line + [CR] + [NL] + rest)
    ensures var l := Load(dec, rest).value;
      Load(dec, line + [NL] + rest) == Some(
        if line == [] then l
        else if dec(line).Some? then Loaded([dec(line).value] + l.entries, l.skipped)
        else Loaded(l.entries, l.skipped + 1))
  {
    HeadLine(line, rest);
    HeadLine(line + [CR], rest);
    FitsSplit([line], Lines(rest));
    FitsSplit([line + [CR]], Lines(rest));
    assert DropCR(line) == line && DropCR(line + [CR]) == line;
    assert ([line] + Lines(rest))[1..] == ([line + [CR]] + Lines(rest))[1..] == Lines(rest);
  }

  // ---- Round trips ----

  ghost predicate AllFit<R>(enc: R -> seq<byte>, rs: seq<R>) {
    forall i | 0 <= i < |rs| :: |enc(rs[i])| < LINE_LIMIT
  }

  lemma LoadLine<R(!new)>(enc: R -> seq<byte>, dec: seq<byte> -> Option<R>, r: R)
    requires IsCodec(enc, dec)
    ensures Load(dec, enc(r) + [NL]) == if |enc(r)| < LINE_LIMIT then Some(Loaded([r], 0)) else None
  {
    HeadLine(enc(r), []);
    assert enc(r) + [NL] + [] == enc(r) + [NL];
    assert Lines([]) == [];
    assert Lines(enc(r) + [NL]) == [enc(r)];
    assert DropCR(enc(r)) == enc(r);
    assert Read(dec, [enc(r)][1..]) == Loaded([], 0);
    assert [r] + [] == [r];
    assert Fits([enc(r)]) <==> |[enc(r)][0]| < LINE_LIMIT;
  }

  /** What encode writes, load reads back: all of it with nothing skipped, if and only if every line is
      within the scanner's limit; else nothing. */
  lemma {:induction false} LoadEncode<R(!new)>(enc: R -> seq<byte>, dec: seq<byte> -> Option<R>, rs: seq<R>)
    requires IsCodec(enc, dec)
    ensures Encode(enc, rs) == [] || Encode(enc, rs)[|Encode(enc, rs)| - 1] == NL
    ensures Load(dec, Encode(enc, rs)) ==
      if AllFit(enc, rs) then Some(Loaded(rs, 0)) else None
  {
    if rs != [] {
      LoadEncode(enc, dec, rs[1..]);
      LoadCons(enc, dec, rs[0], rs[1..]);
      FirstAndRestFit(enc, rs);
      assert rs == [rs[0]] + rs[1..];
    }
  }

  lemma LoadCons<R(!new)>(enc: R -> seq<byte>, dec: seq<byte> -> Option<R>, r: R, rs: seq<R>)
    requires IsCodec(enc, dec)
    requires Load(dec, Encode(enc, rs)) == if AllFit(enc, rs) then Some(Loaded(rs, 0)) else None
    ensures Load(dec, enc(r) + [NL] + Encode(enc, rs)) ==
      if |enc(r)| < LINE_LIMIT && AllFit(enc, rs) then Some(Loaded([r] + rs, 0)) else None
  {
    LoadLine(enc, dec, r);
    LoadSplit(dec, enc(r) + [NL], Encode(enc, rs));
  }

  lemma FirstAndRestFit<R>(enc: R -> seq<byte>, rs: seq<R>)
    requires rs != []
    ensures AllFit(enc, rs) <==> |enc(rs[0])| < LINE_LIMIT && AllFit(enc, rs[1..])
  {
    assert forall i | 0 <= i < |rs| - 1 :: rs[1..][i] == rs[i + 1];
    assert forall i | 0 < i < |rs| :: rs[i] == rs[1..][i - 1];
  }

  lemma {:induction false} ReadGood<R(!new)>(enc: R -> seq<byte>, dec: seq<byte> -> Option<R>, rs: seq<R>)
    requires IsCodec(enc, dec) && AllFit(enc, rs)
    ensures Load(dec, Encode(enc, rs)) == Some(Loaded(rs, 0))
  {
    LoadEncode(enc, dec, rs);
  }

  /** A torn write: the first bytes of a record, without its newline. What was appended before it and
      from the second record after it loads; it and the record right behind it make one line, which
      yields one record at most and is otherwise counted as skipped. */
  lemma TornWriteSpoilsAtMostTwo<R(!new)>(enc: R -> seq<byte>, dec: seq<byte> -> Option<R>,
                                         before: seq<R>, r: R, cut: nat, next: R, after: seq<R>)
    requires IsCodec(enc, dec) && 0 < cut <= |enc(r)| && |enc(r)[..cut] + enc(next)| < LINE_LIMIT
    requires AllFit(enc, before) && AllFit(enc, after)
    ensures var l := Load(dec, Encode(enc, before) + enc(r)[..cut] + Encode(enc, [next] + after));
      l.Some? && exists x: seq<R> :: |x| + l.value.skipped == 1 && l.value.entries == before + x + after
  {
    var joined := enc(r)[..cut] + enc(next) + [NL];
    JoinedLine(enc, dec, r, cut, next);
    var x := Load(dec, joined).value;
    ReadGood(enc, dec, before);
    ReadGood(enc, dec, after);
    LoadEncode(enc, dec, before);
    LoadSplit(dec, joined, Encode(enc, after));
    LoadSplit(dec, Encode(enc, before), joined + Encode(enc, after));
    TornBytes(enc, before, enc(r)[..cut], next, after);
    Assoc(before, x.entries, after);
  }

  lemma TornBytes<R>(enc: R -> seq<byte>, before: seq<R>, torn: seq<byte>, next: R, after: seq<R>)
    ensures Encode(enc, before) + torn + Encode(enc, [next] + after)
         == Encode(enc, before) + (torn + enc(next) + [NL] + Encode(enc, after))
  {
    assert ([next] + after)[1..] == after;
    assert Encode(enc, [next] + after) == enc(next) + [NL] + Encode(enc, after);
    Assoc(Encode(enc, before), torn, Encode(enc, [next] + after));
    assert torn + (enc(next) + [NL] + Encode(enc, after)) == torn + enc(next) + [NL] + Encode(enc, after);
  }

  lemma JoinedLine<R(!new)>(enc: R -> seq<byte>, dec: seq<byte> -> Option<R>, r: R, cut: nat, next: R)
    requires IsCodec(enc, dec) && 0 < cut <= |enc(r)| && |enc(r)[..cut] + enc(next)| < LINE_LIMIT
    ensures var l := Load(dec, enc(r)[..cut] + enc(next) + [NL]);
      l.Some? && |l.value.entries| + l.value.skipped == 1
  {
    var line := enc(r)[..cut] + enc(next);
    assert NL !in line;
    HeadLine(line, []);
    assert line + [NL] + [] == line + [NL];
    assert Lines(line + [NL]) == [line];
    assert line[|line| - 1] == enc(next)[|enc(next)| - 1] && DropCR(line) == line;
    assert Read(dec, [line][1..]) == Loaded([], 0);
    assert Fits([line]);
  }

  /** A torn write at the end of the file spoils nothing but itself: it is skipped, or read when all
      but its newline was written. */
  lemma TornWriteAtEnd<R(!new)>(enc: R -> seq<byte>, dec: seq<byte> -> Option<R>, before: seq<R>, r: R, cut: nat)
    requires IsCodec(enc, dec) && 0 < cut <= |enc(r)| < LINE_LIMIT
    requires AllFit(enc, before)
    ensures var l := Load(dec, Encode(enc, before) + enc(r)[..cut]);
      && l.Some? && |l.value.entries| + l.value.skipped == |before| + 1 && before <= l.value.entries
      && (cut == |enc(r)| ==> l == Some(Loaded(before + [r], 0)))
  {
    var line := enc(r)[..cut];
    assert NL !in line && CR !in line;
    LastLine(line);
    assert DropCR(line) == line;
    assert Read(dec, [line][1..]) == Loaded([], 0);
    assert Fits([line]);
    ReadGood(enc, dec, before);
    LoadEncode(enc, dec, before);
    LoadSplit(dec, Encode(enc, before), line);
    if cut == |enc(r)| { assert line == enc(r) && [r] + [] == [r]; }
  }

  /** Whatever load makes of a file, writing back what a drain leaves of it and reading that again gives
      the same records, if and only if they fit: a record read from a short line may be written as one
      that is too long, and then the file does not load at all. */
  lemma RewriteKeepsRecords<R(!new)>(enc: R -> seq<byte>, dec: seq<byte> -> Option<R>, b: seq<byte>, sent: nat)
    requires IsCodec(enc, dec) && Load(dec, b).Some? && sent <= |Load(dec, b).value.entries|
    ensures var rest := Load(dec, b).value.entries[sent..];
      Load(dec, Encode(enc, rest)) == if AllFit(enc, rest) then Some(Loaded(rest, 0)) else None
  {
    LoadEncode(enc, dec, Load(dec, b).value.entries[sent..]);
  }

  /** A file the spool wrote itself can be rewritten at any record, again and again. */
  lemma OwnFilesRewrite<R(!new)>(enc: R -> seq<byte>, dec: seq<byte> -> Option<R>, rs: seq<R>, sent: nat)
    requires IsCodec(enc, dec) && Load(dec, Encode(enc, rs)).Some? && sent <= |rs|
    ensures Load(dec, Encode(enc, rs)) == Some(Loaded(rs, 0))
    ensures Load(dec, Encode(enc, rs[sent..])) == Some(Loaded(rs[sent..], 0))
  {
    LoadEncode(enc, dec, rs);
    RewriteKeepsRecords(enc, dec, Encode(enc, rs), sent);
    forall i | 0 <= i < |rs| - sent ensures |enc(rs[sent..][i])| < LINE_LIMIT {
      assert rs[sent..][i] == rs[sent + i];
    }
  }

  // ---- A codec, and a record at the limit ----

  const X: byte := 120

  /** Records told apart by their length alone. */
  datatype Run = Run(n: nat)

  function Written(r: Run): (line: seq<byte>)
    ensures |line| == r.n + 1 && forall b | b in line :: b == X
  {
    seq(r.n + 1, i => X)
  }

  function ReadBack(line: seq<byte>): Option<Run> {
    if line == [] then None else Some(Run(|line| - 1))
  }

  lemma RunsAreCodec()
    ensures IsCodec(Written, ReadBack)
  {
    forall r ensures ReadBack(Written(r)) == Some(r) && Written(r) != [] && NL !in Written(r) && CR !in Written(r) {
      assert |Written(r)| == r.n + 1;
    }
  }

  lemma TwoRuns(before: Run, last: Run)
    requires |Written(before)| < LINE_LIMIT
    ensures Load(ReadBack, Encode(Written, [before, last])) ==
      if |Written(last)| < LINE_LIMIT then Some(Loaded([before, last], 0)) else None
  {
    var rs := [before, last];
    RunsAreCodec();
    LoadEncode(Written, ReadBack, rs);
    if |Written(last)| >= LINE_LIMIT { assert |Written(rs[1])| >= LINE_LIMIT; }
  }

  /** A record at the scanner's limit: it is appended like any other, and the record before it no longer
      loads either. One byte less and both do. */
  lemma TooLongWitness(before: Run)
    requires before.n < LINE_LIMIT - 1
    ensures |Written(Run(LINE_LIMIT - 1))| == LINE_LIMIT == 1024 * 1024
    ensures Load(ReadBack, Encode(Written, [before, Run(LINE_LIMIT - 1)])) == None
    ensures Load(ReadBack, Encode(Written, [before, Run(LINE_LIMIT - 2)])).Some?
  {
    TwoRuns(before, Run(LINE_LIMIT - 1));
    TwoRuns(before, Run(LINE_LIMIT - 2));
  }
}
