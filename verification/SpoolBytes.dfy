/** The lines a spool file is modelled as, and the bytes it is made of: whatever was appended to it, whole or
    torn, its lines take up its bytes, and its readable lines are among the records its bytes load as. */
module SpoolBytes {
  import opened Basics
  import opened ByteStrings
  import opened SpoolFiles
  import opened AuditSpool
  import Codec = SpoolCodec

  /** One write to a file: a record and its newline, or the first bytes of a record. */
  datatype Write = Whole(e: Entry) | Torn(e: Entry, cut: Size)

  /** A record's size is the length of its line. */
  predicate Fits(enc: Entry -> seq<byte>, w: Write) {
    |enc(w.e)| == w.e.size && (w.Torn? ==> w.cut <= w.e.size)
  }

  predicate AllFit(enc: Entry -> seq<byte>, ws: seq<Write>) {
    forall i | 0 <= i < |ws| :: Fits(enc, ws[i])
  }

  function Text(enc: Entry -> seq<byte>, w: Write): seq<byte>
    requires Fits(enc, w)
  {
    if w.Whole? then enc(w.e) else enc(w.e)[..w.cut]
  }

  function BytesOf(enc: Entry -> seq<byte>, ws: seq<Write>): seq<byte>
    requires AllFit(enc, ws)
  {
    if ws == [] then []
    else
      var last := ws[|ws| - 1];
      BytesOf(enc, ws[..|ws| - 1]) + Text(enc, last) + if last.Whole? then [Codec.NL] else []
  }

  function LineOf(w: Write): Line {
    if w.Whole? then Record(w.e) else Unreadable(w.cut, true)
  }

  function LinesAfter(ws: seq<Write>): seq<Line> {
    if ws == [] then [] else Extend(LinesAfter(ws[..|ws| - 1]), LineOf(ws[|ws| - 1]))
  }

  // ---- Sizes ----

  lemma {:induction false} SizeAppend(lines: seq<Line>, l: Line)
    ensures SizeOf(lines + [l]) == SizeOf(lines) + SizeOfLine(l)
  {
    if lines == [] {
      assert [l][1..] == [];
    } else {
      assert (lines + [l])[1..] == lines[1..] + [l];
      SizeAppend(lines[1..], l);
    }
  }

  lemma ExtendSize(lines: seq<Line>, l: Line)
    ensures SizeOf(Extend(lines, l)) == SizeOf(lines) + SizeOfLine(l)
  {
    SizeAppend(lines, l);
    if EndsOpen(lines) {
      var front, last := lines[..|lines| - 1], lines[|lines| - 1];
      assert lines == front + [last];
      SizeAppend(front, last);
      SizeAppend(front, Joined(last.size, l));
    }
  }

  /** A file's lines take up exactly its bytes. */
  lemma {:induction false} SizeIsBytes(enc: Entry -> seq<byte>, ws: seq<Write>)
    requires AllFit(enc, ws)
    ensures SizeOf(LinesAfter(ws)) == |BytesOf(enc, ws)|
  {
    if ws != [] {
      var n := |ws| - 1;
      assert Fits(enc, ws[n]);
      SizeIsBytes(enc, ws[..n]);
      ExtendSize(LinesAfter(ws[..n]), LineOf(ws[n]));
    }
  }

  /** So do the records that are written back. */
  lemma {:induction false} EncodedSize(enc: Entry -> seq<byte>, es: seq<Entry>)
    requires forall e | e in es :: |enc(e)| == e.size
    ensures SizeOf(Encode(es)) == |Codec.Encode(enc, es)|
  {
    if es != [] {
      EncodedSize(enc, es[1..]);
      assert Encode(es)[1..] == Encode(es[1..]);
    }
  }

  // ---- The cap, in bytes ----

  /** What was written to each file of the directory. */
  type Histories = map<Name, seq<Write>>

  function Disk(h: Histories): Files {
    map n | n in h :: LinesAfter(h[n])
  }

  ghost predicate Written(enc: Entry -> seq<byte>, h: Histories) {
    forall n | n in h :: AllFit(enc, h[n])
  }

  function TotalBytes(enc: Entry -> seq<byte>, h: Histories, queue: seq<Name>): nat
    requires forall n | n in h :: AllFit(enc, h[n])
  {
    if queue == [] then 0
    else (if queue[0] in h then |BytesOf(enc, h[queue[0]])| else 0) + TotalBytes(enc, h, queue[1..])
  }

  lemma {:induction false} TotalIsBytes(enc: Entry -> seq<byte>, h: Histories, queue: seq<Name>)
    requires Written(enc, h)
    ensures TotalSize(Disk(h), queue) == TotalBytes(enc, h, queue)
  {
    if queue != [] {
      if queue[0] in h { SizeIsBytes(enc, h[queue[0]]); }
      TotalIsBytes(enc, h, queue[1..]);
    }
  }

  lemma {:induction false} SizeTakeOut(files: Files, queue: seq<Name>, n: Name)
    requires n in queue
    ensures TotalSize(files, queue) == TotalSize(files, [n]) + TotalSize(files, Without(queue, n))
  {
    if queue[0] != n { SizeTakeOut(files, queue[1..], n); }
  }

  lemma {:induction false} SameSizes(a: Files, b: Files, queue: seq<Name>)
    requires forall n | n in queue :: (n in a <==> n in b) && (n in a ==> a[n] == b[n])
    ensures TotalSize(a, queue) == TotalSize(b, queue)
  {
    if queue != [] { SameSizes(a, b, queue[1..]); }
  }

  lemma {:induction false} NoFilesNoSize(queue: seq<Name>)
    ensures TotalSize(map[], queue) == 0
  {
    if queue != [] { NoFilesNoSize(queue[1..]); }
  }

  /** The size of a directory does not depend on the order its files are measured in. */
  lemma {:induction false} SizesAgree(files: Files, a: seq<Name>, b: seq<Name>)
    requires Covers(files, a) && Covers(files, b)
    ensures TotalSize(files, a) == TotalSize(files, b)
    decreases |a|
  {
    if a == [] {
      assert files == map[];
      NoFilesNoSize(b);
    } else {
      var q := a[0];
      var less := files - {q};
      DistinctRest(a);
      SameSizes(files, less, a[1..]);
      if q in b {
        WithoutMembers(b, q);
        SizeTakeOut(files, b, q);
        SameSizes(files, less, Without(b, q));
        SizesAgree(less, a[1..], Without(b, q));
      } else {
        assert less == files;
        SizesAgree(files, a[1..], b);
      }
    }
  }

  lemma CapIsSize(files: Files, queue: seq<Name>, max: nat)
    requires Covers(files, queue)
    ensures CapReached(files, max) <==> TotalSize(files, queue) >= max
  {
    var names := ListExists(files);
    CapDecided(files, names, max);
    BatchListCovers(files, names);
    SizesAgree(files, names + [Live], queue);
  }

  lemma {:induction false} ListExists(files: Files) returns (names: seq<Name>)
    ensures IsBatchList(files, names)
    decreases files.Keys
  {
    if n :| n in files && n.Claim? {
      var rest := ListExists(files - {n});
      names := InsertByTag(n.tag, rest);
    } else {
      names := [];
    }
  }

  /** A spool is full if and only if the bytes of all its files, in whatever order, come to the cap. */
  lemma CapIsBytes(enc: Entry -> seq<byte>, h: Histories, queue: seq<Name>, max: nat)
    requires Written(enc, h) && Covers(Disk(h), queue)
    ensures CapReached(Disk(h), max) <==> TotalBytes(enc, h, queue) >= max
  {
    CapIsSize(Disk(h), queue, max);
    TotalIsBytes(enc, h, queue);
  }

  /** How much room records take, with their newlines. */
  function Room(es: seq<Entry>): nat {
    if es == [] then 0 else es[0].size + 1 + Room(es[1..])
  }

  lemma {:induction false} RoomOf(a: seq<Entry>, b: seq<Entry>)
    ensures Room(a + b) == Room(a) + Room(b)
  {
    if a == [] {
      assert a + b == b;
    } else {
      assert (a + b)[1..] == a[1..] + b;
      RoomOf(a[1..], b);
    }
  }

  lemma {:induction false} RecordsTakeRoom(lines: seq<Line>)
    ensures Room(Readable(lines)) <= SizeOf(lines)
    ensures (forall l | l in lines :: l.Record?) ==> Room(Readable(lines)) == SizeOf(lines)
  {
    if lines != [] {
      RecordsTakeRoom(lines[1..]);
      assert forall l | l in lines[1..] :: l in lines;
      var first := if lines[0].Record? then [lines[0].entry] else [];
      RoomOf(first, Readable(lines[1..]));
      assert Room(first) == if lines[0].Record? then lines[0].entry.size + 1 else 0 by {
        if lines[0].Record? { assert first[1..] == []; }
      }
    }
  }

  lemma {:induction false} EntriesTakeRoom(files: Files, queue: seq<Name>)
    ensures Room(AllEntries(files, queue)) <= TotalSize(files, queue)
  {
    if queue != [] {
      EntriesTakeRoom(files, queue[1..]);
      RoomOf(EntriesOf(files, queue[0]), AllEntries(files, queue[1..]));
      if queue[0] in files { RecordsTakeRoom(files[queue[0]]); }
    }
  }

  /** Records whose lines come to the cap fill the spool. */
  lemma RecordsFill(files: Files, queue: seq<Name>, max: nat)
    requires Covers(files, queue) && Room(AllEntries(files, queue)) >= max
    ensures CapReached(files, max)
  {
    EntriesTakeRoom(files, queue);
    CapIsSize(files, queue, max);
  }

  /** One record of 100 bytes fills a spool of 50. */
  lemma FullWitness()
    ensures CapReached(map[Live := [Record(Entry(1, 100))]], 50)
  {
    var files: Files := map[Live := [Record(Entry(1, 100))]];
    assert Room([Entry(1, 100)]) == 101 + Room([]);
    assert Readable([Record(Entry(1, 100))]) == [Entry(1, 100)] + Readable([]);
    assert AllEntries(files, [Live]) == EntriesOf(files, Live) + AllEntries(files, []);
    RecordsFill(files, [Live], 50);
  }

  // ---- What the bytes load as ----

  /** The text of each line. */
  function TextsAfter(enc: Entry -> seq<byte>, ws: seq<Write>): (texts: seq<seq<byte>>)
    requires AllFit(enc, ws)
    ensures |texts| == |LinesAfter(ws)|
  {
    if ws == [] then []
    else
      var n := |ws| - 1;
      var before, text := TextsAfter(enc, ws[..n]), Text(enc, ws[n]);
      if EndsOpen(LinesAfter(ws[..n])) then before[..|before| - 1] + [before[|before| - 1] + text] else before + [text]
  }

  /** Texts as a file has them: each ends in a newline, but for an open last one. */
  function Flat(texts: seq<seq<byte>>, open: bool): seq<byte> {
    if texts == [] then []
    else texts[0] + (if |texts| == 1 && open then [] else [Codec.NL]) + Flat(texts[1..], open)
  }

  lemma {:induction false} FlatAppend(texts: seq<seq<byte>>, t: seq<byte>, open: bool)
    ensures Flat(texts + [t], open) == Flat(texts, false) + (t + if open then [] else [Codec.NL])
  {
    if texts == [] {
      assert [t][1..] == [] && texts + [t] == [t];
    } else {
      FlatAppend(texts[1..], t, open);
      assert (texts + [t])[1..] == texts[1..] + [t];
      Codec.Assoc(texts[0] + [Codec.NL], Flat(texts[1..], false), t + if open then [] else [Codec.NL]);
    }
  }

  lemma {:induction false} BytesAreFlat(enc: Entry -> seq<byte>, ws: seq<Write>)
    requires AllFit(enc, ws)
    ensures BytesOf(enc, ws) == Flat(TextsAfter(enc, ws), EndsOpen(LinesAfter(ws)))
  {
    if ws != [] {
      var n := |ws| - 1;
      BytesAreFlat(enc, ws[..n]);
      OneMoreWrite(enc, ws, TextsAfter(enc, ws[..n]));
    }
  }

  lemma OneMoreWrite(enc: Entry -> seq<byte>, ws: seq<Write>, before: seq<seq<byte>>)
    requires AllFit(enc, ws) && ws != [] && before == TextsAfter(enc, ws[..|ws| - 1])
    requires BytesOf(enc, ws[..|ws| - 1]) == Flat(before, EndsOpen(LinesAfter(ws[..|ws| - 1])))
    ensures BytesOf(enc, ws) == Flat(TextsAfter(enc, ws), EndsOpen(LinesAfter(ws)))
  {
    var n := |ws| - 1;
    var lines, text, open := LinesAfter(ws[..n]), Text(enc, ws[n]), ws[n].Torn?;
    var end := if open then [] else [Codec.NL];
    WhatIsGained(lines, LineOf(ws[n]));
    if EndsOpen(lines) {
      var front, last := before[..|before| - 1], before[|before| - 1];
      assert before == front + [last];
      FlatAppend(front, last, true);
      FlatAppend(front, last + text, open);
      assert last + [] == last;
      Codec.Assoc(Flat(front, false), last, text + end);
      Codec.Assoc(last, text, end);
      Codec.Assoc(Flat(front, false) + last, text, end);
    } else {
      ClosedFlat(before, lines, text, open);
      Codec.Assoc(Flat(before, false), text, end);
    }
  }

  lemma ClosedFlat(before: seq<seq<byte>>, lines: seq<Line>, text: seq<byte>, open: bool)
    ensures Flat(before + [text], open) == Flat(before, false) + (text + if open then [] else [Codec.NL])
  {
    FlatAppend(before, text, open);
  }

  /** Text that is one line and no blank one. */
  predicate IsLine(t: seq<byte>) {
    t != [] && Codec.NL !in t && t[|t| - 1] != Codec.CR
  }

  lemma {:induction false} FlatLines(texts: seq<seq<byte>>, open: bool)
    requires forall t | t in texts :: IsLine(t)
    ensures Codec.Lines(Flat(texts, open)) == texts
  {
    if texts != [] {
      assert IsLine(texts[0]) && forall t | t in texts[1..] :: t in texts;
      FlatLines(texts[1..], open);
      if |texts| == 1 && open {
        assert texts == [texts[0]] && texts[0] + [] + [] == texts[0];
        Codec.LastLine(texts[0]);
      } else {
        Codec.HeadLine(texts[0], Flat(texts[1..], open));
      }
    }
  }

  /** A record's line has the record's text. */
  ghost predicate Agree(enc: Entry -> seq<byte>, texts: seq<seq<byte>>, lines: seq<Line>) {
    && |texts| == |lines| && (forall t | t in texts :: IsLine(t))
    && forall i | 0 <= i < |lines| && lines[i].Record? :: texts[i] == enc(lines[i].entry)
  }

  lemma {:induction false} TextsAgree(enc: Entry -> seq<byte>, dec: seq<byte> -> Option<Entry>, ws: seq<Write>)
    requires Codec.IsCodec(enc, dec) && AllFit(enc, ws)
    ensures Agree(enc, TextsAfter(enc, ws), LinesAfter(ws))
  {
    if ws != [] {
      var n := |ws| - 1;
      assert Fits(enc, ws[n]);
      TextsAgree(enc, dec, ws[..n]);
      TextIsLine(enc, dec, ws[n]);
      var before, text := TextsAfter(enc, ws[..n]), Text(enc, ws[n]);
      if EndsOpen(LinesAfter(ws[..n])) {
        LongerLine(before[|before| - 1], text);
      }
    }
  }

  lemma TextIsLine(enc: Entry -> seq<byte>, dec: seq<byte> -> Option<Entry>, w: Write)
    requires Codec.IsCodec(enc, dec) && Fits(enc, w)
    ensures IsLine(Text(enc, w))
  {
    var t := Text(enc, w);
    assert dec(enc(w.e)) == Some(w.e);
    assert t[|t| - 1] == enc(w.e)[|t| - 1];
  }

  lemma LongerLine(a: seq<byte>, b: seq<byte>)
    requires IsLine(a) && IsLine(b)
    ensures IsLine(a + b)
  {}

  /** a is b with some left out. */
  predicate IsPart(a: seq<Entry>, b: seq<Entry>) {
    a == [] || (b != [] && (IsPart(a, b[1..]) || (a[0] == b[0] && IsPart(a[1..], b[1..]))))
  }

  lemma {:induction false} ReadAgrees(enc: Entry -> seq<byte>, dec: seq<byte> -> Option<Entry>,
      texts: seq<seq<byte>>, lines: seq<Line>)
    requires Codec.IsCodec(enc, dec) && Agree(enc, texts, lines)
    ensures var l := Codec.Read(dec, texts); IsPart(Readable(lines), l.entries) && |l.entries| + l.skipped == |lines|
  {
    if lines != [] {
      assert IsLine(texts[0]) && Codec.DropCR(texts[0]) == texts[0];
      assert Agree(enc, texts[1..], lines[1..]) by {
        assert forall t | t in texts[1..] :: t in texts;
        assert forall i | 0 <= i < |lines| - 1 :: lines[1..][i] == lines[i + 1] && texts[1..][i] == texts[i + 1];
      }
      ReadAgrees(enc, dec, texts[1..], lines[1..]);
      var more, rest := Readable(lines[1..]), Codec.Read(dec, texts[1..]).entries;
      if lines[0].Record? {
        var e := lines[0].entry;
        assert dec(texts[0]) == Some(e);
        assert Readable(lines) == [e] + more && ([e] + more)[1..] == more && ([e] + rest)[1..] == rest;
      } else {
        assert Readable(lines) == more;
        if dec(texts[0]).Some? { assert ([dec(texts[0]).value] + rest)[1..] == rest; }
      }
    }
  }

  /** Whatever was written to a file, its readable lines are among the records that loading its bytes yields,
      in order, and every other line yields one record at most; unless a line is too long, and nothing loads. */
  lemma RecordsLoad(enc: Entry -> seq<byte>, dec: seq<byte> -> Option<Entry>, ws: seq<Write>)
    requires Codec.IsCodec(enc, dec) && AllFit(enc, ws)
    ensures var l := Codec.Load(dec, BytesOf(enc, ws)); l.Some? ==>
      IsPart(Readable(LinesAfter(ws)), l.value.entries) && |l.value.entries| + l.value.skipped == |LinesAfter(ws)|
    ensures Codec.Load(dec, BytesOf(enc, ws)).Some? <==> forall t | t in TextsAfter(enc, ws) :: |t| < Codec.LINE_LIMIT
  {
    var texts := TextsAfter(enc, ws);
    BytesAreFlat(enc, ws);
    TextsAgree(enc, dec, ws);
    FlatLines(texts, EndsOpen(LinesAfter(ws)));
    ReadAgrees(enc, dec, texts, LinesAfter(ws));
  }
}
