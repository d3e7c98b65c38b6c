/** The lines of a zone file as text, and what the edits write into them: it is read back as what the edits of
    the zone say. Which words are addresses is a parameter. */
module DnsLines {
  import opened DnsText
  import opened DnsZones

  /** What every parser of addresses has: no address is empty, has white space or starts like a comment. */
  ghost predicate AreAddresses(addr: string -> bool) {
    forall w | addr(w) :: w != "" && SpaceFree(w) && w[0] != '#'
  }

  /** A line with no second word, or whose first starts with a #, is left alone by everything. */
  predicate IsOther(words: seq<string>) {
    |words| < 2 || (words[0] != "" && words[0][0] == '#')
  }

  function Parsed(addr: string -> bool, text: string): Line {
    var words := Fields(text);
    if IsOther(words) then Other(text)
    else if addr(words[0]) then Record(words[0], words[1..])
    else Loose(words[0], words[1..])
  }

  /** The line an add writes is read as the line it files. */
  lemma AddedLine(addr: string -> bool, ip: string, host: string)
    requires AreAddresses(addr) && addr(ip)
    ensures Parsed(addr, Rendered(ip, host)) == Filed(ip, host)
  {
    RenderedFields(ip, host);
    assert ([ip] + Fields(host))[1..] == Fields(host);
  }

  /** What a remove makes of one line of text: untouched, written anew with the names it keeps, or gone. */
  function TextRemoved(text: string, host: string): seq<string> {
    var words := Fields(text);
    if IsOther(words) then [text]
    else
      var keep := Without(words[1..], host);
      if |keep| == |words| - 1 then [text]
      else if keep == [] then []
      else [Rendered(words[0], Joined(keep))]
  }

  function ParsedAll(addr: string -> bool, texts: seq<string>): Zone {
    if texts == [] then [] else ParsedAll(addr, texts[..|texts| - 1]) + [Parsed(addr, texts[|texts| - 1])]
  }

  lemma {:induction false} WithoutLength(names: seq<string>, host: string)
    ensures |Without(names, host)| <= |names| && (|Without(names, host)| == |names| <==> host !in names)
  {
    if names != [] { WithoutLength(names[1..], host); }
  }

  lemma RemovedWords(text: string, host: string)
    requires var words := Fields(text); !IsOther(words) && Without(words[1..], host) != []
    ensures var words := Fields(text);
      Fields(Rendered(words[0], Joined(Without(words[1..], host)))) == [words[0]] + Without(words[1..], host)
  {
    var words := Fields(text);
    var keep := Without(words[1..], host);
    WordsArePlain(text);
    WithoutMembers(words[1..], host);
    assert words[0] in words && forall w | w in keep :: w in words[1..] && w in words;
    JoinedFields(keep);
    RenderedFields(words[0], Joined(keep));
  }

  /** It is read as what a remove makes of the line it was. */
  lemma RemovedLine(addr: string -> bool, text: string, host: string)
    ensures ParsedAll(addr, TextRemoved(text, host)) == RemoveFromLine(Parsed(addr, text), host)
  {
    var words := Fields(text);
    OneParsed(addr, text);
    if !IsOther(words) {
      var keep := Without(words[1..], host);
      WithoutLength(words[1..], host);
      if host in words[1..] && keep != [] {
        var written := Rendered(words[0], Joined(keep));
        RemovedWords(text, host);
        assert ([words[0]] + keep)[1..] == keep;
        OneParsed(addr, written);
      }
    }
  }

  lemma OneParsed(addr: string -> bool, text: string)
    ensures ParsedAll(addr, [text]) == [Parsed(addr, text)]
  {
    assert [text][..0] == [] && ParsedAll(addr, []) == [];
  }

  /** All lines of a file, in order, with a name taken out. */
  function TextsRemoved(texts: seq<string>, host: string): seq<string> {
    if texts == [] then [] else TextsRemoved(texts[..|texts| - 1], host) + TextRemoved(texts[|texts| - 1], host)
  }

  lemma {:induction false} ParsedSum(addr: string -> bool, a: seq<string>, b: seq<string>)
    ensures ParsedAll(addr, a + b) == ParsedAll(addr, a) + ParsedAll(addr, b)
    decreases |b|
  {
    if b == [] {
      assert a + b == a;
    } else {
      assert (a + b)[..|a + b| - 1] == a + b[..|b| - 1];
      ParsedSum(addr, a, b[..|b| - 1]);
    }
  }

  /** Writing a file's lines anew without a name, and reading them, is taking the name out of the zone. */
  lemma {:induction false} RemoveIsRead(addr: string -> bool, texts: seq<string>, host: string)
    ensures ParsedAll(addr, TextsRemoved(texts, host)) == Removed(ParsedAll(addr, texts), host)
  {
    if texts != [] {
      var front, last := texts[..|texts| - 1], texts[|texts| - 1];
      RemoveIsRead(addr, front, host);
      RemovedLine(addr, last, host);
      ParsedSum(addr, TextsRemoved(front, host), TextRemoved(last, host));
    }
  }

  /** And writing a line behind the others and reading them all is adding the record to the zone. */
  lemma AddIsRead(addr: string -> bool, texts: seq<string>, ip: string, host: string)
    requires AreAddresses(addr) && addr(ip)
    ensures ParsedAll(addr, texts + [Rendered(ip, host)]) == ParsedAll(addr, texts) + [Filed(ip, host)]
  {
    AddedLine(addr, ip, host);
    OneParsed(addr, Rendered(ip, host));
    ParsedSum(addr, texts, [Rendered(ip, host)]);
  }
}
