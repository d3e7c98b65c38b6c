/** Zone files of the hosts ConfigMap and the edits made to them. */
module DnsZones {
  import opened Basics
  import opened DnsText
  import opened SortedStrings

  /** One line of a zone file: a record; a line with a first word that is no address, which does not
      answer but is edited like a record; or a comment, a blank or a single word. */
  datatype Line = Record(ip: string, names: Names) | Loose(word: string, names: Names) | Other(text: string)

  /** What stands behind the first word of a line that has more. */
  type Names = n: seq<string> | n != [] witness [""]

  type Zone = seq<Line>

  type Data = map<string, Zone>

  predicate Answers(l: Line, host: string) {
    l.Record? && host in l.names
  }

  function Lookup(z: Zone, host: string): Option<string> {
    if z == [] then None
    else if Answers(z[0], host) then Some(z[0].ip)
    else Lookup(z[1..], host)
  }

  predicate HasRecords(data: Data) {
    exists k | k in data :: exists i | 0 <= i < |data[k]| :: data[k][i].Record?
  }

  /** Some name is answered from some zone file. */
  ghost predicate Answering(data: Data) {
    exists k, host :: k in data && Lookup(data[k], host).Some?
  }

  lemma {:induction false} AnswersSomewhere(z: Zone, host: string)
    ensures Lookup(z, host).Some? <==> exists i :: 0 <= i < |z| && Answers(z[i], host)
  {
    if z != [] && !Answers(z[0], host) {
      AnswersSomewhere(z[1..], host);
      forall i | 0 <= i < |z| && Answers(z[i], host) ensures Answers(z[1..][i - 1], host) {}
      forall i | 0 <= i < |z| - 1 && Answers(z[1..][i], host) ensures Answers(z[i + 1], host) {}
    } else if z != [] {
      assert Answers(z[0], host);
    }
  }

  /** There are records exactly when something is answered. */
  lemma HasRecordsIff(data: Data)
    ensures HasRecords(data) <==> Answering(data)
  {
    if HasRecords(data) {
      var k :| k in data && exists i | 0 <= i < |data[k]| :: data[k][i].Record?;
      var i :| 0 <= i < |data[k]| && data[k][i].Record?;
      var host := data[k][i].names[0];
      assert Answers(data[k][i], host);
      AnswersSomewhere(data[k], host);
    }
    if Answering(data) {
      var k, host :| k in data && Lookup(data[k], host).Some?;
      AnswersSomewhere(data[k], host);
      var i :| 0 <= i < |data[k]| && Answers(data[k][i], host);
      assert data[k][i].Record?;
    }
  }

  predicate Mentions(l: Line, host: string) {
    !l.Other? && host in l.names
  }

  predicate ZoneMentions(z: Zone, host: string) {
    exists i | 0 <= i < |z| :: Mentions(z[i], host)
  }

  function Without(names: seq<string>, host: string): seq<string> {
    if names == [] then []
    else (if names[0] == host then [] else [names[0]]) + Without(names[1..], host)
  }

  lemma {:induction false} WithoutMembers(names: seq<string>, host: string)
    ensures forall n :: n in Without(names, host) <==> n in names && n != host
    ensures host !in names ==> Without(names, host) == names
  {
    if names != [] {
      WithoutMembers(names[1..], host);
      assert names == [names[0]] + names[1..];
    }
  }

  /** A line that carried several names keeps the rest; one left with none goes away. */
  function RemoveFromLine(l: Line, host: string): Zone {
    if !Mentions(l, host) then [l]
    else
      var keep := Without(l.names, host);
      if keep == [] then [] else [if l.Record? then Record(l.ip, keep) else Loose(l.word, keep)]
  }

  function Removed(z: Zone, host: string): Zone {
    if z == [] then [] else Removed(z[..|z| - 1], host) + RemoveFromLine(z[|z| - 1], host)
  }

  lemma OneMoreLine(z: Zone, l: Line, host: string)
    ensures Removed(z + [l], host) == Removed(z, host) + RemoveFromLine(l, host)
    ensures ZoneMentions(z + [l], host) <==> ZoneMentions(z, host) || Mentions(l, host)
  {
    var more := z + [l];
    assert more[..|more| - 1] == z && more[|z|] == l;
    if ZoneMentions(z, host) {
      var i :| 0 <= i < |z| && Mentions(z[i], host);
      assert Mentions(more[i], host);
    }
  }

  method Remove(z: Zone, host: string) returns (next: Zone, removed: bool)
    ensures removed == ZoneMentions(z, host)
    ensures next == if removed then Removed(z, host) else z
  {
    var lines := [];
    removed := false;
    for i := 0 to |z|
      invariant lines == Removed(z[..i], host)
      invariant removed <==> ZoneMentions(z[..i], host)
    {
      assert z[..i + 1] == z[..i] + [z[i]];
      OneMoreLine(z[..i], z[i], host);
      if Mentions(z[i], host) { removed := true; }
      lines := lines + RemoveFromLine(z[i], host);
    }
    assert z[..|z|] == z;
    return if removed then lines else z, removed;
  }

  predicate IsHostname(host: string) {
    host != "" && forall c | c in host :: c !in " \t\n\r#" && c as int !in {11, 12}
  }

  /** Among plain ASCII names those pass that are one word of a line and have no comment sign; other characters
      always pass. */
  lemma HostnameIff(host: string)
    ensures IsHostname(host)
      <==> host != "" && forall c | c in host :: c as int >= 128 || (!IsSpace(c) && c != '#')
  {
    forall c | c in host ensures (c !in " \t\n\r#" && c as int !in {11, 12}) <==> c as int >= 128 || (!IsSpace(c) && c != '#') {
      SignIff(c);
    }
  }

  lemma SignIff(c: char)
    ensures (c !in " \t\n\r#" && c as int !in {11, 12}) <==> c as int >= 128 || (!IsSpace(c) && c != '#')
  {}

  /** What the line written for a name is read as: its words, at any white space, behind the address. */
  function Filed(ip: string, host: string): Line {
    if Fields(host) == [] then Other(Rendered(ip, host)) else Record(ip, Fields(host))
  }

  /** Appends one record line, unless the zone already answers for the name. */
  function Added(z: Zone, ip: string, host: string): Option<Zone> {
    if !IsHostname(host) || Lookup(z, host).Some? then None else Some(z + [Filed(ip, host)])
  }

  // ---- What an edit does to what the zone answers ----

  lemma {:induction false} LookupAppend(a: Zone, b: Zone, host: string)
    ensures Lookup(a + b, host) == if Lookup(a, host).Some? then Lookup(a, host) else Lookup(b, host)
  {
    if a == [] {
      assert a + b == b;
    } else {
      assert (a + b)[1..] == a[1..] + b;
      LookupAppend(a[1..], b, host);
    }
  }

  lemma LineAfterRemove(l: Line, host: string, other: string)
    ensures Lookup(RemoveFromLine(l, host), host) == None
    ensures other != host ==> Lookup(RemoveFromLine(l, host), other) == Lookup([l], other)
  {
    if !l.Other? { WithoutMembers(l.names, host); }
  }

  /** Removing a name leaves it unanswered. */
  lemma {:induction false} RemoveUnanswers(z: Zone, host: string)
    ensures Lookup(Removed(z, host), host) == None
  {
    if z != [] {
      var front, last := z[..|z| - 1], z[|z| - 1];
      RemoveUnanswers(front, host);
      LineAfterRemove(last, host, host);
      LookupAppend(Removed(front, host), RemoveFromLine(last, host), host);
    }
  }

  /** Removing a name leaves every other name as it was. */
  lemma {:induction false} RemoveKeepsOthers(z: Zone, host: string, other: string)
    requires other != host
    ensures Lookup(Removed(z, host), other) == Lookup(z, other)
  {
    if z != [] {
      var front, last := z[..|z| - 1], z[|z| - 1];
      RemoveKeepsOthers(front, host, other);
      LineAfterRemove(last, host, other);
      assert Removed(z, host) == Removed(front, host) + RemoveFromLine(last, host);
      LookupAppend(Removed(front, host), RemoveFromLine(last, host), other);
      assert z == front + [last];
      LookupAppend(front, [last], other);
    }
  }

  lemma {:induction false} RemoveAbsent(z: Zone, host: string)
    requires !ZoneMentions(z, host)
    ensures Removed(z, host) == z
  {
    if z != [] {
      var front := z[..|z| - 1];
      forall i | 0 <= i < |front| ensures !Mentions(front[i], host) {
        assert front[i] == z[i];
      }
      RemoveAbsent(front, host);
      assert z == front + [z[|z| - 1]];
    }
  }

  lemma {:induction false} LookupNeedsMention(z: Zone, host: string)
    ensures Lookup(z, host).Some? ==> ZoneMentions(z, host)
  {
    if z != [] && !Answers(z[0], host) {
      LookupNeedsMention(z[1..], host);
      if ZoneMentions(z[1..], host) {
        var i :| 0 <= i < |z| - 1 && Mentions(z[1..][i], host);
        assert Mentions(z[i + 1], host);
      }
    } else if z != [] {
      assert Mentions(z[0], host);
    }
  }

  /** A record filed and taken out again leaves the zone exactly as it was, if and only if the name has no
      white space. */
  lemma AddThenRemove(z: Zone, ip: string, host: string)
    requires IsHostname(host) && !ZoneMentions(z, host)
    ensures Added(z, ip, host) == Some(z + [Filed(ip, host)])
    ensures Removed(Added(z, ip, host).value, host) == z <==> SpaceFree(host)
  {
    LookupNeedsMention(z, host);
    RemoveAbsent(z, host);
    OnlyWordIff(host);
    var l := Filed(ip, host);
    assert (z + [l])[..|z|] == z;
    assert Removed(z + [l], host) == z + RemoveFromLine(l, host);
    if SpaceFree(host) {
      NothingLeft(host);
      assert l == Record(ip, [host]) && RemoveFromLine(l, host) == [];
    } else {
      NotAmongWords(host);
      assert RemoveFromLine(l, host) == [l] && |z + [l]| != |z|;
    }
  }

  lemma NothingLeft(host: string)
    ensures Without([host], host) == []
  {
    assert Without([host], host) == [] + Without([host][1..], host);
  }

  /** A name with white space in it is none of its words. */
  lemma NotAmongWords(host: string)
    requires !SpaceFree(host)
    ensures host !in Fields(host)
  {
    WordsArePlain(host);
  }

  /** A record filed answers, if and only if the name has no white space; and every name that is no word of it
      answers as before. */
  lemma AddAnswers(z: Zone, ip: string, host: string, other: string)
    requires Added(z, ip, host).Some?
    ensures var after := Added(z, ip, host).value;
      && Lookup(after, host) == (if SpaceFree(host) then Some(ip) else None)
      && (other !in Fields(host) ==> Lookup(after, other) == Lookup(z, other))
  {
    var l := Filed(ip, host);
    LookupAppend(z, [l], host);
    LookupAppend(z, [l], other);
    OneLine(l, host);
    OneLine(l, other);
    OnlyWordIff(host);
    if !SpaceFree(host) { NotAmongWords(host); }
  }

  lemma OneLine(l: Line, host: string)
    ensures Lookup([l], host) == if Answers(l, host) then Some(l.ip) else None
  {
    assert Lookup([l][1..], host) == None;
  }

  const NO_BREAK_SPACE: char := 0xA0 as char
  const SPACED: string := "a" + [NO_BREAK_SPACE] + "b"

  lemma SpacedWords()
    ensures Fields(SPACED) == ["a", "b"]
  {
    OneWord("a");
    OneWord("b");
    FieldsSplit("a", NO_BREAK_SPACE, "b");
  }

  lemma SpacedHostname()
    ensures IsHostname(SPACED) && NO_BREAK_SPACE in SPACED && !SpaceFree(SPACED)
  {
    assert SPACED[1] == NO_BREAK_SPACE;
  }

  /** A name with a no-break space passes for a hostname, and is filed as two names, neither of which it is. */
  lemma NoBreakSpaceWitness(ip: string)
    ensures IsHostname(SPACED) && Added([], ip, SPACED) == Some([Record(ip, ["a", "b"])])
    ensures Lookup([Record(ip, ["a", "b"])], SPACED) == None
  {
    SpacedWords();
    SpacedHostname();
    AddAnswers([], ip, SPACED, SPACED);
    assert [] + [Filed(ip, SPACED)] == [Record(ip, ["a", "b"])];
  }

  // ---- The zone a hostname belongs in ----

  predicate HasSuffix(s: string, suffix: string) {
    |suffix| <= |s| && s[|s| - |suffix|..] == suffix
  }

  predicate InZone(host: string, zone: string) {
    host == zone || HasSuffix(host, "." + zone)
  }

  /** A host is in a zone if and only if its last labels are the zone's. */
  lemma InZoneIff(host: string, zone: string)
    ensures InZone(host, zone) <==> exists front :: Labels(host) == front + Labels(zone)
  {
    if InZone(host, zone) { var front := LabelsInZone(host, zone); }
    if front :| Labels(host) == front + Labels(zone) { LabelsPutInZone(host, zone, front); }
  }

  lemma LabelsInZone(host: string, zone: string) returns (front: seq<string>)
    requires InZone(host, zone)
    ensures Labels(host) == front + Labels(zone)
  {
    front := [];
    if host != zone {
      var start := host[..|host| - |zone| - 1];
      assert host == start + "." + zone;
      LabelsOfSum(start, zone);
      front := Labels(start);
    }
  }

  lemma LabelsPutInZone(host: string, zone: string, front: seq<string>)
    requires Labels(host) == front + Labels(zone)
    ensures InZone(host, zone)
  {
    DottedLabels(host);
    DottedLabels(zone);
    if front == [] {
      assert front + Labels(zone) == Labels(zone);
    } else {
      DottedSum(front, Labels(zone));
      BehindDot(host, Dotted(front), zone);
    }
  }

  lemma BehindDot(host: string, start: string, zone: string)
    requires host == start + "." + zone
    ensures InZone(host, zone)
  {
    assert host[|start|..] == "." + zone;
  }

  lemma ZoneIsSuffix(host: string, zone: string)
    requires InZone(host, zone)
    ensures |zone| <= |host| && host[|host| - |zone|..] == zone
  {
    if host != zone {
      assert host[|host| - |zone|..] == host[|host| - (|zone| + 1)..][1..];
    }
  }

  /** The best zone for a host: of those it is in, a longest one; "" when there is none. */
  ghost predicate BestZone(host: string, zones: set<string>, best: string) {
    && (best != "" ==> best in zones && best != "." && InZone(host, best))
    && forall z | z in zones && z != "." && InZone(host, z) :: |z| <= |best|
  }

  /** There is only one best zone, in whatever order the bindings come. */
  lemma BestZoneIsUnique(host: string, zones: set<string>, a: string, b: string)
    requires BestZone(host, zones, a) && BestZone(host, zones, b)
    ensures a == b
  {
    if a != "" && b != "" {
      ZoneIsSuffix(host, a);
      ZoneIsSuffix(host, b);
    }
  }

  method ZoneKeyFor(host: string, bindings: map<string, string>) returns (zone: string, key: Option<string>)
    ensures exists best :: BestZone(host, bindings.Keys, best) && zone == if best == "" then "." else best
    ensures key == if zone in bindings then Some(bindings[zone]) else None
  {
    var best, todo := "", bindings.Keys;
    while todo != {}
      invariant todo <= bindings.Keys && BestZone(host, bindings.Keys - todo, best)
    {
      var z :| z in todo;
      todo := todo - {z};
      if z != "." && InZone(host, z) && |z| > |best| { best := z; }
    }
    assert bindings.Keys - todo == bindings.Keys;
    zone := if best != "" then best else ".";
    key := if zone in bindings then Some(bindings[zone]) else None;
  }

  datatype Refusal = NoZone | NoSuchKey | Conflict(zone: string) | NotAHostname | NotRegistered

  datatype Edit = Edited(data: Data) | NoChange | Refused(why: Refusal)

  ghost predicate ServedByBest(host: string, bindings: map<string, string>, key: string) {
    exists best :: BestZone(host, bindings.Keys, best) && Binds(bindings, if best == "" then "." else best, key)
  }

  /** The zone file an add goes to: the one bound to the zone the flag names, or without a flag the
      one that serves the best zone; it must exist. */
  ghost predicate IsZoneKey(bindings: map<string, string>, data: Data, host: string, flag: string, key: string) {
    key in data && if flag != "" then Binds(bindings, flag, key) else key != "" && ServedByBest(host, bindings, key)
  }

  lemma BestServes(host: string, bindings: map<string, string>, zone: string)
    requires exists best :: BestZone(host, bindings.Keys, best) && zone == if best == "" then "." else best
    ensures forall k :: ServedByBest(host, bindings, k) <==> Binds(bindings, zone, k)
  {
    var best :| BestZone(host, bindings.Keys, best) && zone == if best == "" then "." else best;
    forall k | ServedByBest(host, bindings, k) ensures Binds(bindings, zone, k) {
      var other :| BestZone(host, bindings.Keys, other) && Binds(bindings, if other == "" then "." else other, k);
      BestZoneIsUnique(host, bindings.Keys, best, other);
    }
  }

  /** There is at most one, and it is found whenever there is one. */
  method ZoneKey(bindings: map<string, string>, data: Data, host: string, flag: string) returns (key: Option<string>)
    ensures forall k :: key == Some(k) <==> IsZoneKey(bindings, data, host, flag, k)
  {
    var k := "";
    if flag != "" {
      if flag !in bindings { return None; }
      k := bindings[flag];
    } else {
      var zone, found := ZoneKeyFor(host, bindings);
      BestServes(host, bindings, zone);
      if found.None? || found.value == "" { return None; }
      k := found.value;
      assert Binds(bindings, zone, k);
    }
    return if k in data then Some(k) else None;
  }

  predicate Binds(bindings: map<string, string>, zone: string, key: string) {
    zone in bindings && bindings[zone] == key
  }

  // ---- The two edits ----

  predicate Conflicts(data: Data, key: string, host: string, ip: string)
    requires key in data
  {
    var have := Lookup(data[key], host);
    have.Some? && have.value != ip
  }

  predicate Matches(data: Data, key: string, host: string, ip: string)
    requires key in data
  {
    Lookup(data[key], host) == Some(ip)
  }

  ghost predicate FirstConflict(data: Data, key: string, host: string, ip: string) {
    && key in data && Conflicts(data, key, host, ip)
    && forall k | k in data && Conflicts(data, k, host, ip) :: Leq(key, k)
  }

  /** What filing host -> ip under key comes to. */
  ghost function AddOutcome(data: Data, key: Option<string>, host: string, ip: string): Edit
    requires key.Some? ==> key.value in data
  {
    if key.None? then Refused(NoZone)
    else if exists k :: FirstConflict(data, k, host, ip) then
      var k :| FirstConflict(data, k, host, ip);
      Refused(Conflict(k))
    else if exists k :: k in data && Matches(data, k, host, ip) then NoChange
    else if !IsHostname(host) then Refused(NotAHostname)
    else Edited(data[key.value := data[key.value] + [Filed(ip, host)]])
  }

  lemma FirstConflictWins(data: Data, key: string, k: string, host: string, ip: string)
    requires key in data && FirstConflict(data, k, host, ip)
    ensures AddOutcome(data, Some(key), host, ip) == Refused(Conflict(k))
  {
    forall other | FirstConflict(data, other, host, ip) ensures other == k {
      assert Conflicts(data, k, host, ip) && Conflicts(data, other, host, ip);
      LeqAntisymmetric(k, other);
    }
  }

  /** Files host -> ip under key. A conflict anywhere outranks a match anywhere; a match is no change. */
  method AddEdit(data: Data, key: Option<string>, host: string, ip: string) returns (r: Edit)
    requires key.Some? ==> key.value in data
    ensures r == AddOutcome(data, key, host, ip)
    ensures key.None? <==> r == Refused(NoZone)
    ensures key.Some? ==> ((r.Refused? && r.why.Conflict?) <==> exists k :: k in data && Conflicts(data, k, host, ip))
    ensures r.NoChange? <==> key.Some? && (exists k :: k in data && Matches(data, k, host, ip))
                             && !exists k :: k in data && Conflicts(data, k, host, ip)
    ensures r.Edited? <==> key.Some? && IsHostname(host) && forall k | k in data :: Lookup(data[k], host).None?
    ensures r.Edited? ==> r.data == data[key.value := data[key.value] + [Filed(ip, host)]]
  {
    if key.None? { return Refused(NoZone); }
    var keys := SortedKeys(data);
    var matched := false;
    for i := 0 to |keys|
      invariant forall j | 0 <= j < i :: !Conflicts(data, keys[j], host, ip)
      invariant matched <==> exists j :: 0 <= j < i && Matches(data, keys[j], host, ip)
    {
      var have := Lookup(data[keys[i]], host);
      if have.Some? {
        if have.value != ip {
          FirstFound(data, keys, i, host, ip);
          FirstConflictWins(data, key.value, keys[i], host, ip);
          return Refused(Conflict(keys[i]));
        }
        assert Matches(data, keys[i], host, ip);
        matched := true;
      }
    }
    forall k | k in data ensures !Conflicts(data, k, host, ip) && (!matched ==> Lookup(data[k], host).None?) {
      assert k in keys;
      var j :| 0 <= j < |keys| && keys[j] == k;
      assert !matched ==> !Matches(data, keys[j], host, ip);
    }
    if matched { return NoChange; }
    assert Lookup(data[key.value], host).None?;
    var next := Added(data[key.value], ip, host);
    if next.None? { return Refused(NotAHostname); }
    return Edited(data[key.value := next.value]);
  }

  lemma FirstFound(data: Data, keys: seq<string>, i: nat, host: string, ip: string)
    requires i < |keys| && Sorted(keys) && forall k :: k in keys <==> k in data
    requires Conflicts(data, keys[i], host, ip) && forall j | 0 <= j < i :: !Conflicts(data, keys[j], host, ip)
    ensures FirstConflict(data, keys[i], host, ip)
  {
    LeqTotal(keys[i], keys[i]);
    forall k | k in data && Conflicts(data, k, host, ip) ensures Leq(keys[i], k) {
      assert k in keys;
      var j :| 0 <= j < |keys| && keys[j] == k;
      assert j >= i;
    }
  }

  predicate SomeMention(data: Data, keys: set<string>, host: string) {
    exists k | k in keys :: k in data && ZoneMentions(data[k], host)
  }

  /** Takes a name out of every zone file that carries it. */
  method RmEdit(data: Data, host: string) returns (r: Edit)
    ensures r.Edited? <==> SomeMention(data, data.Keys, host)
    ensures r.Edited? || r == Refused(NotRegistered)
    ensures r.Edited? ==> r.data == Cleaned(data, host, data.Keys)
  {
    var keys := SortedKeys(data);
    var next, removed := RemoveInEach(data, keys, host);
    return if removed == 0 then Refused(NotRegistered) else Edited(next);
  }

  ghost predicate IsPrefix(keys: seq<string>, i: nat, done: set<string>) {
    i <= |keys| && forall k :: k in done <==> k in keys[..i]
  }

  lemma NextKey(keys: seq<string>, i: nat, done: set<string>)
    requires i < |keys| && Distinct(keys) && IsPrefix(keys, i, done)
    ensures keys[i] !in done && IsPrefix(keys, i + 1, done + {keys[i]})
  {
    assert keys[..i + 1] == keys[..i] + [keys[i]];
  }

  lemma AllKeys(data: Data, keys: seq<string>, done: set<string>)
    requires (forall k :: k in keys <==> k in data) && IsPrefix(keys, |keys|, done)
    ensures done == data.Keys
  {
    assert keys[..|keys|] == keys;
  }

  method RemoveInEach(data: Data, keys: seq<string>, host: string) returns (next: Data, removed: nat)
    requires Distinct(keys) && forall k :: k in keys <==> k in data
    ensures removed > 0 <==> SomeMention(data, data.Keys, host)
    ensures next == Cleaned(data, host, data.Keys)
  {
    next, removed := data, 0;
    ghost var done: set<string> := {};
    for i := 0 to |keys|
      invariant next == Cleaned(data, host, done)
      invariant IsPrefix(keys, i, done)
      invariant removed > 0 <==> SomeMention(data, done, host)
    {
      var key := keys[i];
      NextKey(keys, i, done);
      var zone, ok := Remove(next[key], host);
      CleanOneMore(data, host, done, key);
      if ok { next, removed := next[key := zone], removed + 1; }
      done := done + {key};
    }
    AllKeys(data, keys, done);
  }

  function Cleaned(data: Data, host: string, done: set<string>): Data {
    map k | k in data :: if k in done then Removed(data[k], host) else data[k]
  }

  lemma CleanOneMore(data: Data, host: string, done: set<string>, key: string)
    requires key in data
    ensures Cleaned(data, host, done + {key}) == Cleaned(data, host, done)[key := Removed(data[key], host)]
    ensures !ZoneMentions(data[key], host) && key !in done ==> Cleaned(data, host, done + {key}) == Cleaned(data, host, done)
    ensures SomeMention(data, done + {key}, host) <==> SomeMention(data, done, host) || ZoneMentions(data[key], host)
  {
    if !ZoneMentions(data[key], host) { RemoveAbsent(data[key], host); }
  }

  /** After an add the name answers with the address from its zone, if and only if it has no white space, and
      from no other; every name that is no word of it answers as before. */
  lemma AddEditAnswers(data: Data, key: string, host: string, ip: string, other: string, k: string)
    requires key in data && k in data && IsHostname(host) && forall j | j in data :: Lookup(data[j], host).None?
    ensures var after := data[key := data[key] + [Filed(ip, host)]];
      && Lookup(after[k], host) == (if k == key && SpaceFree(host) then Some(ip) else None)
      && (other !in Fields(host) ==> Lookup(after[k], other) == Lookup(data[k], other))
  {
    assert Added(data[key], ip, host).Some?;
    AddAnswers(data[key], ip, host, other);
  }

  /** After a rm the name answers from no zone, and every other name as before. */
  lemma RmEditAnswers(data: Data, host: string, other: string, k: string)
    requires k in data
    ensures Lookup(Removed(data[k], host), host) == None
    ensures other != host ==> Lookup(Removed(data[k], host), other) == Lookup(data[k], other)
  {
    RemoveUnanswers(data[k], host);
    if other != host { RemoveKeepsOthers(data[k], host, other); }
  }
}
