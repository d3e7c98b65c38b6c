/** Lines and names as text: the words of a line, the labels of a name. */
module DnsText {

  // ---- Words ----

  /** Unicode's white space. */
  predicate IsSpace(c: char) {
    || c as int in [9, 10, 11, 12, 13, 32, 0x85, 0xA0, 0x1680, 0x2028, 0x2029, 0x202F, 0x205F, 0x3000]
    || 0x2000 <= c as int <= 0x200A
  }

  predicate SpaceFree(s: string) {
    forall c | c in s :: !IsSpace(c)
  }

  /** How much of the text comes before its first white space. */
  function WordLength(s: string): (n: nat)
    ensures n <= |s| && SpaceFree(s[..n]) && (n < |s| ==> IsSpace(s[n]))
  {
    if s == "" || IsSpace(s[0]) then 0
    else
      var n := WordLength(s[1..]) + 1;
      assert s[..n] == [s[0]] + s[1..][..n - 1];
      n
  }

  /** The words of a text, at any white space. */
  function Fields(s: string): seq<string>
    decreases |s|
  {
    if s == "" then []
    else if IsSpace(s[0]) then Fields(s[1..])
    else [s[..WordLength(s)]] + Fields(s[WordLength(s)..])
  }

  lemma {:induction false} WordLengthIs(s: string, n: nat)
    requires n <= |s| && SpaceFree(s[..n]) && (n < |s| ==> IsSpace(s[n]))
    ensures WordLength(s) == n
  {
    if n > 0 {
      assert s[..n][0] == s[0] && s[..n][1..] == s[1..][..n - 1];
      WordLengthIs(s[1..], n - 1);
    }
  }

  /** White space keeps the words on its two sides apart. */
  lemma {:induction false} FieldsSplit(a: string, c: char, b: string)
    requires IsSpace(c)
    ensures Fields(a + [c] + b) == Fields(a) + Fields(b)
    decreases |a|
  {
    var s := a + [c] + b;
    if a == "" {
      assert s[1..] == b;
    } else if IsSpace(a[0]) {
      assert s[1..] == a[1..] + [c] + b;
      FieldsSplit(a[1..], c, b);
    } else {
      var n := WordLength(a);
      assert s[..n] == a[..n] && s[n..] == a[n..] + [c] + b;
      WordLengthIs(s, n);
      FieldsSplit(a[n..], c, b);
    }
  }

  lemma OneWord(w: string)
    requires w != "" && SpaceFree(w)
    ensures Fields(w) == [w]
  {
    assert w[..|w|] == w;
    WordLengthIs(w, |w|);
  }

  lemma {:induction false} WordsArePlain(s: string)
    ensures forall w | w in Fields(s) :: w != "" && SpaceFree(w)
    decreases |s|
  {
    if s != "" {
      if IsSpace(s[0]) {
        WordsArePlain(s[1..]);
      } else {
        WordsArePlain(s[WordLength(s)..]);
      }
    }
  }

  /** A text is its own only word exactly when it has no white space. */
  lemma OnlyWordIff(s: string)
    ensures Fields(s) == [s] <==> s != "" && SpaceFree(s)
  {
    if Fields(s) == [s] {
      WordsArePlain(s);
      assert s in Fields(s);
    }
    if s != "" && SpaceFree(s) { OneWord(s); }
  }

  function Joined(words: seq<string>): string {
    if words == [] then "" else if |words| == 1 then words[0] else words[0] + " " + Joined(words[1..])
  }

  lemma {:induction false} JoinedFields(words: seq<string>)
    requires forall w | w in words :: w != "" && SpaceFree(w)
    ensures Fields(Joined(words)) == words
  {
    if words != [] {
      assert words[0] in words && forall w | w in words[1..] :: w in words;
      OneWord(words[0]);
      JoinedFields(words[1..]);
      if |words| > 1 { FieldsSplit(words[0], ' ', Joined(words[1..])); }
    }
  }

  // ---- A line as it is written ----

  function Spaces(n: nat): (s: string)
    ensures |s| == n && forall c | c in s :: c == ' '
  {
    seq(n, i => ' ')
  }

  /** The first word in a column of twenty, then the rest. */
  function Rendered(first: string, rest: string): string {
    first + Spaces(if |first| < 20 then 20 - |first| else 0) + " " + rest
  }

  lemma {:induction false} Padded(w: string, n: nat)
    requires w != "" && SpaceFree(w)
    ensures Fields(w + Spaces(n)) == [w]
  {
    if n == 0 {
      assert w + Spaces(0) == w;
      OneWord(w);
    } else {
      assert w + Spaces(n) == w + Spaces(n - 1) + [' '] + "";
      Padded(w, n - 1);
      FieldsSplit(w + Spaces(n - 1), ' ', "");
    }
  }

  /** What is written is read back word by word, whatever stands behind the first. */
  lemma RenderedFields(first: string, rest: string)
    requires first != "" && SpaceFree(first)
    ensures Fields(Rendered(first, rest)) == [first] + Fields(rest)
  {
    var n := if |first| < 20 then 20 - |first| else 0;
    Padded(first, n);
    FieldsSplit(first + Spaces(n), ' ', rest);
  }

  // ---- Labels ----

  /** The labels of a name, between its dots. */
  function Labels(s: string): (r: seq<string>)
    ensures r != []
  {
    if s == "" then [""]
    else
      var rest := Labels(s[1..]);
      if s[0] == '.' then [""] + rest else [[s[0]] + rest[0]] + rest[1..]
  }

  function Dotted(labels: seq<string>): string
    requires labels != []
  {
    if |labels| == 1 then labels[0] else labels[0] + "." + Dotted(labels[1..])
  }

  lemma {:induction false} DottedLabels(s: string)
    ensures Dotted(Labels(s)) == s
  {
    if s != "" {
      var rest := Labels(s[1..]);
      DottedLabels(s[1..]);
      if s[0] == '.' {
        assert ([""] + rest)[1..] == rest && "" + "." + Dotted(rest) == s;
      } else {
        var all := [[s[0]] + rest[0]] + rest[1..];
        assert all[1..] == rest[1..] && s == [s[0]] + s[1..];
        if |rest| > 1 { assert [s[0]] + (rest[0] + "." + Dotted(rest[1..])) == ([s[0]] + rest[0]) + "." + Dotted(rest[1..]); }
      }
    }
  }

  lemma {:induction false} LabelsOfSum(a: string, b: string)
    ensures Labels(a + "." + b) == Labels(a) + Labels(b)
  {
    var s := a + "." + b;
    if a == "" {
      assert s[1..] == b;
    } else {
      assert s[1..] == a[1..] + "." + b && s[0] == a[0];
      LabelsOfSum(a[1..], b);
      FirstLabel(a[0], Labels(a[1..]), Labels(b));
    }
  }

  lemma FirstLabel(c: char, x: seq<string>, y: seq<string>)
    requires x != []
    ensures [""] + (x + y) == [""] + x + y
    ensures [[c] + (x + y)[0]] + (x + y)[1..] == [[c] + x[0]] + x[1..] + y
  {
    assert (x + y)[1..] == x[1..] + y;
  }

  lemma {:induction false} DottedSum(a: seq<string>, b: seq<string>)
    requires a != [] && b != []
    ensures Dotted(a + b) == Dotted(a) + "." + Dotted(b)
  {
    if |a| == 1 {
      assert (a + b)[1..] == b;
    } else {
      assert (a + b)[1..] == a[1..] + b;
      DottedSum(a[1..], b);
      assert a[0] + "." + (Dotted(a[1..]) + "." + Dotted(b)) == a[0] + "." + Dotted(a[1..]) + "." + Dotted(b);
    }
  }
}
