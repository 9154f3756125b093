/**
  How reply_hack scans the stretches an address list is made of: ordinary text, comments,
  quoted strings, and what stands in brackets.
 */
module ReplyText {
  import opened ReplyHackSpec
  import opened ReplyHack
  import opened CText

  // ----- Stretches of text -----

  /** Characters that mean nothing special to an address list. */
  predicate Ordinary(c: char) {
    c !in "\"(),<>"
  }

  predicate Names(c: char) {
    c == '@' || c == '!'
  }

  /** Only ordinary characters; and where the line ends, it is folded. */
  predicate Text(s: string) {
    && (forall i | 0 <= i < |s| :: Ordinary(s[i]))
    && forall i | 0 <= i < |s| && s[i] == '\n' :: i + 1 < |s| && s[i + 1] in " \t"
  }

  predicate NamesHost(s: string) {
    exists i | 0 <= i < |s| :: Names(s[i])
  }

  predicate Blank(s: string) {
    forall i | 0 <= i < |s| :: IsSpace(s[i])
  }

  /** The place behind the last character that is not blank. */
  function Trimmed(s: string): (n: nat)
    ensures n <= |s| && (n == 0 <==> Blank(s)) && (n > 0 ==> !IsSpace(s[n - 1]))
    ensures forall i | n <= i < |s| :: IsSpace(s[i])
  {
    if s == "" || !IsSpace(s[|s| - 1]) then |s| else Trimmed(s[..|s| - 1])
  }

  /** Parentheses open in the first `n` characters. */
  function Depth(s: string, n: nat): int
    requires n <= |s|
  {
    if n == 0 then 0 else Depth(s, n - 1) + if s[n - 1] == '(' then 1 else if s[n - 1] == ')' then -1 else 0
  }

  /** What may stand in parentheses. */
  predicate Comment(s: string) {
    && Depth(s, |s|) == 0 && (forall n | 0 <= n <= |s| :: Depth(s, n) >= 0)
    && (s != "" ==> s[|s| - 1] != ',')
  }

  /** What may stand in quotes: every quote in it is escaped, and the one at its end is not. */
  predicate Quotable(s: string) {
    && (forall i | 0 <= i < |s| && s[i] == '"' :: Backslashes(s, i) % 2 == 1)
    && Backslashes(s, |s|) % 2 == 0
  }

  // ----- One stretch scanned -----

  /** The scan is between characters of addresses; it did not just pass a comma. */
  predicate Amid(m: Scan) {
    && 0 < m.from <= |m.text| && m.depth == 0 && m.text[m.from - 1] != ','
    && (m.parensFrom.Some? ==> m.parensFrom.value < |m.text|)
  }

  predicate Holds(m: Scan, s: string) {
    m.from + |s| <= |m.text| && m.text[m.from..m.from + |s|] == s
  }

  ghost predicate Leads(m: Scan, n: Scan, host: string) {
    && m.from <= |m.text| && (m.parensFrom.Some? ==> m.parensFrom.value < |m.text|)
    && n.from <= |n.text| && (n.parensFrom.Some? ==> n.parensFrom.value < |n.text|)
    && Run(m, host) == Run(n, host)
  }

  lemma StepLeads(m: Scan, host: string)
    requires m.from < |m.text| && (m.parensFrom.Some? ==> m.parensFrom.value < |m.text|)
    ensures Leads(m, Step(m, host), host)
  {
    Advances(m, host);
    RunUnfolds(m, Step(m, host), host);
  }

  /** An ordinary character once the host is known, or in brackets. */
  lemma Skipped(m: Scan, host: string)
    requires Amid(m) && m.from < |m.text| && Ordinary(m.text[m.from])
    requires m.hasHost || (m.state == InBrackets && !Names(m.text[m.from]))
    ensures Step(m, host) == m.(from := m.from + 1)
  {
    hide InAddresses, WithHost;
  }

  lemma Named(m: Scan, host: string)
    requires Amid(m) && m.from < |m.text| && Names(m.text[m.from]) && !m.hasHost
    requires m.state == Addresses || m.state == InBrackets
    ensures Step(m, host) == m.(from := m.from + 1, hasHost := true,
                                lastNws := if m.state == Addresses then m.text[m.from] else m.lastNws)
  {
    hide BackUp, Insert;
  }

  /** An ordinary character of an address without brackets. */
  lemma Lettered(m: Scan, host: string)
    requires Amid(m) && m.from < |m.text| && Ordinary(m.text[m.from]) && !Names(m.text[m.from])
    requires !m.hasHost && m.state == Addresses && !HeaderEnd(m.text, m.from)
    ensures
      var c := m.text[m.from];
      var last := if IsSpace(c) then m.lastNws else c;
      var marks := At(m.text, m.from + 1) == '(' && m.hasBare && last != ';' && last != ')';
      Step(m, host) == m.(from := m.from + 1, lastNws := last, hasBare := m.hasBare || !IsSpace(c),
                          parensFrom := if marks then Some(m.from) else m.parensFrom)
  {
    hide BackUp, Insert, HeaderEnd, At;
  }

  // From the front, character by character.

  lemma FirstText(t: string)
    requires t != "" && Text(t)
    ensures Text(t[1..]) && Ordinary(t[0])
  {
    hide Ordinary;
    var r := t[1..];
    assert forall i | 0 <= i < |r| :: r[i] == t[i + 1];
    forall i | 0 <= i < |r| && r[i] == '\n' ensures i + 1 < |r| && r[i + 1] in " \t" {
      assert t[i + 1] == '\n' && t[i + 2] in " \t";
    }
  }

  lemma FirstBlank(t: string)
    requires t != ""
    ensures Blank(t) <==> IsSpace(t[0]) && Blank(t[1..])
  {
    hide IsSpace;
    var r := t[1..];
    assert forall i | 0 < i < |t| :: t[i] == r[i - 1];
    assert Blank(t) ==> forall i | 0 <= i < |r| :: r[i] == t[i + 1] && IsSpace(t[i + 1]);
  }

  lemma FirstNames(t: string)
    requires t != ""
    ensures NamesHost(t) <==> Names(t[0]) || NamesHost(t[1..])
  {
    hide Names;
    var r := t[1..];
    assert forall i | 0 < i < |t| :: t[i] == r[i - 1];
    if NamesHost(r) {
      var i :| 0 <= i < |r| && Names(r[i]);
      assert Names(t[i + 1]);
    }
  }

  lemma TrimmedIs(t: string, n: nat)
    requires n <= |t| && (n > 0 ==> !IsSpace(t[n - 1])) && forall i | n <= i < |t| :: IsSpace(t[i])
    ensures Trimmed(t) == n
  {
    hide IsSpace;
    var k := Trimmed(t);
    assert k > 0 ==> !IsSpace(t[k - 1]);
  }

  lemma FirstTrimmed(t: string)
    requires t != "" && !Blank(t)
    ensures Trimmed(t) == 1 + Trimmed(t[1..])
  {
    hide IsSpace;
    var r := t[1..];
    var n := Trimmed(r);
    assert forall i | 0 < i < |t| :: t[i] == r[i - 1];
    FirstBlank(t);
    TrimmedIs(t, n + 1);
  }

  /** The last character that is not blank, or else the one before. */
  function LastLetter(t: string, before: char): char {
    if Blank(t) then before else t[Trimmed(t) - 1]
  }

  /** The scan at the end of a text. */
  ghost predicate TextRead(m: Scan, n: Scan, t: string) {
    && n.text == m.text && n.from == m.from + |t| && n.state == m.state && Amid(n)
    && n.hasHost == (m.hasHost || NamesHost(t))
    && (m.hasHost || (!n.hasHost && m.state == InBrackets) ==> n == m.(from := m.from + |t|))
    && (!n.hasHost && m.state == Addresses ==>
          && n.hasBare == (m.hasBare || !Blank(t)) && n.lastNws == LastLetter(t, m.lastNws)
          && n.parensFrom == if MarksComment(m, t) then Some(m.from + |t| - 1) else m.parensFrom)
  }

  /** A comment follows directly, and the name before has at least two characters. */
  ghost predicate MarksComment(m: Scan, t: string) {
    && t != "" && At(m.text, m.from + |t|) == '(' && (m.hasBare || !Blank(t[..|t| - 1]))
    && LastLetter(t, m.lastNws) != ';' && LastLetter(t, m.lastNws) != ')'
  }

  /** One character of a text. */
  lemma TextStep(m: Scan, t: string, host: string) returns (n: Scan)
    requires Amid(m) && (m.state == Addresses || m.state == InBrackets) && t != "" && Text(t) && Holds(m, t)
    ensures Leads(m, n, host) && TextRead(m, n, [t[0]]) && Holds(n, t[1..])
  {
    var c := m.text[m.from];
    var s := m.text[m.from..m.from + |t|];
    assert c == s[0] && s == t;
    n := Step(m, host);
    StepLeads(m, host);
    assert t[1..] == m.text[m.from + 1..m.from + |t|];
    OneLetter(c, m.lastNws);
    if m.hasHost {
      Skipped(m, host);
    } else if Names(c) {
      Named(m, host);
    } else if m.state == InBrackets {
      Skipped(m, host);
    } else {
      NotHeaderEnd(m, t);
      Lettered(m, host);
    }
  }

  lemma OneLetter(c: char, before: char)
    ensures Blank([c]) == IsSpace(c) && NamesHost([c]) == Names(c) && Blank([c][..0])
    ensures LastLetter([c], before) == if IsSpace(c) then before else c
  {
    assert [c][0] == c;
  }

  lemma NotHeaderEnd(m: Scan, t: string)
    requires t != "" && Text(t) && Holds(m, t)
    ensures !HeaderEnd(m.text, m.from)
  {
    var s := m.text[m.from..m.from + |t|];
    assert m.text[m.from] == s[0];
    if t[0] == '\n' {
      assert m.text[m.from + 1] == s[1];
    }
  }

  lemma {:induction false} TextRun(m: Scan, t: string, host: string) returns (n: Scan)
    requires Amid(m) && (m.state == Addresses || m.state == InBrackets) && Text(t) && Holds(m, t)
    ensures Leads(m, n, host) && TextRead(m, n, t)
    decreases |t|
  {
    hide Run, Text, Holds;
    if t == "" {
      n := m;
    } else {
      var k := TextStep(m, t, host);
      FirstText(t);
      n := TextRun(k, t[1..], host);
      TextJoins(m, k, n, t);
    }
  }

  lemma NoneOpens(m: Scan, t: string)
    requires Text(t) && Holds(m, t)
    ensures |t| > 1 ==> At(m.text, m.from + 1) != '('
  {
    var s := m.text[m.from..m.from + |t|];
    assert |t| > 1 ==> m.text[m.from + 1] == s[1] && Ordinary(s[1]);
  }

  lemma LastJoins(t: string, before: char)
    requires t != ""
    ensures LastLetter(t, before) == LastLetter(t[1..], LastLetter([t[0]], before))
  {
    hide IsSpace, Blank;
    FirstBlank(t);
    OneLetter(t[0], before);
    if !Blank(t) {
      FirstTrimmed(t);
    }
  }

  lemma MarksJoin(m: Scan, k: Scan, t: string)
    requires |t| > 1 && TextRead(m, k, [t[0]]) && !k.hasHost && m.state == Addresses
    ensures MarksComment(m, t) == MarksComment(k, t[1..])
  {
    hide IsSpace, Blank, LastLetter, Amid, NamesHost;
    LastJoins(t, m.lastNws);
    var u := t[..|t| - 1];
    FirstBlank(u);
    OneLetter(t[0], m.lastNws);
    assert u[1..] == t[1..][..|t| - 2];
  }

  lemma TextJoins(m: Scan, k: Scan, n: Scan, t: string)
    requires t != "" && TextRead(m, k, [t[0]]) && TextRead(k, n, t[1..]) && Text(t) && Holds(m, t)
    ensures TextRead(m, n, t)
  {
    NoneOpens(m, t);
    LastJoins(t, m.lastNws);
    FirstNames(t);
    FirstBlank(t);
    OneLetter(t[0], m.lastNws);
    if |t| > 1 && !k.hasHost && m.state == Addresses {
      MarksJoin(m, k, t);
    }
    assert |t| == 1 ==> [t[0]] == t && t[1..] == "";
    hide IsSpace, Names, Amid, Blank, NamesHost, Text, Holds, LastLetter, MarksComment;
  }

  // ----- Comments, quotes and brackets -----

  lemma InsideComment(k: Scan, host: string)
    requires k.from < |k.text| && (k.parensFrom.Some? ==> k.parensFrom.value < |k.text|) && k.state != InString
    requires k.depth + (if k.text[k.from] == '(' then 1 else if k.text[k.from] == ')' then -1 else 0) > 0
    ensures Step(k, host) == k.(from := k.from + 1, depth := Nested(k).depth)
  {
    hide Switched;
  }

  /** At the parenthesis that closes a comment. */
  lemma CommentCloses(k: Scan, host: string)
    requires Amid(k.(depth := 0)) && k.from < |k.text| && k.depth == 1 && k.text[k.from] == ')'
    requires k.state == Addresses || k.state == InBrackets
    ensures
      var n := k.(from := k.from + 1, depth := 0);
      Step(k, host) == if k.hasHost || k.state == InBrackets then n else n.(lastNws := ')', hasBare := true)
  {
    hide BackUp, Insert, HeaderEnd, At;
    NotEnd(k.text, k.from);
  }

  lemma NotEnd(s: string, i: nat)
    requires i < |s| && s[i] != '\n'
    ensures !HeaderEnd(s, i)
  {
  }

  lemma CommentChar(m: Scan, c: string, i: nat)
    requires Holds(m, "(" + c + ")") && i < |c| + 2
    ensures m.from + i < |m.text|
    ensures m.text[m.from + i] == if i == 0 then '(' else if i <= |c| then c[i - 1] else ')'
  {
    var s := m.text[m.from..m.from + |c| + 2];
    assert s == "(" + c + ")" && m.text[m.from + i] == s[i];
  }

  lemma {:induction false} CommentInside(m: Scan, c: string, i: nat, host: string) returns (k: Scan)
    requires Amid(m) && (m.state == Addresses || m.state == InBrackets) && Comment(c) && Holds(m, "(" + c + ")") && i <= |c|
    ensures k == m.(from := m.from + 1 + i, depth := 1 + Depth(c, i)) && Leads(m, k, host)
    decreases i
  {
    hide Run, Amid, Holds;
    if i == 0 {
      CommentChar(m, c, 0);
      AmidMeans(m);
      InsideComment(m, host);
      StepLeads(m, host);
      k := Step(m, host);
    } else {
      var j := CommentInside(m, c, i - 1, host);
      CommentChar(m, c, i);
      AmidMeans(m);
      assert Depth(c, i) >= 0;
      InsideComment(j, host);
      StepLeads(j, host);
      k := Step(j, host);
    }
  }

  lemma AmidMeans(m: Scan)
    requires Amid(m)
    ensures m.depth == 0 && m.from <= |m.text| && (m.parensFrom.Some? ==> m.parensFrom.value < |m.text|)
  {
  }

  /** A whole comment. */
  lemma CommentRun(m: Scan, c: string, host: string) returns (n: Scan)
    requires Amid(m) && (m.state == Addresses || m.state == InBrackets) && Comment(c) && Holds(m, "(" + c + ")")
    ensures Leads(m, n, host) && Amid(n)
    ensures
      var k := m.(from := m.from + |c| + 2);
      n == if m.hasHost || m.state == InBrackets then k else k.(lastNws := ')', hasBare := true)
  {
    hide Run, Holds, Depth;
    var k := CommentInside(m, c, |c|, host);
    CommentChar(m, c, |c|);
    CommentChar(m, c, |c| + 1);
    CommentCloses(k, host);
    StepLeads(k, host);
    n := Step(k, host);
  }

  lemma {:induction false} BackslashesIn(s: string, from: nat, q: string, i: nat)
    requires i <= |q| && from + i <= |s| && from > 0 && s[from - 1] != '\\'
    requires forall j | 0 <= j < i :: s[from + j] == q[j]
    ensures Backslashes(s, from + i) == Backslashes(q, i)
    decreases i
  {
    if i > 0 {
      BackslashesIn(s, from, q, i - 1);
    }
  }

  /** A character in quotes. */
  lemma InsideQuotes(k: Scan, host: string)
    requires 0 < k.from < |k.text| && k.state == InString && k.depth == 0 && !k.hasHost
    requires k.parensFrom.Some? ==> k.parensFrom.value < |k.text|
    ensures
      var n := Step(k, host);
      var closes := k.text[k.from] == '"' && Backslashes(k.text, k.from) % 2 == 0;
      && n.text == k.text && n.from == k.from + 1 && n.state == (if closes then Addresses else InString) && n.depth == 0
      && !n.hasHost && (n.parensFrom == k.parensFrom || n.parensFrom == None)
  {
    hide Backslashes;
  }

  lemma QuoteOpens(m: Scan, host: string)
    requires Amid(m) && m.from < |m.text| && m.text[m.from] == '"' && m.state == Addresses && !m.hasHost
    ensures Step(m, host) == m.(from := m.from + 1, state := InString, lastNws := '"')
  {
    hide BackUp, Insert, HeaderEnd, At;
  }

  lemma QuotedChar(m: Scan, q: string, i: nat)
    requires Holds(m, "\"" + q + "\"") && i < |q| + 2
    ensures m.from + i < |m.text| && m.text[m.from + i] == if i == 0 || i > |q| then '"' else q[i - 1]
  {
    var s := m.text[m.from..m.from + |q| + 2];
    assert s == "\"" + q + "\"" && m.text[m.from + i] == s[i];
  }

  /** The scan in quotes. */
  predicate Quoting(m: Scan, k: Scan, i: nat) {
    && k.text == m.text && k.from == m.from + 1 + i && k.depth == 0 && !k.hasHost && k.from <= |k.text|
    && (k.parensFrom.Some? ==> k.parensFrom.value < |k.text|)
  }

  lemma {:induction false} QuotesInside(m: Scan, q: string, i: nat, host: string) returns (k: Scan)
    requires Amid(m) && m.state == Addresses && !m.hasHost && Quotable(q) && Holds(m, "\"" + q + "\"") && i <= |q|
    ensures Quoting(m, k, i) && k.state == InString && Leads(m, k, host)
    decreases i
  {
    hide Run, Backslashes, Holds, Step;
    if i == 0 {
      QuotedChar(m, q, 0);
      QuoteOpens(m, host);
      StepLeads(m, host);
      k := Step(m, host);
    } else {
      var j := QuotesInside(m, q, i - 1, host);
      QuotedChar(m, q, i);
      QuotedChar(m, q, 0);
      forall b | 0 <= b < i ensures m.text[m.from + 1 + b] == q[b] {
        QuotedChar(m, q, b + 1);
      }
      BackslashesIn(m.text, m.from + 1, q, i - 1);
      InsideQuotes(j, host);
      StepLeads(j, host);
      k := Step(j, host);
    }
  }

  /** A quoted string: whatever it holds, the address has no host by it. */
  lemma QuotesRun(m: Scan, q: string, host: string) returns (n: Scan)
    requires Amid(m) && m.state == Addresses && !m.hasHost && Quotable(q) && Holds(m, "\"" + q + "\"")
    ensures Quoting(m, n, |q| + 1) && n.state == Addresses && Amid(n) && Leads(m, n, host)
  {
    hide Run, Backslashes, Holds, Step;
    var k := QuotesInside(m, q, |q|, host);
    QuotedChar(m, q, 0);
    QuotedChar(m, q, |q| + 1);
    forall b | 0 <= b < |q| ensures m.text[m.from + 1 + b] == q[b] {
      QuotedChar(m, q, b + 1);
    }
    BackslashesIn(m.text, m.from + 1, q, |q|);
    InsideQuotes(k, host);
    StepLeads(k, host);
    n := Step(k, host);
  }

  /** A quote or a bracket that means nothing: the host is known, or the scan is in brackets. */
  lemma MarkSkipped(m: Scan, host: string)
    requires Amid(m) && m.from < |m.text|
    requires (m.hasHost && m.text[m.from] in "\"<>") || (m.state == InBrackets && m.text[m.from] in "\"<")
    ensures Step(m, host) == m.(from := m.from + 1)
  {
  }

  lemma BracketOpens(m: Scan, host: string)
    requires Amid(m) && m.from < |m.text| && m.text[m.from] == '<' && m.state == Addresses && !m.hasHost
    ensures Step(m, host) == m.(from := m.from + 1, state := InBrackets, lastNws := '<')
  {
    hide BackUp, Insert, HeaderEnd, At;
  }

  /** The bracket that closes an address without a host. */
  lemma BracketCloses(m: Scan, host: string)
    requires Amid(m) && m.from < |m.text| && m.text[m.from] == '>' && m.state == InBrackets && !m.hasHost
    requires m.text[m.from - 1] != '<' && EndsWell(host)
    ensures Step(m, host) == m.(text := Insert(m.text, m.from, "@" + host), from := m.from + |host| + 2, state := Addresses,
                                hasHost := true)
  {
    InsertLooks(m.text, m.from, "@" + host, m.from);
    hide Insert;
  }
}
