/**
  Which addresses of a header reply_hack gives the host, told by how an address list is
  written: plain addresses, such with a comment, and such in brackets behind a phrase.
  Nothing in the statements refers to the scan.
 */
module ReplyAddresses {
  import opened ReplyHackSpec
  import opened ReplyText
  import opened CText

  // ----- How addresses are written -----

  datatype Word = Bare(s: string) | Quoted(s: string)

  datatype Address =
    | Plain(text: string)
    | Commented(text: string, comment: string, tail: string)
    | Bracketed(phrase: seq<Word>, route: string, tail: string)

  function ShownWord(w: Word): string {
    match w
    case Bare(s) => s
    case Quoted(s) => "\"" + s + "\""
  }

  function ShownPhrase(ws: seq<Word>): string {
    if ws == [] then "" else ShownWord(ws[0]) + ShownPhrase(ws[1..])
  }

  function Shown(a: Address): string {
    match a
    case Plain(text) => text
    case Commented(text, comment, tail) => text + ("(" + comment + ")") + tail
    case Bracketed(phrase, route, tail) => ShownPhrase(phrase) + ("<" + route + ">") + tail
  }

  /** A word of a phrase that names a host; what is in quotes counts only if the scan takes it for part of a
      bracket (`inside`). */
  predicate WordNames(w: Word, inside: bool) {
    (w.Bare? || inside) && NamesHost(w.s)
  }

  predicate PhraseNames(ws: seq<Word>, inside: bool) {
    ws != [] && (WordNames(ws[0], inside) || PhraseNames(ws[1..], inside))
  }

  /** Quotes are seen as such unless the host is known or the scan is inside a bracket (`over`). */
  predicate ProperPhrase(ws: seq<Word>, inside: bool, over: bool) {
    ws == [] || ((if ws[0].Quoted? && !over then Quotable(ws[0].s) else Text(ws[0].s))
                 && ProperPhrase(ws[1..], inside, over || WordNames(ws[0], inside)))
  }

  predicate ProperAddress(a: Address, inside: bool) {
    match a
    case Plain(text) => Text(text)
    case Commented(text, comment, tail) => Text(text) && !Blank(text) && Comment(comment) && Text(tail) && Blank(tail)
    case Bracketed(phrase, route, tail) =>
      ProperPhrase(phrase, inside, inside) && Text(route) && Text(tail)
  }

  // ----- What becomes of them -----

  /** Whether an address is given the host.  `inside`: an address in brackets with its own host, or the null address
      "<>", went before, so that the scan takes this one for part of a bracket.  `last`: it is the last one. */
  predicate IsGiven(a: Address, inside: bool, last: bool) {
    match a
    case Plain(text) =>
      !inside && !Blank(text) && !NamesHost(text) && !(last && text[Trimmed(text) - 1] == ';')
    case Commented(text, comment, tail) => !inside && !NamesHost(text)
    case Bracketed(phrase, route, tail) => !PhraseNames(phrase, inside) && !NamesHost(route) && route != ""
  }

  /** Where the host goes: behind the name; but if a comment follows a name of one character directly, or one that ends
      in a semicolon, behind the comment; and at the end of what is in brackets. */
  function HostPlace(a: Address): (p: nat)
    ensures p <= |Shown(a)|
  {
    match a
    case Plain(text) => Trimmed(text)
    case Commented(text, comment, tail) =>
      if text != "" && !Blank(text[..|text| - 1]) && LastLetter(text, ' ') != ';' then Trimmed(text)
      else |text| + |comment| + 2
    case Bracketed(phrase, route, tail) => |ShownPhrase(phrase)| + 1 + |route|
  }

  function Fixed(a: Address, host: string, inside: bool, last: bool): string {
    if IsGiven(a, inside, last) then Insert(Shown(a), HostPlace(a), "@" + host) else Shown(a)
  }

  /** The scan does not see the bracket that closes an address with its own host, or the null address. */
  predicate StaysInside(a: Address, inside: bool) {
    if !a.Bracketed? then inside
    else if inside then PhraseNames(a.phrase, true) || NamesHost(a.route) || a.route == ""
    else !PhraseNames(a.phrase, false) && (NamesHost(a.route) || a.route == "")
  }

  // ----- Addresses scanned -----

  /** At the beginning of an address. */
  predicate Fresh(m: Scan, inside: bool) {
    && Amid(m) && !m.hasHost && !m.hasBare && m.parensFrom.None?
    && m.state == if inside then InBrackets else Addresses
  }

  lemma HoldsParts(m: Scan, a: string, b: string)
    requires Holds(m, a + b)
    ensures Holds(m, a) && Holds(m.(from := m.from + |a|), b)
    ensures a != "" ==> m.from < |m.text| && m.text[m.from] == a[0]
  {
    var s := m.text[m.from..m.from + |a| + |b|];
    assert s == a + b;
    assert s[..|a|] == a && s[|a|..] == b;
    assert m.text[m.from..m.from + |a|] == s[..|a|];
    assert m.text[m.from + |a|..m.from + |a| + |b|] == s[|a|..];
    assert a != "" ==> m.text[m.from] == s[0];
  }

  lemma HoldsSame(m: Scan, n: Scan, s: string)
    requires Holds(m, s) && n.text == m.text && n.from == m.from
    ensures Holds(n, s)
  {
  }

  /** A phrase, or a part of one, has been read. */
  ghost predicate PhraseRead(m: Scan, n: Scan, size: nat, names: bool) {
    && n.text == m.text && n.from == m.from + size && n.state == m.state && Amid(n) && n.hasHost == (m.hasHost || names)
  }

  /** A character that changes nothing. */
  lemma PassOver(m: Scan, host: string) returns (n: Scan)
    requires Amid(m) && m.from < |m.text|
    requires (m.hasHost && m.text[m.from] in "\"<>") || (m.state == InBrackets && m.text[m.from] in "\"<")
    ensures n == m.(from := m.from + 1) && Leads(m, n, host) && Amid(n)
  {
    hide Run, Step;
    MarkSkipped(m, host);
    StepLeads(m, host);
    n := Step(m, host);
  }

  /** Quotes that are not seen as such. */
  lemma QuotesOver(m: Scan, s: string, host: string) returns (n: Scan)
    requires Amid(m) && (m.state == Addresses || m.state == InBrackets) && (m.hasHost || m.state == InBrackets)
    requires Text(s) && Holds(m, "\"" + s + "\"")
    ensures Leads(m, n, host) && PhraseRead(m, n, |s| + 2, NamesHost(s))
  {
    hide Run, Text, Amid, Holds, NamesHost, Blank, LastLetter, MarksComment;
    assert "\"" + s + "\"" == "\"" + (s + "\"") && "\"" == "\"" + "";
    HoldsParts(m, "\"", s + "\"");
    var k := PassOver(m, host);
    HoldsSame(m.(from := m.from + 1), k, s + "\"");
    HoldsParts(k, s, "\"");
    var j := TextRun(k, s, host);
    HoldsSame(k.(from := k.from + |s|), j, "\"");
    HoldsParts(j, "\"", "");
    n := PassOver(j, host);
  }

  lemma WordRun(m: Scan, w: Word, host: string) returns (n: Scan)
    requires Amid(m) && (m.state == Addresses || m.state == InBrackets) && Holds(m, ShownWord(w))
    requires if w.Quoted? && !m.hasHost && m.state == Addresses then Quotable(w.s) else Text(w.s)
    ensures Leads(m, n, host) && PhraseRead(m, n, |ShownWord(w)|, WordNames(w, m.state == InBrackets) || m.hasHost)
  {
    hide Run, Text, Amid, Holds, NamesHost, Blank, LastLetter, MarksComment, Quotable;
    match w
    case Bare(s) =>
      n := TextRun(m, s, host);
    case Quoted(s) =>
      if m.hasHost || m.state == InBrackets {
        n := QuotesOver(m, s, host);
      } else {
        n := QuotesRun(m, s, host);
      }
  }

  lemma {:induction false} PhraseRun(m: Scan, ws: seq<Word>, host: string) returns (n: Scan)
    requires Amid(m) && (m.state == Addresses || m.state == InBrackets) && Holds(m, ShownPhrase(ws))
    requires ProperPhrase(ws, m.state == InBrackets, m.state == InBrackets || m.hasHost)
    ensures Leads(m, n, host) && PhraseRead(m, n, |ShownPhrase(ws)|, PhraseNames(ws, m.state == InBrackets))
    decreases |ws|
  {
    hide Run, Text, Amid, Holds, NamesHost, Quotable, ShownWord;
    if ws == [] {
      AmidMeans(m);
      n := m;
    } else {
      HoldsParts(m, ShownWord(ws[0]), ShownPhrase(ws[1..]));
      var k := WordRun(m, ws[0], host);
      HoldsSame(m.(from := m.from + |ShownWord(ws[0])|), k, ShownPhrase(ws[1..]));
      n := PhraseRun(k, ws[1..], host);
    }
  }

  // ----- Brackets -----

  /** Behind a bracket: the host was known, or is in it, or has been put in at its end. */
  ghost predicate BracketRead(m: Scan, n: Scan, route: string, host: string) {
    && n.depth == 0 && (n.hasHost || n.state == InBrackets) && Amid(n)
    && if m.hasHost || NamesHost(route) || route == "" then
         && n.text == m.text && n.from == m.from + |route| + 2
         && n.state == if m.hasHost then m.state else InBrackets
       else
         && m.from + 1 + |route| <= |m.text| && n.text == Insert(m.text, m.from + 1 + |route|, "@" + host)
         && n.from == m.from + |route| + |host| + 3 && n.state == Addresses
  }

  lemma BracketRun(m: Scan, route: string, host: string) returns (n: Scan)
    requires Amid(m) && (m.state == Addresses || m.state == InBrackets) && EndsWell(host)
    requires Text(route) && Holds(m, "<" + route + ">")
    ensures Leads(m, n, host) && BracketRead(m, n, route, host)
  {
    hide Run, Text, Amid, Holds, NamesHost, Blank, LastLetter, MarksComment, Step, Insert;
    assert "<" + route + ">" == "<" + (route + ">") && ">" == ">" + "";
    HoldsParts(m, "<", route + ">");
    AmidMeans(m);
    var k := Step(m, host);
    EnterBracket(m, host);
    HoldsSame(m.(from := m.from + 1), k, route + ">");
    HoldsParts(k, route, ">");
    var j := TextRun(k, route, host);
    HoldsSame(k.(from := k.from + |route|), j, ">");
    HoldsParts(j, ">", "");
    if j.hasHost {
      n := PassOver(j, host);
      AmidMeans(n);
    } else if route == "" {
      AmidMeans(j);
      n := Step(j, host);
      NullCloses(j, host);
    } else {
      RouteEnd(k, route);
      AmidMeans(j);
      n := Step(j, host);
      LeaveBracket(j, host);
    }
  }

  lemma EnterBracket(m: Scan, host: string)
    requires Amid(m) && (m.state == Addresses || m.state == InBrackets) && m.from < |m.text| && m.text[m.from] == '<'
    ensures
      var k := Step(m, host);
      && Leads(m, k, host) && k.text == m.text && k.from == m.from + 1 && k.hasHost == m.hasHost && Amid(k)
      && k.state == (if m.hasHost then m.state else InBrackets) && k.text[k.from - 1] == '<'
  {
    hide Run, Step;
    StepLeads(m, host);
    if m.hasHost || m.state == InBrackets {
      MarkSkipped(m, host);
    } else {
      BracketOpens(m, host);
    }
  }

  /** The bracket that closes the null address is passed over. */
  lemma NullCloses(j: Scan, host: string)
    requires Amid(j) && j.from < |j.text| && j.text[j.from] == '>' && j.text[j.from - 1] == '<' && j.state == InBrackets
    ensures Leads(j, Step(j, host), host) && Step(j, host) == j.(from := j.from + 1) && Amid(Step(j, host))
  {
    hide Run;
    StepLeads(j, host);
  }

  lemma LeaveBracket(j: Scan, host: string)
    requires Amid(j) && j.from < |j.text| && j.text[j.from] == '>' && j.state == InBrackets && !j.hasHost
    requires j.text[j.from - 1] != '<' && EndsWell(host)
    ensures
      var n := Step(j, host);
      && Leads(j, n, host) && n.text == Insert(j.text, j.from, "@" + host) && n.from == j.from + |host| + 2
      && n.state == Addresses && n.hasHost && n.depth == 0 && Amid(n)
  {
    hide Run, Step;
    StepLeads(j, host);
    BracketCloses(j, host);
    InsertLooks(j.text, j.from, "@" + host, j.from);
    var t := Insert(j.text, j.from, "@" + host);
    assert t[j.from + |host| + 1..][0] == j.text[j.from..][0];
  }

  lemma RouteEnd(k: Scan, route: string)
    requires Holds(k, route) && Text(route) && route != ""
    ensures k.from + |route| <= |k.text| && k.text[k.from + |route| - 1] != '<'
  {
    var s := k.text[k.from..k.from + |route|];
    assert s[|route| - 1] == k.text[k.from + |route| - 1] && Ordinary(route[|route| - 1]);
  }

  // ----- The end of an address -----

  /** At the comma or the line end behind an address. */
  predicate AtEnd(m: Scan, last: bool) {
    && Amid(m) && m.from < |m.text|
    && if last then m.from + 1 == |m.text| && m.text[m.from] == '\n' else m.text[m.from] == ','
  }

  /** Where the host goes in, if it does. */
  ghost predicate EndRead(m: Scan, n: Scan, q: Option<nat>, host: string) {
    && n.depth == 0 && n.state == m.state && (n.parensFrom.Some? ==> n.parensFrom.value < |n.text|)
    && if q.None? then n.text == m.text && n.from == m.from + 1
       else q.value <= |m.text| && n.text == Insert(m.text, q.value, "@" + host) && n.from == m.from + |host| + 2
  }

  lemma QuietEnd(m: Scan, last: bool, host: string) returns (n: Scan)
    requires AtEnd(m, last) && (m.state == Addresses || m.state == InBrackets)
    requires m.hasHost || m.state == InBrackets || !m.hasBare || (last && m.lastNws == ';')
    ensures Leads(m, n, host) && EndRead(m, n, None, host)
  {
    hide Run, Insert, BackUp;
    StepLeads(m, host);
    n := Step(m, host);
  }

  lemma GivingEnd(m: Scan, last: bool, host: string, q: nat) returns (n: Scan)
    requires AtEnd(m, last) && m.state == Addresses && !m.hasHost && m.hasBare && !(last && m.lastNws == ';')
    requires q == BackUp(m.text, if m.parensFrom.Some? then m.parensFrom.value else m.from) + 1 && q <= m.from
    requires EndsWell(host)
    ensures Leads(m, n, host) && EndRead(m, n, Some(q), host)
  {
    hide Run, BackUp, Insert, InAddresses, HeaderEnd, Point;
    StepLeads(m, host);
    InsertLooks(m.text, q, "@" + host, m.from);
    PointIs(m, last, q);
    AddressCases(m, host);
    n := Step(m, host);
  }

  lemma PointIs(m: Scan, last: bool, q: nat)
    requires AtEnd(m, last) && m.state == Addresses && m.hasBare && !(last && m.lastNws == ';')
    requires q == BackUp(m.text, if m.parensFrom.Some? then m.parensFrom.value else m.from) + 1
    ensures Point(m) == Some(q)
  {
    hide BackUp;
  }

  lemma {:induction false} BackUpIs(s: string, k: nat, j: nat)
    requires j <= k < |s| && !IsSpace(s[j]) && s[j] != ','
    requires forall i | j < i <= k :: IsSpace(s[i]) || s[i] == ','
    ensures BackUp(s, k) == j
    decreases k
  {
    if k > j {
      BackUpIs(s, k - 1, j);
    }
  }

  // ----- Whole addresses -----

  /** An address and the comma or line end behind it have been read. */
  ghost predicate AddressRead(m: Scan, n: Scan, a: Address, inside: bool, last: bool, host: string) {
    && n.depth == 0 && (n.parensFrom.Some? ==> n.parensFrom.value < |n.text|)
    && n.state == (if StaysInside(a, inside) then InBrackets else Addresses)
    && m.from + |Shown(a)| < |m.text|
    && if IsGiven(a, inside, last) then
         && n.text == Insert(m.text, m.from + HostPlace(a), "@" + host)
         && n.from == m.from + |Shown(a)| + |host| + 2
       else n.text == m.text && n.from == m.from + |Shown(a)| + 1
  }

  ghost predicate AtAddress(m: Scan, a: Address, inside: bool, last: bool) {
    && Fresh(m, inside) && Holds(m, Shown(a)) && Ends(m, |Shown(a)|, last)
  }

  predicate Ends(m: Scan, size: nat, last: bool) {
    && m.from + size < |m.text|
    && if last then m.from + size + 1 == |m.text| && m.text[m.from + size] == '\n' else m.text[m.from + size] == ','
  }

  lemma ComesToEnd(m: Scan, n: Scan, size: nat, last: bool)
    requires Ends(m, size, last) && n.text == m.text && n.from == m.from + size && Amid(n)
    ensures AtEnd(n, last) && At(n.text, n.from) != '('
  {
  }

  /** Behind a text that is not blank: the way back leads to its last letter. */
  lemma BackToText(s: string, from: nat, t: string, k: nat)
    requires from + |t| <= |s| && s[from..from + |t|] == t && Text(t) && !Blank(t) && from + Trimmed(t) - 1 <= k < |s|
    requires forall i | from + |t| <= i <= k :: IsSpace(s[i]) || s[i] == ','
    ensures BackUp(s, k) == from + Trimmed(t) - 1
  {
    hide IsSpace, BackUp, Text, Blank;
    NoComma(t);
    var n, u := Trimmed(t), s[from..from + |t|];
    assert forall i | 0 <= i < |t| :: u[i] == s[from + i] && u[i] == t[i];
    forall i | from + n - 1 < i <= k ensures IsSpace(s[i]) || s[i] == ',' {
      if i < from + |t| {
        assert s[i] == u[i - from];
      }
    }
    assert s[from + n - 1] == u[n - 1];
    BackUpIs(s, k, from + n - 1);
  }

  lemma NoComma(t: string)
    requires Text(t)
    ensures forall i | 0 <= i < |t| :: t[i] != ','
  {
    assert forall i | 0 <= i < |t| :: Ordinary(t[i]);
  }

  /** The scan at the end of a plain address. */
  lemma PlainEnd(m: Scan, k: Scan, t: string, inside: bool, last: bool)
    requires AtAddress(m, Plain(t), inside, last) && TextRead(m, k, t)
    ensures k.text == m.text && k.from == m.from + |t| && k.state == m.state && AtEnd(k, last)
    ensures if IsGiven(Plain(t), inside, last) then
              !inside && !Blank(t) && !k.hasHost && k.hasBare && k.parensFrom.None? && !(last && k.lastNws == ';')
            else k.hasHost || inside || !k.hasBare || (last && k.lastNws == ';')
  {
    hide Amid, Blank, NamesHost;
    ComesToEnd(m, k, |t|, last);
  }

  lemma PlainRun(m: Scan, t: string, inside: bool, last: bool, host: string) returns (n: Scan)
    requires AtAddress(m, Plain(t), inside, last) && Text(t) && EndsWell(host)
    ensures Leads(m, n, host) && AddressRead(m, n, Plain(t), inside, last, host)
  {
    hide Run, Amid, Text, Blank, NamesHost, BackUp, Insert, TextRead, IsGiven, Leads;
    var k := TextRun(m, t, host);
    PlainEnd(m, k, t, inside, last);
    if IsGiven(Plain(t), inside, last) {
      BackToText(m.text, m.from, t, k.from);
      n := GivingEnd(k, last, host, m.from + Trimmed(t));
    } else {
      n := QuietEnd(k, last, host);
    }
    LeadsOn(m, k, n, host);
  }

  lemma LeadsOn(m: Scan, k: Scan, n: Scan, host: string)
    requires Leads(m, k, host) && Leads(k, n, host)
    ensures Leads(m, n, host)
  {
    hide Run;
  }

  lemma BlankNames(t: string)
    requires Blank(t)
    ensures !NamesHost(t)
  {
  }

  /** The scan behind a comment and the blanks after it. */
  ghost predicate CommentRead(m: Scan, n: Scan, a: Address)
    requires a.Commented?
  {
    && n.text == m.text && n.from == m.from + |Shown(a)| && n.state == m.state && Amid(n)
    && n.hasHost == NamesHost(a.text)
    && (m.state == Addresses && !n.hasHost ==>
          && n.hasBare && n.lastNws == ')'
          && n.parensFrom == if MarksComment(m, a.text) then Some(m.from + |a.text| - 1) else None)
  }

  lemma CommentPartsRun(m: Scan, a: Address, inside: bool, last: bool, host: string) returns (n: Scan)
    requires a.Commented? && AtAddress(m, a, inside, last) && ProperAddress(a, inside)
    ensures Leads(m, n, host) && CommentRead(m, n, a)
  {
    hide Run, Amid, Text, Blank, NamesHost, MarksComment, Comment, Holds, Leads, CommentRead;
    var c := "(" + a.comment + ")";
    assert Shown(a) == a.text + (c + a.tail);
    HoldsParts(m, a.text, c + a.tail);
    var k := TextRun(m, a.text, host);
    HoldsSame(m.(from := m.from + |a.text|), k, c + a.tail);
    HoldsParts(k, c, a.tail);
    var j := CommentRun(k, a.comment, host);
    HoldsSame(k.(from := k.from + |c|), j, a.tail);
    n := TextRun(j, a.tail, host);
    LeadsOn(m, k, j, host);
    LeadsOn(m, j, n, host);
    CommentParts(m, k, j, n, a, inside, last);
  }

  lemma CommentParts(m: Scan, k: Scan, j: Scan, n: Scan, a: Address, inside: bool, last: bool)
    requires a.Commented? && AtAddress(m, a, inside, last) && ProperAddress(a, inside)
    requires TextRead(m, k, a.text) && TextRead(j, n, a.tail)
    requires
      var next := k.(from := k.from + |a.comment| + 2);
      j == if k.hasHost || k.state == InBrackets then next else next.(lastNws := ')', hasBare := true)
    ensures CommentRead(m, n, a)
  {
    hide Amid, Text, NamesHost, MarksComment, Comment, Holds;
    BlankNames(a.tail);
    ComesToEnd(m, n, |Shown(a)|, last);
    Unmarked(j, a.tail);
  }

  lemma Unmarked(m: Scan, t: string)
    ensures m.from + |t| <= |m.text| && At(m.text, m.from + |t|) != '(' ==> !MarksComment(m, t)
  {
  }

  lemma CommentedRun(m: Scan, a: Address, inside: bool, last: bool, host: string) returns (n: Scan)
    requires a.Commented? && AtAddress(m, a, inside, last) && ProperAddress(a, inside) && EndsWell(host)
    ensures Leads(m, n, host) && AddressRead(m, n, a, inside, last, host)
  {
    hide Run, Amid, Text, NamesHost, BackUp, Insert, Comment;
    var k := CommentPartsRun(m, a, inside, last, host);
    ComesToEnd(m, k, |Shown(a)|, last);
    if IsGiven(a, inside, last) {
      PlaceBehind(m, k, a, inside, last);
      n := GivingEnd(k, last, host, m.from + HostPlace(a));
    } else {
      n := QuietEnd(k, last, host);
    }
  }

  lemma PlaceBehind(m: Scan, k: Scan, a: Address, inside: bool, last: bool)
    requires a.Commented? && AtAddress(m, a, inside, last) && ProperAddress(a, inside) && !inside && !NamesHost(a.text)
    requires CommentRead(m, k, a) && AtEnd(k, last)
    ensures
      var from := if k.parensFrom.Some? then k.parensFrom.value else k.from;
      && from < |k.text| && m.from + HostPlace(a) == BackUp(k.text, from) + 1
    ensures m.from + HostPlace(a) <= k.from
  {
    hide Run, BackUp, MarksComment, Text, Blank, LastLetter, Comment, Amid, Holds;
    OpensNext(m, a);
    if MarksComment(m, a.text) {
      BeforeComment(m, a);
    } else {
      BackToComment(m, a, k.from);
    }
  }

  lemma BeforeComment(m: Scan, a: Address)
    requires a.Commented? && Holds(m, Shown(a)) && Text(a.text) && !Blank(a.text)
    ensures m.from + |a.text| <= |m.text| && 0 < Trimmed(a.text) <= |a.text|
    ensures BackUp(m.text, m.from + |a.text| - 1) == m.from + Trimmed(a.text) - 1
  {
    hide *;
    TextFirst(a);
    HoldsParts(m, a.text, "(" + a.comment + ")" + a.tail);
    HoldsMeans(m, a.text);
    assert Trimmed(a.text) > 0;
    BackToText(m.text, m.from, a.text, m.from + |a.text| - 1);
  }

  lemma TextFirst(a: Address)
    requires a.Commented?
    ensures Shown(a) == a.text + ("(" + a.comment + ")" + a.tail)
  {
  }

  lemma HoldsMeans(m: Scan, s: string)
    requires Holds(m, s)
    ensures m.from + |s| <= |m.text| && m.text[m.from..m.from + |s|] == s
  {
  }

  lemma OpensNext(m: Scan, a: Address)
    requires a.Commented? && Holds(m, Shown(a)) && Text(a.text) && !Blank(a.text) && !m.hasBare
    ensures MarksComment(m, a.text) <==> !Blank(a.text[..|a.text| - 1]) && LastLetter(a.text, ' ') != ';'
  {
    var n := |a.text|;
    assert Shown(a)[n] == '(' && m.text[m.from..m.from + |Shown(a)|][n] == m.text[m.from + n];
    assert Ordinary(a.text[Trimmed(a.text) - 1]);
  }

  lemma BackToComment(m: Scan, a: Address, e: nat)
    requires a.Commented? && Holds(m, Shown(a)) && Blank(a.tail) && e == m.from + |Shown(a)| < |m.text|
    requires IsSpace(m.text[e]) || m.text[e] == ','
    ensures BackUp(m.text, e) == m.from + |a.text| + |a.comment| + 1
  {
    var s, j := Shown(a), |a.text| + |a.comment| + 1;
    var u := m.text[m.from..m.from + |s|];
    assert forall i | 0 <= i < |s| :: u[i] == m.text[m.from + i] && u[i] == s[i];
    assert s[j] == ')' && m.text[m.from + j] == u[j];
    forall i | m.from + j < i <= e ensures IsSpace(m.text[i]) || m.text[i] == ',' {
      if i < e {
        assert m.text[i] == u[i - m.from] && s[i - m.from] == a.tail[i - m.from - j - 1];
      }
    }
    BackUpIs(m.text, e, m.from + j);
  }

  lemma BracketedRun(m: Scan, a: Address, inside: bool, last: bool, host: string) returns (n: Scan)
    requires a.Bracketed? && AtAddress(m, a, inside, last) && ProperAddress(a, inside) && EndsWell(host)
    ensures Leads(m, n, host) && AddressRead(m, n, a, inside, last, host)
  {
    hide Run, Amid, Text, Blank, NamesHost, MarksComment, Holds, Insert, PhraseNames, ProperPhrase, ShownPhrase, Ends;
    var p, b := ShownPhrase(a.phrase), "<" + a.route + ">";
    assert Shown(a) == p + (b + a.tail);
    HoldsParts(m, p, b + a.tail);
    var k := PhraseRun(m, a.phrase, host);
    HoldsSame(m.(from := m.from + |p|), k, b + a.tail);
    HoldsParts(k, b, a.tail);
    var j := BracketRun(k, a.route, host);
    var b' := k.(from := k.from + |a.route| + 2);
    EndsLater(m, b', |Shown(a)|, |a.tail|, last);
    Behind(k, b', j, a.route, a.tail, last, host);
    var i := TextRun(j, a.tail, host);
    ComesToEnd(j, i, |a.tail|, last);
    n := QuietEnd(i, last, host);
    EndsMeans(m, |Shown(a)|, last);
  }

  lemma EndsMeans(m: Scan, size: nat, last: bool)
    requires Ends(m, size, last)
    ensures m.from + size < |m.text|
  {
  }

  /** What follows the bracket, `b` being the scan there if nothing was put in, is still as it was. */
  lemma Behind(k: Scan, b: Scan, j: Scan, route: string, tail: string, last: bool, host: string)
    requires b == k.(from := k.from + |route| + 2) && Holds(b, tail) && Ends(b, |tail|, last) &&
      BracketRead(k, j, route, host)
    ensures Holds(j, tail) && Ends(j, |tail|, last)
  {
    hide NamesHost, Amid, Holds, Insert, Ends;
    if k.hasHost || NamesHost(route) || route == "" {
      HoldsSame(b, j, tail);
      EndsLater(b, j, |tail|, |tail|, last);
    } else {
      EndsMeans(b, |tail|, last);
      InsertLooks(k.text, b.from - 1, "@" + host, b.from);
      SameTail(b, j, tail, last);
    }
  }

  lemma EndsLater(m: Scan, b: Scan, size: nat, rest: nat, last: bool)
    requires Ends(m, size, last) && b.text == m.text && b.from + rest == m.from + size
    ensures Ends(b, rest, last)
  {
  }

  lemma SameTail(b: Scan, j: Scan, s: string, last: bool)
    requires b.from <= |b.text| && j.from <= |j.text| && j.text[j.from..] == b.text[b.from..]
    requires Holds(b, s) && Ends(b, |s|, last)
    ensures Holds(j, s) && Ends(j, |s|, last)
  {
    var t, u := j.text[j.from..], b.text[b.from..];
    assert t[..|s|] == j.text[j.from..j.from + |s|] && u[..|s|] == b.text[b.from..b.from + |s|];
    assert t[|s|] == j.text[j.from + |s|] && u[|s|] == b.text[b.from + |s|];
  }

  lemma AddressRun(m: Scan, a: Address, inside: bool, last: bool, host: string) returns (n: Scan)
    requires AtAddress(m, a, inside, last) && ProperAddress(a, inside) && EndsWell(host)
    ensures Leads(m, n, host) && AddressRead(m, n, a, inside, last, host)
  {
    hide Run, AtAddress, AddressRead;
    match a
    case Plain(text) => n := PlainRun(m, text, inside, last, host);
    case Commented(text, comment, tail) => n := CommentedRun(m, a, inside, last, host);
    case Bracketed(phrase, route, tail) => n := BracketedRun(m, a, inside, last, host);
  }
}
