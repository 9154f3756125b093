/**
  Whole address headers: what reply_hack makes of a list of addresses.
 */
module ReplyLists {
  import opened ReplyHackSpec
  import opened ReplyText
  import opened ReplyAddresses
  import opened CText

  /** An address of the list; all but the first come behind a comma and one more character, which is passed over. */
  datatype Entry = Entry(c: char, a: Address)

  function ShownList(es: seq<Entry>): string {
    if es == [] then "\n" else "," + ([es[0].c] + Shown(es[0].a)) + ShownList(es[1..])
  }

  function FixedList(es: seq<Entry>, host: string, inside: bool): string {
    if es == [] then "\n"
    else
      "," + ([es[0].c] + Fixed(es[0].a, host, inside, es[1..] == [])) + FixedList(es[1..], host, StaysInside(es[0].a, inside))
  }

  /** Behind a comma there is an ordinary character, which is not the end of the header. */
  predicate ProperEntry(e: Entry, inside: bool) {
    && Ordinary(e.c) && ProperAddress(e.a, inside)
    && (e.c == '\n' ==> Shown(e.a) != "" && Shown(e.a)[0] in " \t")
  }

  predicate ProperList(es: seq<Entry>, inside: bool) {
    es == [] || (ProperEntry(es[0], inside) && ProperList(es[1..], StaysInside(es[0].a, inside)))
  }

  // ----- Behind a comma -----

  /** The scan has just passed the comma behind an address. */
  predicate Passing(m: Scan, inside: bool) {
    && 0 < m.from <= |m.text| && m.text[m.from - 1] == ',' && m.depth == 0
    && m.state == (if inside then InBrackets else Addresses) && (m.parensFrom.Some? ==> m.parensFrom.value < |m.text|)
  }

  lemma SeparatorRun(m: Scan, inside: bool, host: string) returns (n: Scan)
    requires Passing(m, inside) && m.from < |m.text| && Ordinary(m.text[m.from]) && !HeaderEnd(m.text, m.from)
    ensures Leads(m, n, host) && n.text == m.text && n.from == m.from + 1 && Fresh(n, inside)
  {
    hide Run, BackUp, Insert, HeaderEnd, At;
    StepLeads(m, host);
    n := Step(m, host);
  }

  // ----- The list -----

  /** An address with its end, in a text that begins with `done`. */
  lemma StandsThere(m: Scan, done: string, a: Address, es: seq<Entry>, inside: bool)
    requires Fresh(m, inside) && m.from == |done| && m.text == done + Shown(a) + ShownList(es)
    ensures AtAddress(m, a, inside, es == [])
  {
    var s := Shown(a);
    assert m.text[|done|..|done| + |s|] == s;
    assert m.text[|done| + |s|] == ShownList(es)[0];
  }

  lemma Replaced(m: Scan, n: Scan, done: string, a: Address, rest: string, inside: bool, last: bool, host: string)
    requires m.from == |done| && m.text == done + Shown(a) + rest && rest != ""
    requires AddressRead(m, n, a, inside, last, host)
    ensures n.text == done + Fixed(a, host, inside, last) + rest && n.from == |done + Fixed(a, host, inside, last)| + 1
  {
    hide Shown, HostPlace, IsGiven, StaysInside, Insert;
    if IsGiven(a, inside, last) {
      InsertMiddle(done, Shown(a), rest, HostPlace(a), "@" + host);
    }
  }

  lemma InsertMiddle(a: string, s: string, b: string, p: nat, x: string)
    requires p <= |s|
    ensures |a + s + b| >= |a| + p && Insert(a + s + b, |a| + p, x) == a + Insert(s, p, x) + b
  {
    assert s == s[..p] + s[p..];
    assert a + s + b == (a + s[..p]) + (s[p..] + b);
  }

  /** From the last address to the end. */
  lemma LastRun(m: Scan, done: string, a: Address, inside: bool, host: string)
    requires Fresh(m, inside) && m.from == |done| && m.text == done + Shown(a) + "\n"
    requires ProperAddress(a, inside) && EndsWell(host)
    ensures Run(m, host).text == done + Fixed(a, host, inside, true) + "\n"
  {
    assert ShownList([]) == "\n";
    StandsThere(m, done, a, [], inside);
    hide Fresh, Fixed, Shown, ProperAddress, AtAddress, Run;
    var n := AddressRun(m, a, inside, true, host);
    Replaced(m, n, done, a, "\n", inside, true, host);
    AtTheEnd(n, host);
  }

  lemma AtTheEnd(n: Scan, host: string)
    requires n.from == |n.text| && (n.parensFrom.Some? ==> n.parensFrom.value < |n.text|)
    ensures Run(n, host) == n
  {
  }

  /** From one address to the next. */
  lemma NextAddress(m: Scan, done: string, a: Address, e: Entry, rest: string, inside: bool, host: string)
      returns (k: Scan, done': string)
    requires Fresh(m, inside) && m.from == |done| && m.text == done + Shown(a) + ("," + ([e.c] + Shown(e.a)) + rest)
    requires AtAddress(m, a, inside, false) && ProperAddress(a, inside) && ProperEntry(e, StaysInside(a, inside)) &&
      EndsWell(host)
    ensures done' == done + Fixed(a, host, inside, false) + "," + [e.c]
    ensures Leads(m, k, host) && Fresh(k, StaysInside(a, inside)) && k.from == |done'| &&
      k.text == done' + Shown(e.a) + rest
  {
    hide Fresh, Fixed, Run, AtAddress;
    var all := "," + ([e.c] + Shown(e.a)) + rest;
    var n := AddressRun(m, a, inside, false, host);
    Replaced(m, n, done, a, all, inside, false, host);
    var f := done + Fixed(a, host, inside, false);
    done' := f + "," + [e.c];
    assert n.text[|f|] == all[0] && n.text[n.from] == all[1];
    NotTheEnd(n.text, f, e, rest);
    k := SeparatorRun(n, StaysInside(a, inside), host);
    assert n.text == done' + Shown(e.a) + rest;
  }

  lemma NotTheEnd(s: string, f: string, e: Entry, rest: string)
    requires s == f + ("," + ([e.c] + Shown(e.a)) + rest)
    requires e.c == '\n' ==> Shown(e.a) != "" && Shown(e.a)[0] in " \t"
    ensures !HeaderEnd(s, |f| + 1)
  {
    hide Shown;
    assert s[|f| + 1] == e.c;
    if e.c == '\n' {
      assert s[|f| + 2] == Shown(e.a)[0];
    }
  }

  lemma {:induction false} ListRun(m: Scan, done: string, a: Address, es: seq<Entry>, inside: bool, host: string)
    requires Fresh(m, inside) && m.from == |done| && m.text == done + Shown(a) + ShownList(es)
    requires ProperAddress(a, inside) && ProperList(es, StaysInside(a, inside)) && EndsWell(host)
    ensures Run(m, host).text == done + Fixed(a, host, inside, es == []) + FixedList(es, host, StaysInside(a, inside))
    decreases |es|
  {
    hide Fresh, Fixed, Shown, ProperAddress, AtAddress, Run, StaysInside, ProperEntry;
    if es == [] {
      LastRun(m, done, a, inside, host);
    } else {
      StandsThere(m, done, a, es, inside);
      var rest := ShownList(es[1..]);
      var k, done' := NextAddress(m, done, a, es[0], rest, inside, host);
      EntryMeans(es[0], StaysInside(a, inside));
      ListRun(k, done', es[0].a, es[1..], StaysInside(a, inside), host);
      var f, g := Fixed(a, host, inside, false), Fixed(es[0].a, host, StaysInside(a, inside), es[1..] == []);
      assert done' + g == done + f + ("," + ([es[0].c] + g));
    }
  }

  lemma EntryMeans(e: Entry, inside: bool)
    requires ProperEntry(e, inside)
    ensures ProperAddress(e.a, inside)
  {
  }

  // ----- The header -----

  /** The name of an address header, with its colon. */
  predicate HeaderName(name: string) {
    && name != "" && name[|name| - 1] == ':' && (forall i | 0 <= i < |name| - 1 :: name[i] !in ":(),") && HasAddresses(name)
  }

  lemma NameStep(m: Scan, host: string)
    requires m.from < |m.text| && m.state == BeforeColon && m.depth == 0 && !m.hasHost && m.parensFrom.None?
    requires m.text[m.from] !in "()" && (m.from > 0 ==> m.text[m.from - 1] != ',')
    ensures Step(m, host) == m.(from := m.from + 1, state := if m.text[m.from] == ':' then Addresses else BeforeColon)
  {
    hide InAddresses, WithHost;
  }

  lemma {:induction false} NameRun(name: string, rest: string, i: nat, host: string)
    requires HeaderName(name) && i <= |name|
    ensures
      var m := Start(name + rest);
      Leads(m, m.(from := i, state := if i == |name| then Addresses else BeforeColon), host)
    decreases i
  {
    hide Run;
    if i > 0 {
      var m := Start(name + rest);
      NameRun(name, rest, i - 1, host);
      var k := m.(from := i - 1);
      NameStep(k, host);
      StepLeads(k, host);
    }
  }

  lemma StillHasAddresses(name: string, rest: string)
    requires HasAddresses(name)
    ensures HasAddresses(name + rest)
  {
    var k :| 0 <= k < |HEADERS| && BeginsWith(name, HEADERS[k]);
    assert BeginsWith(name + rest, HEADERS[k]);
  }

  /** Every address of a list becomes what its writing calls for, and nothing else changes. */
  lemma ListRewritten(name: string, a: Address, es: seq<Entry>, host: string)
    requires HeaderName(name) && ProperAddress(a, false) && ProperList(es, StaysInside(a, false)) && EndsWell(host)
    ensures Rewritten(name + Shown(a) + ShownList(es), host)
         == name + Fixed(a, host, false, es == []) + FixedList(es, host, StaysInside(a, false))
  {
    hide Run, Shown, ShownList, Fixed, FixedList, ProperAddress, ProperList, StaysInside, HasAddresses;
    var rest := Shown(a) + ShownList(es);
    assert name + Shown(a) + ShownList(es) == name + rest;
    NameRun(name, rest, |name|, host);
    StillHasAddresses(name, rest);
    var m := Start(name + rest).(from := |name|, state := Addresses);
    ListRun(m, name, a, es, false, host);
  }

  // ----- What this means -----

  lemma ToIsName()
    ensures HeaderName("To:")
  {
    assert BeginsWith("To:", HEADERS[1]);
  }

  /** A list of two addresses. */
  lemma TwoAddresses(a: Address, c: char, b: Address, host: string)
    requires ProperAddress(a, false) && ProperAddress(b, StaysInside(a, false)) && Ordinary(c) && c != '\n' &&
      EndsWell(host)
    ensures Rewritten("To:" + (Shown(a) + "," + [c] + Shown(b) + "\n"), host)
         == "To:" + (Fixed(a, host, false, false) + "," + [c] + Fixed(b, host, StaysInside(a, false), true) + "\n")
  {
    hide Rewritten, Fixed, Shown, ProperAddress, StaysInside, EndsWell;
    var e := Entry(c, b);
    ToIsName();
    assert [e][1..] == [];
    ListRewritten("To:", a, [e], host);
    assert "To:" + Shown(a) + ShownList([e]) == "To:" + (Shown(a) + "," + [c] + Shown(b) + "\n");
    assert "To:" + Fixed(a, host, false, false) + FixedList([e], host, StaysInside(a, false))
        == "To:" + (Fixed(a, host, false, false) + "," + [c] + Fixed(b, host, StaysInside(a, false), true) + "\n");
  }

  /** A plain address with `n` characters up to its last letter, as it is given the host or not. */
  function Given(t: string, n: nat, host: string): string
    requires n <= |t|
  {
    if n == 0 || NamesHost(t) then t else t[..n] + ("@" + host) + t[n..]
  }

  predicate Letters(t: string, n: nat) {
    && Text(t) && n <= |t| && (n > 0 ==> !IsSpace(t[n - 1]) && t[n - 1] != ';')
    && forall i | n <= i < |t| :: IsSpace(t[i])
  }

  lemma PlainFixed(t: string, n: nat, host: string, last: bool)
    requires Letters(t, n)
    ensures Fixed(Plain(t), host, false, last) == Given(t, n, host) && Fixed(Plain(t), host, true, last) == t
    ensures Shown(Plain(t)) == t && ProperAddress(Plain(t), false) && ProperAddress(Plain(t), true)
    ensures !StaysInside(Plain(t), false)
  {
    hide Text, NamesHost, IsSpace;
    TrimmedIs(t, n);
  }

  lemma TwoPlain(t: string, n: nat, c: char, u: string, k: nat, host: string)
    requires Letters(t, n) && Letters(u, k) && Ordinary(c) && c != '\n' && EndsWell(host)
    ensures Rewritten("To:" + (t + "," + [c] + u + "\n"), host)
         == "To:" + (Given(t, n, host) + "," + [c] + Given(u, k, host) + "\n")
  {
    hide Rewritten, Fixed, Shown, ProperAddress, StaysInside, Letters, Given, EndsWell, Ordinary;
    PlainFixed(t, n, host, false);
    PlainFixed(u, k, host, true);
    TwoAddresses(Plain(t), c, Plain(u), host);
  }

  lemma Strings()
    ensures Letters(" al@x", 5) && NamesHost(" al@x") && Letters("bo", 2) && !NamesHost("bo")
    ensures Letters(" a", 2) && !NamesHost(" a") && Letters("", 0) && Ordinary(' ') && Ordinary('b') && EndsWell("h")
  {
    assert Names(" al@x"[3]);
  }

  /** An address with its own host is left alone, and one without is given the host. */
  lemma OneOfTwo()
    ensures Rewritten("To: al@x, bo\n", "h") == "To: al@x, bo@h\n"
  {
    Strings();
    hide Rewritten, Letters, NamesHost, Ordinary, EndsWell;
    TwoPlain(" al@x", 5, ' ', "bo", 2, "h");
    assert "To:" + (" al@x" + "," + [' '] + "bo" + "\n") == "To: al@x, bo\n";
    assert Given("bo", 2, "h") == "bo@h";
    assert "To:" + (" al@x" + "," + [' '] + "bo@h" + "\n") == "To: al@x, bo@h\n";
  }

  /** The character behind a comma does not count: an address of one character, without a blank before it, is not given
      the host. */
  lemma BehindComma()
    ensures Rewritten("To: a,b\n", "h") == "To: a@h,b\n"
  {
    Strings();
    hide Rewritten, Letters, NamesHost, Ordinary, EndsWell;
    TwoPlain(" a", 2, 'b', "", 0, "h");
    assert "To:" + (" a" + "," + ['b'] + "" + "\n") == "To: a,b\n";
    assert Given(" a", 2, "h") == " a@h" && Given("", 0, "h") == "";
    assert "To:" + (" a@h" + "," + ['b'] + "" + "\n") == "To: a@h,b\n";
  }

  const BRACKETED := Bracketed([Bare(" ")], "a@x", "")

  lemma BracketedFixed(host: string)
    ensures Shown(BRACKETED) == " <a@x>" && ProperAddress(BRACKETED, false) && StaysInside(BRACKETED, false)
    ensures Fixed(BRACKETED, host, false, false) == Shown(BRACKETED)
  {
    assert [Bare(" ")][1..] == [] && ShownPhrase([Bare(" ")]) == " ";
    assert Names("a@x"[1]);
  }

  /** An address in brackets that has its own host keeps the next ones from being given one. */
  lemma BehindBrackets()
    ensures Rewritten("To: <a@x>, bo\n", "h") == "To: <a@x>, bo\n"
  {
    Strings();
    BracketedFixed("h");
    hide Rewritten, Shown, Fixed, ProperAddress, StaysInside, Letters, NamesHost, Ordinary, EndsWell;
    PlainFixed("bo", 2, "h", true);
    TwoAddresses(BRACKETED, ' ', Plain("bo"), "h");
    assert "To:" + (" <a@x>" + "," + [' '] + "bo" + "\n") == "To: <a@x>, bo\n";
  }

  const NULL_ADDRESS := Bracketed([Bare(" ")], "", "")

  lemma NullFixed(host: string)
    ensures Shown(NULL_ADDRESS) == " <>" && ProperAddress(NULL_ADDRESS, false)
    ensures Fixed(NULL_ADDRESS, host, false, true) == " <>"
  {
    assert [Bare(" ")][1..] == [] && ShownPhrase([Bare(" ")]) == " ";
  }

  /** The null address is left alone, so that bounces stay suppressed. */
  lemma NullAddress(name: string, host: string)
    requires HeaderName(name) && EndsWell(host)
    ensures Rewritten(name + " <>\n", host) == name + " <>\n"
  {
    NullFixed(host);
    hide Rewritten, Shown, Fixed, ProperAddress, StaysInside, EndsWell, HeaderName;
    ListRewritten(name, NULL_ADDRESS, [], host);
    assert name + " <>" + "\n" == name + " <>\n";
  }

  const COMMENTED := Commented(" a", "A", "")

  lemma CommentedFixed()
    ensures Shown(COMMENTED) == " a(A)" && ProperAddress(COMMENTED, false)
    ensures Fixed(COMMENTED, "h", false, true) == " a(A)@h"
  {
    assert Shown(COMMENTED) == " a(A)";
    assert " a"[..1] == " " && HostPlace(COMMENTED) == 5;
    assert Insert(" a(A)", 5, "@" + "h") == " a(A)@h";
    assert Depth("A", 0) == 0 && Depth("A", 1) == 0;
  }

  /** A comment directly behind a name of one character is taken for a part of it. */
  lemma BehindComment()
    ensures Rewritten("To: a(A)\n", "h") == "To: a(A)@h\n"
  {
    Strings();
    CommentedFixed();
    ToIsName();
    hide Rewritten, Shown, Fixed, ProperAddress, StaysInside, EndsWell, HeaderName;
    ListRewritten("To:", COMMENTED, [], "h");
    assert "To:" + " a(A)" + "\n" == "To: a(A)\n" && "To:" + " a(A)@h" + "\n" == "To: a(A)@h\n";
  }
}
