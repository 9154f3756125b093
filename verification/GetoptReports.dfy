/**
  What a command line means, told by how one writes it: a list of items is printed as argv,
  and scanning that gives back what the items mean.  Nothing here refers to how an element
  is decoded.
 */
module GetoptReports {
  import opened CText
  import opened GetoptSpec

  // ----- What the program knows -----

  /** `c` is an option letter, followed by so many colons where it occurs first. */
  predicate Letter(optstring: string, c: char, colons: nat) {
    c != ':' && exists k | 0 <= k < |optstring| :: LetterAt(optstring, c, colons, k)
  }

  predicate LetterAt(optstring: string, c: char, colons: nat, k: nat)
    requires k < |optstring|
  {
    && optstring[k] == c && c !in optstring[..k]
    && if colons == 0 then k + 1 == |optstring| || optstring[k + 1] != ':'
       else k + 1 < |optstring| && optstring[k + 1] == ':' &&
            if colons == 1 then k + 2 == |optstring| || optstring[k + 2] != ':'
            else colons == 2 && k + 2 < |optstring| && optstring[k + 2] == ':'
  }

  predicate UnknownLetter(optstring: string, c: char) {
    c == ':' || c !in optstring
  }

  /** `name` means option `i`: it is its name (and that of none before it), or an abbreviation of it alone. */
  predicate Means(opts: seq<LongOption>, name: string, i: nat) {
    && i < |opts| && name <= opts[i].name
    && if opts[i].name == name then forall j | 0 <= j < i :: opts[j].name != name
       else forall j | 0 <= j < |opts| && j != i :: !(name <= opts[j].name)
  }

  /** It means none: no option begins like this, or several do and none is called so. */
  predicate MeansNone(opts: seq<LongOption>, name: string) {
    || (forall j | 0 <= j < |opts| :: !(name <= opts[j].name))
    || ((exists i, j | 0 <= i < j < |opts| :: name <= opts[i].name && name <= opts[j].name)
        && forall j | 0 <= j < |opts| :: opts[j].name != name)
  }

  // ----- What one may write -----

  /** An operand; a group of letters; such a group ending in a letter with a value, in the same element or in the
      next one, or with an optional value left out; and the same for long options.  The last two are mistakes: a
      name that means no option, and a value for an option that takes none. */
  datatype Item =
    | Operand(e: string)
    | Group(cs: string)
    | GroupValue(cs: string, c: char, v: string)
    | GroupNext(cs: string, c: char, v: string)
    | GroupAlone(cs: string, c: char)
    | Name(name: string, i: nat)
    | NameValue(name: string, i: nat, v: string)
    | NameNext(name: string, i: nat, v: string)
    | NameWrong(name: string, tail: string)
    | NameUnwanted(name: string, i: nat, v: string)

  function Printed(item: Item): seq<string> {
    match item
    case Operand(e) => [e]
    case Group(cs) => ["-" + cs]
    case GroupValue(cs, c, v) => ["-" + cs + [c] + v]
    case GroupNext(cs, c, v) => ["-" + cs + [c], v]
    case GroupAlone(cs, c) => ["-" + cs + [c]]
    case Name(name, i) => ["--" + name]
    case NameValue(name, i, v) => ["--" + name + "=" + v]
    case NameNext(name, i, v) => ["--" + name, v]
    case NameWrong(name, tail) => ["--" + name + tail]
    case NameUnwanted(name, i, v) => ["--" + name + "=" + v]
  }

  /** Each letter by itself. */
  function Single(optstring: string, cs: string): seq<Report> {
    if cs == "" then []
    else [if UnknownLetter(optstring, cs[0]) then Illegal else Short(cs[0], None)] + Single(optstring, cs[1..])
  }

  function Meant(x: Syntax, item: Item): seq<Report> {
    match item
    case Operand(e) => []
    case Group(cs) => Single(x.optstring, cs)
    case GroupValue(cs, c, v) => Single(x.optstring, cs) + [Short(c, Some(v))]
    case GroupNext(cs, c, v) => Single(x.optstring, cs) + [Short(c, Some(v))]
    case GroupAlone(cs, c) => Single(x.optstring, cs) + [Short(c, None)]
    case Name(name, i) => [Long(i, None)]
    case NameValue(name, i, v) => [Long(i, Some(v))]
    case NameNext(name, i, v) => [Long(i, Some(v))]
    case NameWrong(name, tail) => [Illegal]
    case NameUnwanted(name, i, v) => [Illegal]
  }

  /** Letters that may stand in a group, which must not look like a long option. */
  predicate Grouped(optstring: string, cs: string, c: char) {
    && (forall d <- cs :: UnknownLetter(optstring, d) || Letter(optstring, d, 0))
    && (if cs == "" then c else cs[0]) != '-'
  }

  predicate Proper(x: Syntax, item: Item) {
    match item
    case Operand(e) => e == "" || e[0] != '-' || e == "-"
    case Group(cs) => cs != "" && Grouped(x.optstring, cs, cs[0])
    case GroupValue(cs, c, v) =>
      Grouped(x.optstring, cs, c) && v != "" && (Letter(x.optstring, c, 1) || Letter(x.optstring, c, 2))
    case GroupNext(cs, c, v) => Grouped(x.optstring, cs, c) && Letter(x.optstring, c, 1)
    case GroupAlone(cs, c) => Grouped(x.optstring, cs, c) && Letter(x.optstring, c, 2)
    case Name(name, i) => name != "" && '=' !in name && Means(x.longopts, name, i) && x.longopts[i].hasArg != 1
    case NameValue(name, i, v) => '=' !in name && Means(x.longopts, name, i) && x.longopts[i].hasArg != 0
    case NameNext(name, i, v) => name != "" && '=' !in name && Means(x.longopts, name, i) && x.longopts[i].hasArg == 1
    case NameWrong(name, tail) =>
      name + tail != "" && '=' !in name && MeansNone(x.longopts, name) && (tail == "" || tail[0] == '=')
    case NameUnwanted(name, i, v) => '=' !in name && Means(x.longopts, name, i) && x.longopts[i].hasArg == 0
  }

  /** How a command line ends: just so; with an option whose value is missing; or with "--" and more operands. */
  datatype End =
    | Done
    | GroupMissing(cs: string, c: char)
    | NameMissing(name: string, i: nat)
    | Dashes(rest: seq<string>)

  function PrintedEnd(end: End): seq<string> {
    match end
    case Done => []
    case GroupMissing(cs, c) => ["-" + cs + [c]]
    case NameMissing(name, i) => ["--" + name]
    case Dashes(rest) => ["--"] + rest
  }

  function MeantEnd(x: Syntax, end: End): seq<Report> {
    match end
    case Done => []
    case GroupMissing(cs, c) => Single(x.optstring, cs) + [Missing]
    case NameMissing(name, i) => [Missing]
    case Dashes(rest) => []
  }

  predicate ProperEnd(x: Syntax, end: End) {
    match end
    case Done => true
    case GroupMissing(cs, c) => Grouped(x.optstring, cs, c) && Letter(x.optstring, c, 1)
    case NameMissing(name, i) => name != "" && '=' !in name && Means(x.longopts, name, i) && x.longopts[i].hasArg == 1
    case Dashes(rest) => true
  }

  /** The whole command line, what it means, and its operands. */
  function Line(items: seq<Item>, end: End): seq<string> {
    if items == [] then PrintedEnd(end) else Printed(items[0]) + Line(items[1..], end)
  }

  function Meaning(x: Syntax, items: seq<Item>, end: End): seq<Report> {
    if items == [] then MeantEnd(x, end) else Meant(x, items[0]) + Meaning(x, items[1..], end)
  }

  function Operands(items: seq<Item>, end: End): seq<string> {
    if items == [] then if end.Dashes? then end.rest else []
    else (if items[0].Operand? then [items[0].e] else []) + Operands(items[1..], end)
  }

  // ----- Looking options up -----

  lemma IndexIs(s: string, c: char, k: nat)
    requires k <= |s| && c !in s[..k] && (k < |s| ==> s[k] == c)
    ensures IndexOf(s, c) == k
  {
    var i := IndexOf(s, c);
    assert forall j | 0 <= j < k :: s[j] == s[..k][j];
  }

  lemma KindOfLetter(optstring: string, c: char, colons: nat)
    requires Letter(optstring, c, colons)
    ensures KindOf(optstring, c) == if colons == 0 then Plain else if colons == 1 then TakesArg else MayTakeArg
  {
    var k :| 0 <= k < |optstring| && LetterAt(optstring, c, colons, k);
    IndexIs(optstring, c, k);
  }

  lemma KindOfUnknown(optstring: string, c: char)
    requires UnknownLetter(optstring, c)
    ensures KindOf(optstring, c) == Unknown
  {
  }

  lemma FindsMeant(opts: seq<LongOption>, name: string, i: nat)
    requires Means(opts, name, i)
    ensures FindLong(opts, name) == One(i)
  {
    var exact := FirstExact(opts, name);
    if opts[i].name == name {
      assert exact == i;
    } else {
      assert exact == |opts|;
      assert FirstAbbreviated(opts, name, 0) == i;
      assert FirstAbbreviated(opts, name, i + 1) == |opts|;
    }
  }

  lemma FindsNone(opts: seq<LongOption>, name: string)
    requires MeansNone(opts, name)
    ensures !FindLong(opts, name).One?
  {
    if exists i, j | 0 <= i < j < |opts| :: name <= opts[i].name && name <= opts[j].name {
      var i, j :| 0 <= i < j < |opts| && name <= opts[i].name && name <= opts[j].name;
      var k := FirstAbbreviated(opts, name, 0);
      assert k <= i;
      assert FirstAbbreviated(opts, name, k + 1) <= j;
    }
  }

  // ----- Scanning one item -----

  predicate CString(s: string) {
    '\0' !in s
  }

  /** A scan that begins with the element `e`, of which `nc` is left. */
  function After(x: Syntax, e: string, rest: seq<string>, nc: string): Scan
    requires CStrings([e] + rest)
  {
    ScanFrom(x, [e] + rest, nc)
  }

  /** The reports `rs` and then those of `s`, the elements `es` being options. */
  function Ahead(rs: seq<Report>, es: seq<string>, s: Scan): Scan {
    Scan(rs + s.reports, es + s.options, s.others)
  }

  lemma OneStep(x: Syntax, e: string, rest: seq<string>, nc: string)
    requires CStrings([e] + rest) && nc != ""
    ensures
      var t := ElementStep(x, e, nc, if rest == [] then None else Some(rest[0]));
      && (t.more != "" ==> After(x, e, rest, nc) == Ahead([t.report], [], After(x, e, rest, t.more)))
      && (t.more == "" && t.used == 1 ==> After(x, e, rest, nc) == Ahead([t.report], [e], ScanFrom(x, rest, "")))
      && (t.more == "" && t.used == 2 ==>
            rest != [] && After(x, e, rest, nc) == Ahead([t.report], [e, rest[0]], ScanFrom(x, rest[1..], "")))
  {
    var all := [e] + rest;
    assert Next(all) == if rest == [] then None else Some(rest[0]);
    assert all[1..] == rest && all[..1] == [e];
    if rest != [] {
      assert all[2..] == rest[1..] && all[..2] == [e, rest[0]];
    }
  }

  /** The letters of a group, up to its last one or to what stands behind it. */
  lemma {:induction false} GroupScanned(x: Syntax, e: string, rest: seq<string>, cs: string, tail: string)
    requires CStrings([e] + rest) && At(e, 1) != '-'
    requires forall d <- cs :: UnknownLetter(x.optstring, d) || Letter(x.optstring, d, 0)
    ensures tail != "" ==> After(x, e, rest, cs + tail) == Ahead(Single(x.optstring, cs), [], After(x, e, rest, tail))
    ensures tail == "" && cs != "" ==>
              After(x, e, rest, cs) == Ahead(Single(x.optstring, cs), [e], ScanFrom(x, rest, ""))
    decreases |cs|
  {
    hide ScanFrom, UnknownLetter, Letter;
    if cs == "" {
      assert cs + tail == tail;
    } else {
      var nc := cs + tail;
      if UnknownLetter(x.optstring, cs[0]) {
        KindOfUnknown(x.optstring, cs[0]);
      } else {
        KindOfLetter(x.optstring, cs[0], 0);
      }
      assert nc[0] == cs[0] && nc[1..] == cs[1..] + tail;
      OneStep(x, e, rest, nc);
      GroupScanned(x, e, rest, cs[1..], tail);
      assert tail == "" ==> nc == cs && cs[1..] + tail == cs[1..];
    }
  }

  /** An element that is neither an operand nor "--" is entered. */
  lemma Entered(x: Syntax, e: string, rest: seq<string>)
    requires CStrings([e] + rest) && !NonOption(e) && e != "--"
    ensures e[0] == '-' && ScanFrom(x, [e] + rest, "") == After(x, e, rest, Letters(e))
    ensures Letters(e) == if At(e, 1) == '-' then e[2..] else e[1..]
  {
  }

  lemma DashLetters(e: string, cs: string)
    requires e == "-" + cs && cs != "" && cs[0] != '-' && CString(e)
    ensures !NonOption(e) && e != "--" && At(e, 1) != '-' && Letters(e) == cs
  {
    assert e[1] == cs[0] && e[1..] == cs;
  }

  lemma DashDash(e: string, nc: string)
    requires e == "--" + nc && nc != "" && CString(e)
    ensures !NonOption(e) && e != "--" && At(e, 1) == '-' && Letters(e) == nc
  {
    assert e[2..] == nc;
  }

  /** A group of letters that ends with one that takes a value. */
  lemma GroupAndValue(x: Syntax, e: string, rest: seq<string>, cs: string, c: char, v: string, colons: nat)
    requires e == "-" + cs + [c] + v && Grouped(x.optstring, cs, c) && Letter(x.optstring, c, colons)
    requires CStrings([e] + rest) && (colons == 1 || colons == 2)
    ensures
      var s := ScanFrom(x, [e] + rest, "");
      if v != "" then s == Ahead(Single(x.optstring, cs) + [Short(c, Some(v))], [e], ScanFrom(x, rest, ""))
      else if colons == 2 then s == Ahead(Single(x.optstring, cs) + [Short(c, None)], [e], ScanFrom(x, rest, ""))
      else if rest == [] then s == Ahead(Single(x.optstring, cs) + [Missing], [e], ScanFrom(x, [], ""))
      else s == Ahead(Single(x.optstring, cs) + [Short(c, Some(rest[0]))], [e, rest[0]], ScanFrom(x, rest[1..], ""))
  {
    hide ScanFrom, UnknownLetter, Letter, Letters;
    var tail := [c] + v;
    assert e == "-" + (cs + tail);
    assert (cs + tail)[0] == if cs == "" then c else cs[0];
    DashLetters(e, cs + tail);
    Entered(x, e, rest);
    GroupScanned(x, e, rest, cs, tail);
    KindOfLetter(x.optstring, c, colons);
    assert tail[0] == c && tail[1..] == v;
    OneStep(x, e, rest, tail);
  }

  lemma OnlyGroup(x: Syntax, e: string, rest: seq<string>, cs: string)
    requires e == "-" + cs && cs != "" && Grouped(x.optstring, cs, cs[0]) && CStrings([e] + rest)
    ensures ScanFrom(x, [e] + rest, "") == Ahead(Single(x.optstring, cs), [e], ScanFrom(x, rest, ""))
  {
    hide ScanFrom, UnknownLetter, Letter, Letters;
    DashLetters(e, cs);
    Entered(x, e, rest);
    GroupScanned(x, e, rest, cs, "");
    assert cs + "" == cs;
  }

  lemma CutName(name: string, tail: string)
    requires '=' !in name && (tail == "" || tail[0] == '=')
    ensures var i := IndexOf(name + tail, '='); i == |name| && (name + tail)[..i] == name
    ensures tail != "" ==> (name + tail)[|name| + 1..] == tail[1..]
  {
    assert (name + tail)[..|name|] == name;
    IndexIs(name + tail, '=', |name|);
  }

  /** A long option, with a value in the same element (`tail` is "=" and the value) or without. */
  lemma NameScanned(x: Syntax, e: string, rest: seq<string>, name: string, tail: string)
    requires e == "--" + (name + tail) && name + tail != "" && CStrings([e] + rest)
    requires '=' !in name && (tail == "" || tail[0] == '=')
    ensures
      var s := ScanFrom(x, [e] + rest, "");
      && (MeansNone(x.longopts, name) ==> s == Ahead([Illegal], [e], ScanFrom(x, rest, "")))
      && (forall i: nat | Means(x.longopts, name, i) ::
            if tail != "" then
              s == Ahead([if x.longopts[i].hasArg != 0 then Long(i, Some(tail[1..])) else Illegal], [e], ScanFrom(x, rest, ""))
            else if x.longopts[i].hasArg != 1 then s == Ahead([Long(i, None)], [e], ScanFrom(x, rest, ""))
            else if rest == [] then s == Ahead([Missing], [e], ScanFrom(x, [], ""))
            else s == Ahead([Long(i, Some(rest[0]))], [e, rest[0]], ScanFrom(x, rest[1..], "")))
  {
    hide ScanFrom, Means, MeansNone, Letters;
    DashDash(e, name + tail);
    Entered(x, e, rest);
    OneStep(x, e, rest, name + tail);
    CutName(name, tail);
    if MeansNone(x.longopts, name) {
      FindsNone(x.longopts, name);
    }
    forall i: nat | Means(x.longopts, name, i) ensures FindLong(x.longopts, name) == One(i) && i < |x.longopts| {
      FindsMeant(x.longopts, name, i);
    }
  }

  lemma OperandScanned(x: Syntax, e: string, rest: seq<string>)
    requires (e == "" || e[0] != '-' || e == "-") && CStrings([e] + rest)
    ensures
      var s := ScanFrom(x, rest, "");
      ScanFrom(x, [e] + rest, "") == Scan(s.reports, s.options, [e] + s.others)
  {
    assert ([e] + rest)[1..] == rest;
  }

  /** One item gives its reports, and its elements are options unless it is an operand. */
  lemma ItemScanned(x: Syntax, item: Item, rest: seq<string>)
    requires Proper(x, item) && CStrings(Printed(item) + rest) && CStrings(rest)
    ensures
      var s := ScanFrom(x, rest, "");
      ScanFrom(x, Printed(item) + rest, "") ==
      if item.Operand? then Scan(s.reports, s.options, [item.e] + s.others) else Ahead(Meant(x, item), Printed(item), s)
  {
    hide ScanFrom, Means, MeansNone, Letters, UnknownLetter, Letter, Grouped;
    var es := Printed(item);
    if |es| == 2 {
      assert es + rest == [es[0]] + ([es[1]] + rest);
      assert ([es[1]] + rest)[1..] == rest;
    }
    match item
    case Operand(e) => OperandScanned(x, e, rest);
    case Group(cs) => OnlyGroup(x, es[0], rest, cs);
    case GroupValue(cs, c, v) => GroupAndValue(x, es[0], rest, cs, c, v, if Letter(x.optstring, c, 1) then 1 else 2);
    case GroupNext(cs, c, v) => GroupAndValue(x, es[0], [v] + rest, cs, c, "", 1);
    case GroupAlone(cs, c) => GroupAndValue(x, es[0], rest, cs, c, "", 2);
    case Name(name, i) => NameScanned(x, es[0], rest, name, "");
    case NameValue(name, i, v) => NameScanned(x, es[0], rest, name, "=" + v);
    case NameNext(name, i, v) => NameScanned(x, es[0], [v] + rest, name, "");
    case NameWrong(name, tail) => NameScanned(x, es[0], rest, name, tail);
    case NameUnwanted(name, i, v) => NameScanned(x, es[0], rest, name, "=" + v);
  }

  lemma EndScanned(x: Syntax, end: End)
    requires ProperEnd(x, end) && CStrings(PrintedEnd(end))
    ensures
      var es := PrintedEnd(end);
      ScanFrom(x, es, "") == if end.Dashes? then Scan([], ["--"], end.rest) else Scan(MeantEnd(x, end), es, [])
  {
    hide Means, Letters, UnknownLetter, Letter, Grouped;
    match end
    case Done =>
    case GroupMissing(cs, c) =>
      GroupAndValue(x, PrintedEnd(end)[0], [], cs, c, "", 1);
      assert [PrintedEnd(end)[0]] + [] == PrintedEnd(end);
    case NameMissing(name, i) =>
      NameScanned(x, PrintedEnd(end)[0], [], name, "");
      assert [PrintedEnd(end)[0]] + [] == PrintedEnd(end);
    case Dashes(rest) =>
      assert (["--"] + rest)[1..] == rest;
  }

  /**
    A command line is read as it is meant: the reports are those of its items, in order; the operands remain, in
    order; and everything else counts as options.
   */
  lemma {:induction false} LineScanned(x: Syntax, items: seq<Item>, end: End)
    requires (forall item <- items :: Proper(x, item)) && ProperEnd(x, end) && CStrings(Line(items, end))
    ensures ScanFrom(x, Line(items, end), "").reports == Meaning(x, items, end)
    ensures ScanFrom(x, Line(items, end), "").others == Operands(items, end)
    decreases |items|
  {
    hide ScanFrom, Proper, ProperEnd, Meant, MeantEnd, Printed, PrintedEnd;
    if items == [] {
      EndScanned(x, end);
      EndMeans(x, end);
    } else {
      var rest := Line(items[1..], end);
      PartsAreCStrings(Printed(items[0]), rest);
      LineScanned(x, items[1..], end);
      ItemScanned(x, items[0], rest);
      OperandMeans(x, items[0]);
    }
  }

  lemma PartsAreCStrings(a: seq<string>, b: seq<string>)
    requires CStrings(a + b)
    ensures CStrings(a) && CStrings(b)
  {
    assert forall e <- a :: e in a + b;
    assert forall e <- b :: e in a + b;
  }

  lemma OperandMeans(x: Syntax, item: Item)
    ensures item.Operand? ==> Meant(x, item) == []
  {
  }

  lemma EndMeans(x: Syntax, end: End)
    ensures end.Dashes? ==> MeantEnd(x, end) == []
  {
  }

  // ----- Every command line can be read so -----

  /** Each character is an unknown letter or an option letter of one kind. */
  lemma EveryLetter(optstring: string, c: char) returns (colons: nat)
    ensures UnknownLetter(optstring, c) || Letter(optstring, c, colons)
    ensures colons <= 2
  {
    var k := IndexOf(optstring, c);
    colons := if At(optstring, k + 1) != ':' then 0 else if At(optstring, k + 2) != ':' then 1 else 2;
    if !UnknownLetter(optstring, c) {
      assert optstring[k] == c;
      assert LetterAt(optstring, c, colons, k);
    }
  }

  lemma EveryName(opts: seq<LongOption>, name: string) returns (i: nat)
    ensures MeansNone(opts, name) || Means(opts, name, i)
  {
    var exact, first := FirstExact(opts, name), FirstAbbreviated(opts, name, 0);
    i := if exact < |opts| then exact else first;
    if exact == |opts| && first < |opts| {
      var second := FirstAbbreviated(opts, name, first + 1);
      assert second < |opts| ==> MeansNone(opts, name);
    }
  }

  /** A group of letters, up to the first that takes a value. */
  lemma {:induction false} EveryGroup(optstring: string, nc: string) returns (cs: string, colons: nat)
    ensures cs <= nc && colons <= 2
    ensures forall d <- cs :: UnknownLetter(optstring, d) || Letter(optstring, d, 0)
    ensures cs == nc || (colons > 0 && Letter(optstring, nc[|cs|], colons))
    decreases |nc|
  {
    hide UnknownLetter, Letter;
    if nc == "" {
      cs, colons := "", 0;
    } else {
      colons := EveryLetter(optstring, nc[0]);
      if !UnknownLetter(optstring, nc[0]) && colons > 0 {
        cs := "";
      } else {
        cs, colons := EveryGroup(optstring, nc[1..]);
        cs := [nc[0]] + cs;
      }
    }
  }

  /** What the first elements are: an item, or the end of the command line. */
  datatype Reading = First(item: Item) | Last(end: End)

  ghost predicate Reads(x: Syntax, argv: seq<string>, r: Reading) {
    if r.First? then Proper(x, r.item) && Printed(r.item) <= argv else ProperEnd(x, r.end) && PrintedEnd(r.end) == argv
  }

  lemma ReadGroup(x: Syntax, argv: seq<string>) returns (r: Reading)
    requires CStrings(argv) && argv != [] && !NonOption(argv[0]) && At(argv[0], 1) != '-'
    ensures Reads(x, argv, r)
  {
    hide UnknownLetter, Letter;
    var nc := argv[0][1..];
    assert argv[0] == "-" + nc;
    var cs, colons := EveryGroup(x.optstring, nc);
    if cs == nc {
      r := First(Group(cs));
    } else {
      var c, v := nc[|cs|], nc[|cs| + 1..];
      assert nc == cs + [c] + v && argv[0] == "-" + cs + [c] + v;
      assert argv[0][1] == if cs == "" then c else cs[0];
      if v != "" {
        r := First(GroupValue(cs, c, v));
      } else {
        assert argv[0] == "-" + cs + [c];
        if colons == 2 {
          r := First(GroupAlone(cs, c));
        } else if |argv| > 1 {
          r := First(GroupNext(cs, c, argv[1]));
        } else {
          r := Last(GroupMissing(cs, c));
        }
      }
    }
  }

  /** The name of a long option, and "=" and a value behind it if there is one. */
  lemma NameParts(e: string) returns (name: string, tail: string)
    requires |e| > 2 && e[..2] == "--"
    ensures e == "--" + name + tail && '=' !in name && name + tail != ""
    ensures tail == "" || (tail[0] == '=' && e == "--" + name + "=" + tail[1..])
  {
    var i := 2 + IndexOf(e[2..], '=');
    assert forall j | 2 <= j < |e| :: e[j] == e[2..][j - 2];
    hide IndexOf;
    name, tail := e[2..i], e[i..];
  }

  lemma ReadName(x: Syntax, argv: seq<string>) returns (r: Reading)
    requires argv != [] && |argv[0]| > 2 && argv[0][..2] == "--"
    ensures Reads(x, argv, r)
  {
    hide Means, MeansNone;
    var name, tail := NameParts(argv[0]);
    var i := EveryName(x.longopts, name);
    if MeansNone(x.longopts, name) {
      r := First(NameWrong(name, tail));
    } else {
      MeansOne(x.longopts, name, i);
      if tail != "" {
        r := First(if x.longopts[i].hasArg == 0 then NameUnwanted(name, i, tail[1..])
          else NameValue(name, i, tail[1..]));
      } else {
        assert name + tail == name && "--" + name + tail == "--" + name;
        if x.longopts[i].hasArg != 1 {
          r := First(Name(name, i));
        } else if |argv| > 1 {
          r := First(NameNext(name, i, argv[1]));
        } else {
          r := Last(NameMissing(name, i));
        }
      }
    }
  }

  lemma MeansOne(opts: seq<LongOption>, name: string, i: nat)
    requires Means(opts, name, i)
    ensures i < |opts|
  {
  }

  lemma ReadFirst(x: Syntax, argv: seq<string>) returns (r: Reading)
    requires CStrings(argv)
    ensures Reads(x, argv, r)
  {
    if argv == [] {
      r := Last(Done);
    } else {
      var e := argv[0];
      if NonOption(e) {
        NulFree(e);
        r := First(Operand(e));
      } else if e == "--" {
        assert argv == ["--"] + argv[1..];
        r := Last(Dashes(argv[1..]));
      } else if At(e, 1) != '-' {
        r := ReadGroup(x, argv);
      } else {
        assert e[..2] == "--";
        r := ReadName(x, argv);
      }
    }
  }

  lemma NulFree(e: string)
    requires CString(e) && NonOption(e)
    ensures e == "" || e[0] != '-' || e == "-"
  {
  }

  /** So LineScanned speaks of every argv. */
  lemma {:induction false} EveryLine(x: Syntax, argv: seq<string>) returns (items: seq<Item>, end: End)
    requires CStrings(argv)
    ensures argv == Line(items, end) && (forall item <- items :: Proper(x, item)) && ProperEnd(x, end)
    decreases |argv|
  {
    hide Proper, ProperEnd, CStrings;
    var r := ReadFirst(x, argv);
    if r.Last? {
      items, end := [], r.end;
    } else {
      var n := |Printed(r.item)|;
      assert argv == argv[..n] + argv[n..];
      PartsAreCStrings(argv[..n], argv[n..]);
      items, end := EveryLine(x, argv[n..]);
      assert ([r.item] + items)[1..] == items;
      items := [r.item] + items;
    }
  }
}
