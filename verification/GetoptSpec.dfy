/**
  What a whole scan of argv by getopt.c comes to, as a function of argv alone: the
  reports one call after the other gives, and which elements are options (with the
  arguments they take) and which are not.
 */
module GetoptSpec {
  import opened CText

  /** has_arg is 0, 1 (required) or 2 (optional). */
  datatype LongOption = LongOption(name: string, hasArg: nat)

  datatype Report =
    | Short(c: char, arg: Option<string>)
    | Long(index: nat, longArg: Option<string>)
    | Illegal
    | Missing

  /** The option characters and long options a program knows. */
  datatype Syntax = Syntax(optstring: string, longopts: seq<LongOption>)

  predicate NonOption(e: string) {
    At(e, 0) != '-' || At(e, 1) == '\0'
  }

  /** The element without its initial punctuation. */
  function Letters(e: string): (nc: string)
    requires !NonOption(e) && e != "--" && '\0' !in e
    ensures nc != ""
  {
    if At(e, 1) == '-' then e[2..] else e[1..]
  }

  // ----- Short options -----

  function IndexOf(s: string, c: char): (i: nat)
    ensures i <= |s| && (i < |s| ==> s[i] == c) && forall j | 0 <= j < i :: s[j] != c
  {
    if s == "" || s[0] == c then 0 else 1 + IndexOf(s[1..], c)
  }

  datatype Kind = Unknown | Plain | TakesArg | MayTakeArg

  function KindOf(optstring: string, c: char): Kind {
    var i := IndexOf(optstring, c);
    if i == |optstring| || c == ':' then Unknown
    else if At(optstring, i + 1) != ':' then Plain
    else if At(optstring, i + 2) != ':' then TakesArg
    else MayTakeArg
  }

  /** One option decoded: what is left of its element, or else how many elements it used. */
  datatype Step = Step(report: Report, more: string, used: nat)

  function ShortStep(optstring: string, nc: string, next: Option<string>): (t: Step)
    requires nc != ""
    ensures |t.more| < |nc| && if t.more != "" then t.used == 0 else 1 <= t.used <= if next.Some? then 2 else 1
  {
    var c, text := nc[0], nc[1..];
    match KindOf(optstring, c)
    case Unknown => Step(Illegal, text, if text == "" then 1 else 0)
    case Plain => Step(Short(c, None), text, if text == "" then 1 else 0)
    case MayTakeArg => Step(Short(c, if text != "" then Some(text) else None), "", 1)
    case TakesArg =>
      if text != "" then Step(Short(c, Some(text)), "", 1)
      else if next.Some? then Step(Short(c, next), "", 2)
      else Step(Missing, "", 1)
  }

  // ----- Long options -----

  datatype Match = One(index: nat) | Several | NoMatch

  function FirstExact(opts: seq<LongOption>, name: string): (i: nat)
    ensures i <= |opts| && (i < |opts| ==> opts[i].name == name) && forall j | 0 <= j < i :: opts[j].name != name
  {
    if opts == [] || opts[0].name == name then 0 else 1 + FirstExact(opts[1..], name)
  }

  /** The first option from index `from` on of which `name` is an abbreviation. */
  function FirstAbbreviated(opts: seq<LongOption>, name: string, from: nat): (i: nat)
    requires from <= |opts|
    ensures from <= i <= |opts| && (i < |opts| ==> name <= opts[i].name)
    ensures forall j | from <= j < i :: !(name <= opts[j].name)
    decreases |opts| - from
  {
    if from == |opts| || name <= opts[from].name then from else FirstAbbreviated(opts, name, from + 1)
  }

  /** An exact match, or else an abbreviation of one option only. */
  function FindLong(opts: seq<LongOption>, name: string): (m: Match)
    ensures m.One? ==> m.index < |opts|
  {
    var exact := FirstExact(opts, name);
    if exact < |opts| then One(exact) else
      var i := FirstAbbreviated(opts, name, 0);
      if i == |opts| then NoMatch
      else if FirstAbbreviated(opts, name, i + 1) < |opts| then Several
      else One(i)
  }

  function LongStep(opts: seq<LongOption>, nc: string, next: Option<string>): (t: Step)
    ensures t.more == "" && 1 <= t.used <= if next.Some? then 2 else 1
  {
    var end := IndexOf(nc, '=');
    match FindLong(opts, nc[..end])
    case Several => Step(Illegal, "", 1)
    case NoMatch => Step(Illegal, "", 1)
    case One(i) =>
      if end < |nc| then Step(if opts[i].hasArg != 0 then Long(i, Some(nc[end + 1..])) else Illegal, "", 1)
      else if opts[i].hasArg != 1 then Step(Long(i, None), "", 1)
      else if next.Some? then Step(Long(i, next), "", 2)
      else Step(Missing, "", 1)
  }

  // ----- The scan -----

  function ElementStep(x: Syntax, e: string, nc: string, next: Option<string>): (t: Step)
    requires nc != ""
    ensures |t.more| < |nc| && if t.more != "" then t.used == 0 else 1 <= t.used <= if next.Some? then 2 else 1
  {
    if At(e, 1) == '-' then LongStep(x.longopts, nc, next) else ShortStep(x.optstring, nc, next)
  }

  datatype Scan = Scan(reports: seq<Report>, options: seq<string>, others: seq<string>)

  function Next(rest: seq<string>): Option<string> {
    if |rest| > 1 then Some(rest[1]) else None
  }

  predicate CStrings(rest: seq<string>) {
    forall e <- rest :: '\0' !in e
  }

  /** The scan from here on, `nc` being what is left of the element in progress. */
  function ScanFrom(x: Syntax, rest: seq<string>, nc: string): (s: Scan)
    requires CStrings(rest) && (nc != "" ==> rest != [])
    decreases |rest|, if nc == "" then 1 else 0, |nc|
  {
    if nc != "" then
      var t := ElementStep(x, rest[0], nc, Next(rest));
      if t.more != "" then
        var s := ScanFrom(x, rest, t.more);
        s.(reports := [t.report] + s.reports)
      else
        var s := ScanFrom(x, rest[t.used..], "");
        Scan([t.report] + s.reports, rest[..t.used] + s.options, s.others)
    else if rest == [] then Scan([], [], [])
    else if NonOption(rest[0]) then
      var s := ScanFrom(x, rest[1..], "");
      s.(others := [rest[0]] + s.others)
    else if rest[0] == "--" then Scan([], [rest[0]], rest[1..])
    else ScanFrom(x, rest, Letters(rest[0]))
  }

  // ----- The two kinds of element partition argv, each in its original order -----

  /** true for each element that is an option, an argument taken by one, or the first "--". */
  function Marks(x: Syntax, rest: seq<string>, nc: string): (m: seq<bool>)
    requires CStrings(rest) && (nc != "" ==> rest != [])
    ensures |m| == |rest|
    decreases |rest|, if nc == "" then 1 else 0, |nc|
  {
    if nc != "" then
      var t := ElementStep(x, rest[0], nc, Next(rest));
      if t.more != "" then Marks(x, rest, t.more)
      else seq(t.used, i => true) + Marks(x, rest[t.used..], "")
    else if rest == [] then []
    else if NonOption(rest[0]) then [false] + Marks(x, rest[1..], "")
    else if rest[0] == "--" then [true] + seq(|rest| - 1, i => false)
    else Marks(x, rest, Letters(rest[0]))
  }

  /** The elements marked `b`, in order. */
  function Marked(s: seq<string>, m: seq<bool>, b: bool): seq<string>
    requires |s| == |m|
  {
    if s == [] then [] else (if m[0] == b then [s[0]] else []) + Marked(s[1..], m[1..], b)
  }

  lemma {:induction false} MarkedConcat(s: seq<string>, m: seq<bool>, t: seq<string>, n: seq<bool>, b: bool)
    requires |s| == |m| && |t| == |n|
    ensures Marked(s + t, m + n, b) == Marked(s, m, b) + Marked(t, n, b)
    decreases |s|
  {
    if s == [] {
      assert s + t == t && m + n == n;
    } else {
      MarkedConcat(s[1..], m[1..], t, n, b);
      assert (s + t)[1..] == s[1..] + t && (m + n)[1..] == m[1..] + n;
      assert (s + t)[0] == s[0] && (m + n)[0] == m[0];
    }
  }

  lemma {:induction false} MarkedAlike(s: seq<string>, m: seq<bool>, b: bool, c: bool)
    requires |s| == |m| && forall i | 0 <= i < |m| :: m[i] == b
    ensures Marked(s, m, c) == if b == c then s else []
    decreases |s|
  {
    if s != [] {
      MarkedAlike(s[1..], m[1..], b, c);
      assert s == [s[0]] + s[1..];
    }
  }

  lemma {:induction false} ScanPartitions(x: Syntax, rest: seq<string>, nc: string)
    requires CStrings(rest) && (nc != "" ==> rest != [])
    ensures ScanFrom(x, rest, nc).options == Marked(rest, Marks(x, rest, nc), true)
    ensures ScanFrom(x, rest, nc).others == Marked(rest, Marks(x, rest, nc), false)
    decreases |rest|, if nc == "" then 1 else 0, |nc|
  {
    hide ElementStep, Letters;
    if nc != "" {
      var t := ElementStep(x, rest[0], nc, Next(rest));
      if t.more != "" {
        ScanPartitions(x, rest, t.more);
      } else {
        var m := seq(t.used, i => true);
        ScanPartitions(x, rest[t.used..], "");
        SplitMarked(rest, t.used, m, Marks(x, rest[t.used..], ""), true);
      }
    } else if rest == [] {
    } else if NonOption(rest[0]) {
      ScanPartitions(x, rest[1..], "");
      SplitMarked(rest, 1, [false], Marks(x, rest[1..], ""), false);
    } else if rest[0] == "--" {
      var m := seq(|rest| - 1, i => false);
      SplitMarked(rest, 1, [true], m, true);
      MarkedAlike(rest[1..], m, false, false);
      MarkedAlike(rest[1..], m, false, true);
    } else {
      ScanPartitions(x, rest, Letters(rest[0]));
    }
  }

  /** A beginning marked alike goes to one side. */
  lemma SplitMarked(rest: seq<string>, k: nat, m: seq<bool>, n: seq<bool>, b: bool)
    requires k <= |rest| && |m| == k && |n| == |rest| - k && forall i | 0 <= i < k :: m[i] == b
    ensures Marked(rest, m + n, b) == rest[..k] + Marked(rest[k..], n, b)
    ensures Marked(rest, m + n, !b) == Marked(rest[k..], n, !b)
  {
    assert rest == rest[..k] + rest[k..];
    MarkedConcat(rest[..k], m, rest[k..], n, b);
    MarkedConcat(rest[..k], m, rest[k..], n, !b);
    MarkedAlike(rest[..k], m, b, b);
    MarkedAlike(rest[..k], m, b, !b);
  }
}
