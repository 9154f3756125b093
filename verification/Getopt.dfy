/**
  The PERMUTE-mode scan of getopt.c: one option a call, argv rearranged on the way.
 */
module Getopt {
  import opened ArgvExchange
  import opened GetoptSpec
  import opened CText

  /** The indices the scan keeps between calls. */
  datatype Indices = Indices(first: nat, last: nat, optind: nat)

  /**
    What argv will be at the end: options first, then the rest, each in original order.
    [first, last) holds non-options, [last, optind) options found after them.
   */
  ghost function Goal(x: Syntax, a: seq<string>, i: Indices, nc: string): seq<string>
    requires InScan(a, i, nc)
  {
    var s := ScanFrom(x, a[i.optind..], nc);
    a[..i.first] + a[i.last..i.optind] + s.options + a[i.first..i.last] + s.others
  }

  ghost function Others(x: Syntax, a: seq<string>, i: Indices, nc: string): seq<string>
    requires InScan(a, i, nc)
  {
    a[i.first..i.last] + ScanFrom(x, a[i.optind..], nc).others
  }

  ghost function Reports(x: Syntax, a: seq<string>, i: Indices, nc: string): seq<Report>
    requires InScan(a, i, nc)
  {
    ScanFrom(x, a[i.optind..], nc).reports
  }

  ghost predicate InScan(a: seq<string>, i: Indices, nc: string) {
    && 1 <= i.first <= i.last <= i.optind <= |a| && CStrings(a)
    && (nc != "" ==> i.optind < |a|)
  }

  /** Nothing that the scan will come to has changed. */
  ghost predicate SameScan(x: Syntax, a: seq<string>, i: Indices, nc: string, b: seq<string>, j: Indices, mc: string)
    requires InScan(a, i, nc) && InScan(b, j, mc)
  {
    && Goal(x, b, j, mc) == Goal(x, a, i, nc)
    && Others(x, b, j, mc) == Others(x, a, i, nc)
    && Reports(x, b, j, mc) == Reports(x, a, i, nc)
  }

  lemma ExchangeKeeps(x: Syntax, a: seq<string>, i: Indices, nc: string)
    requires InScan(a, i, nc)
    ensures
      var b := Exchanged(a, i.first, i.last, i.optind);
      var j := Indices(i.first + (i.optind - i.last), i.optind, i.optind);
      InScan(b, j, nc) && SameScan(x, a, i, nc, b, j, nc)
  {
    var b := Exchanged(a, i.first, i.last, i.optind);
    var j := Indices(i.first + (i.optind - i.last), i.optind, i.optind);
    ExchangedSlices(a, i.first, i.last, i.optind);
    assert CStrings(b) by {
      assert forall k | 0 <= k < |b| :: b[k] == a[Origin(i.first, i.last, i.optind, k)];
    }
    hide Exchanged, ScanFrom;
    assert b[j.last..j.optind] == [];
  }

  lemma NoneSkippedKeeps(x: Syntax, a: seq<string>, i: Indices, nc: string)
    requires InScan(a, i, nc) && i.first == i.last
    ensures
      var j := Indices(i.optind, i.optind, i.optind);
      InScan(a, j, nc) && SameScan(x, a, i, nc, a, j, nc)
  {
    hide ScanFrom;
    assert a[..i.optind] == a[..i.first] + a[i.last..i.optind];
  }

  lemma SkipKeeps(x: Syntax, a: seq<string>, i: Indices)
    requires InScan(a, i, "") && i.last == i.optind < |a| && NonOption(a[i.optind])
    ensures
      var j := Indices(i.first, i.optind + 1, i.optind + 1);
      InScan(a, j, "") && SameScan(x, a, i, "", a, j, "")
  {
    var rest := a[i.optind..];
    assert rest[1..] == a[i.optind + 1..];
    assert a[i.first..i.last + 1] == a[i.first..i.last] + [rest[0]];
  }

  /** What begins the scan of an element changes nothing. */
  lemma StartKeeps(x: Syntax, a: seq<string>, i: Indices)
    requires InScan(a, i, "") && i.optind < |a| && !NonOption(a[i.optind]) && a[i.optind] != "--"
    ensures
      var nc := Letters(a[i.optind]);
      InScan(a, i, nc) && SameScan(x, a, i, "", a, i, nc)
  {
    hide Letters;
  }

  /** The element after the current one, which an option may take as its argument. */
  ghost function Following(a: seq<string>, optind: nat): Option<string> {
    if optind + 1 < |a| then Some(a[optind + 1]) else None
  }

  lemma DecodeKeeps(x: Syntax, a: seq<string>, i: Indices, nc: string)
    requires InScan(a, i, nc) && nc != ""
    ensures
      var t := ElementStep(x, a[i.optind], nc, Following(a, i.optind));
      var j := i.(optind := i.optind + t.used);
      && InScan(a, j, t.more) && Goal(x, a, j, t.more) == Goal(x, a, i, nc)
      && Others(x, a, j, t.more) == Others(x, a, i, nc)
      && Reports(x, a, i, nc) == [t.report] + Reports(x, a, j, t.more)
  {
    hide ElementStep;
    var rest := a[i.optind..];
    assert Next(rest) == Following(a, i.optind) && rest[0] == a[i.optind];
    var t := ElementStep(x, rest[0], nc, Next(rest));
    if t.more == "" {
      var k := i.optind + t.used;
      assert rest[t.used..] == a[k..] && a[i.last..k] == a[i.last..i.optind] + rest[..t.used];
    }
  }

  /** At the end of argv, and no options after the last non-options. */
  lemma GoalReached(x: Syntax, a: seq<string>, i: Indices)
    requires InScan(a, i, "") && i.last == i.optind == |a|
    ensures Goal(x, a, i, "") == a && Others(x, a, i, "") == a[i.first..] && Reports(x, a, i, "") == []
  {
    assert a[i.optind..] == [];
    assert a[..i.first] + a[i.first..] == a;
  }

  lemma ScanAtTerminator(x: Syntax, a: seq<string>, k: nat)
    requires CStrings(a) && k < |a| && a[k] == "--"
    ensures ScanFrom(x, a[k..], "") == Scan([], ["--"], a[k + 1..])
  {
    assert a[k..][1..] == a[k + 1..];
  }

  /** "--" goes before the non-options skipped, and the rest stays behind them. */
  lemma TerminatorReached(x: Syntax, a: seq<string>, i: Indices)
    requires InScan(a, i, "") && i.last == i.optind < |a| && a[i.optind] == "--"
    ensures
      var b := Exchanged(a, i.first, i.last, i.optind + 1);
      Goal(x, a, i, "") == b && Others(x, a, i, "") == b[i.first + 1..] && Reports(x, a, i, "") == []
  {
    var b := Exchanged(a, i.first, i.last, i.optind + 1);
    hide Exchanged, ScanFrom;
    ExchangedSlices(a, i.first, i.last, i.optind + 1);
    ScanAtTerminator(x, a, i.optind);
    OneDash(a, i.last);
    Joined(b, a[..i.first], a[i.first..i.last], a[i.optind + 1..], i.first + 1, i.optind + 1);
  }

  lemma OneDash(a: seq<string>, k: nat)
    requires k < |a| && a[k] == "--"
    ensures a[k..k + 1] == ["--"] && a[k..k] == []
  {
  }

  lemma Joined(b: seq<string>, head: seq<string>, n: seq<string>, r: seq<string>, p: nat, q: nat)
    requires p <= q <= |b| && b[..p] == head + ["--"] && b[p..q] == n && b[q..] == r
    ensures head + [] + ["--"] + n + r == b && b[p..] == n + r
  {
    ThreeParts(b, p, q);
    FiveParts(head, ["--"], n, r);
  }

  lemma ThreeParts(b: seq<string>, p: nat, q: nat)
    requires p <= q <= |b|
    ensures b == b[..p] + b[p..q] + b[q..] && b[p..] == b[p..q] + b[q..]
  {
  }

  lemma FiveParts(a: seq<string>, t: seq<string>, n: seq<string>, r: seq<string>)
    ensures a + [] + t + n + r == (a + t) + n + r
  {
  }

  lemma NothingExchanged(a: seq<string>, b: nat, t: nat)
    requires b <= t <= |a|
    ensures Exchanged(a, b, b, t) == a
  {
  }

  /** my_index */
  method MyIndex(s: string, c: char) returns (i: nat)
    ensures i == IndexOf(s, c)
  {
    i := 0;
    while i < |s| && s[i] != c
      invariant i <= |s| && forall j | 0 <= j < i :: s[j] != c
    {
      i := i + 1;
    }
  }

  /** The loop over all long options: first exact match, or else the first abbreviation, noting a second. */
  method MatchLong(opts: seq<LongOption>, name: string) returns (m: Match)
    ensures m == FindLong(opts, name)
  {
    var found, ambig := |opts|, false;
    for i := 0 to |opts|
      invariant forall j | 0 <= j < i :: opts[j].name != name
      invariant if found == |opts| then !ambig && forall j | 0 <= j < i :: !(name <= opts[j].name)
        else found < i && found == FirstAbbreviated(opts, name, 0) && (ambig <==> FirstAbbreviated(opts, name, found + 1) < i)
    {
      if name <= opts[i].name {
        if name == opts[i].name {
          return One(i);
        } else if found == |opts| {
          found := i;
        } else {
          ambig := true;
        }
      }
    }
    if ambig {
      return Several;
    }
    return if found < |opts| then One(found) else NoMatch;
  }

  class Getopt {
    const x: Syntax
    var firstNonopt: nat
    var lastNonopt: nat
    var optind: nat
    var nextchar: string

    /** _getopt_initialize, for an option string that asks for no other order. */
    constructor (x: Syntax)
      ensures this.x == x && firstNonopt == lastNonopt == optind == 1 && nextchar == ""
    {
      this.x := x;
      firstNonopt, lastNonopt, optind, nextchar := 1, 1, 1, "";
    }

    ghost function Now(): Indices
      reads this
    {
      Indices(firstNonopt, lastNonopt, optind)
    }

    ghost predicate Valid(a: seq<string>)
      reads this
    {
      InScan(a, Now(), nextchar)
    }

    /** Options behind non-options go before them; then non-options are skipped. */
    method Advance(argv: array<string>)
      requires Valid(argv[..]) && nextchar == ""
      modifies `firstNonopt, `lastNonopt, `optind, argv
      ensures Valid(argv[..]) && lastNonopt == optind && (optind < argv.Length ==> !NonOption(argv[optind]))
      ensures SameScan(x, old(argv[..]), old(Now()), "", argv[..], Now(), "")
    {
      hide Exchanged, Goal, Others, Reports;
      ghost var a, i := argv[..], Now();
      if firstNonopt != lastNonopt && lastNonopt != optind {
        ExchangeKeeps(x, a, i, "");
        Exchange(argv, firstNonopt, lastNonopt, optind);
        firstNonopt := firstNonopt + (optind - lastNonopt);
        lastNonopt := optind;
      } else if lastNonopt != optind {
        NoneSkippedKeeps(x, a, i, "");
        firstNonopt := optind;
      }
      ghost var b := argv[..];
      while optind < argv.Length && (At(argv[optind], 0) != '-' || At(argv[optind], 1) == '\0')
        invariant argv[..] == b && InScan(b, Indices(firstNonopt, optind, optind), "")
        invariant SameScan(x, a, i, "", b, Indices(firstNonopt, optind, optind), "")
        modifies `optind
        decreases argv.Length - optind
      {
        SkipKeeps(x, b, Indices(firstNonopt, optind, optind));
        optind := optind + 1;
      }
      lastNonopt := optind;
    }

    /** "--" is passed over like an option; all that follows is a non-option. */
    method Terminate(argv: array<string>)
      requires Valid(argv[..]) && nextchar == "" && lastNonopt == optind < argv.Length && argv[optind] == "--"
      modifies `firstNonopt, `lastNonopt, `optind, argv
      ensures argv[..] == old(Goal(x, argv[..], Now(), "")) && old(Reports(x, argv[..], Now(), "")) == []
      ensures firstNonopt <= lastNonopt == optind == argv.Length
      ensures argv[firstNonopt..] == old(Others(x, argv[..], Now(), ""))
    {
      hide Exchanged, Goal, Others, Reports;
      ghost var a, i := argv[..], Now();
      TerminatorReached(x, a, i);
      optind := optind + 1;
      if firstNonopt != lastNonopt && lastNonopt != optind {
        Exchange(argv, firstNonopt, lastNonopt, optind);
        firstNonopt := firstNonopt + (optind - lastNonopt);
      } else if firstNonopt == lastNonopt {
        NothingExchanged(a, i.first, i.optind + 1);
        firstNonopt := optind;
      }
      lastNonopt := argv.Length;
      optind := argv.Length;
      assert argv[firstNonopt..] == argv[..][firstNonopt..];
    }

    /** A long option: the whole of what is left of the element is its name and argument. */
    method DecodeLong(argv: array<string>) returns (r: Report)
      requires nextchar != "" && optind < argv.Length
      modifies `nextchar, `optind
      ensures
        var t := LongStep(x.longopts, old(nextchar), Following(argv[..], old(optind)));
        r == t.report && nextchar == t.more && optind == old(optind) + t.used
    {
      hide FindLong;
      var nameend := MyIndex(nextchar, '=');
      var m := MatchLong(x.longopts, nextchar[..nameend]);
      var nc := nextchar;
      nextchar := "";
      optind := optind + 1;
      if m.Several? || m.NoMatch? {
        return Illegal;
      }
      var option := x.longopts[m.index];
      if nameend < |nc| {
        if option.hasArg != 0 {
          return Long(m.index, Some(nc[nameend + 1..]));
        }
        return Illegal;
      } else if option.hasArg == 1 {
        if optind < argv.Length {
          optind := optind + 1;
          return Long(m.index, Some(argv[optind - 1]));
        }
        return Missing;
      }
      return Long(m.index, None);
    }

    /** The next short option character. */
    method DecodeShort(argv: array<string>) returns (r: Report)
      requires nextchar != "" && optind < argv.Length
      modifies `nextchar, `optind
      ensures
        var t := ShortStep(x.optstring, old(nextchar), Following(argv[..], old(optind)));
        r == t.report && nextchar == t.more && optind == old(optind) + t.used
    {
      var c := nextchar[0];
      nextchar := nextchar[1..];
      var temp := MyIndex(x.optstring, c);
      if nextchar == "" {
        optind := optind + 1;
      }
      if temp == |x.optstring| || c == ':' {
        return Illegal;
      }
      r := Short(c, None);
      if At(x.optstring, temp + 1) == ':' {
        if At(x.optstring, temp + 2) == ':' {
          if nextchar != "" {
            r := Short(c, Some(nextchar));
            optind := optind + 1;
          }
        } else if nextchar != "" {
          r := Short(c, Some(nextchar));
          optind := optind + 1;
        } else if optind == argv.Length {
          r := Missing;
        } else {
          r := Short(c, Some(argv[optind]));
          optind := optind + 1;
        }
        nextchar := "";
      }
    }

    method Decode(argv: array<string>) returns (r: Report)
      requires Valid(argv[..]) && nextchar != ""
      modifies `nextchar, `optind
      ensures Valid(argv[..])
      ensures Goal(x, argv[..], Now(), nextchar) == old(Goal(x, argv[..], Now(), nextchar))
      ensures Others(x, argv[..], Now(), nextchar) == old(Others(x, argv[..], Now(), nextchar))
      ensures old(Reports(x, argv[..], Now(), nextchar)) == [r] + Reports(x, argv[..], Now(), nextchar)
    {
      hide Goal, Others, Reports, LongStep, ShortStep;
      DecodeKeeps(x, argv[..], Now(), nextchar);
      if At(argv[optind], 1) == '-' {
        r := DecodeLong(argv);
      } else {
        r := DecodeShort(argv);
      }
    }

    /**
      One call: the next report, or None at the end; then argv has its final arrangement
      and optind is the index of the first non-option.
     */
    method GetOpt(argv: array<string>) returns (r: Option<Report>)
      requires Valid(argv[..])
      modifies this, argv
      ensures r.None? ==>
        && argv[..] == old(Goal(x, argv[..], Now(), nextchar)) && old(Reports(x, argv[..], Now(), nextchar)) == []
        && optind <= argv.Length && argv[optind..] == old(Others(x, argv[..], Now(), nextchar))
      ensures r.Some? ==>
        && Valid(argv[..])
        && Goal(x, argv[..], Now(), nextchar) == old(Goal(x, argv[..], Now(), nextchar))
        && Others(x, argv[..], Now(), nextchar) == old(Others(x, argv[..], Now(), nextchar))
        && old(Reports(x, argv[..], Now(), nextchar)) == [r.value] + Reports(x, argv[..], Now(), nextchar)
    {
      hide Goal, Others, Reports, Letters;
      if nextchar == "" {
        Advance(argv);
        if optind != argv.Length && argv[optind] == "--" {
          Terminate(argv);
        } else if optind == argv.Length {
          GoalReached(x, argv[..], Now());
          assert argv[firstNonopt..] == argv[..][firstNonopt..];
        }
        if optind == argv.Length {
          if firstNonopt != lastNonopt {
            optind := firstNonopt;
          }
          return None;
        }
        StartKeeps(x, argv[..], Now());
        nextchar := Letters(argv[optind]);
      }
      var report := Decode(argv);
      r := Some(report);
    }
  }

  lemma StartOfScan(x: Syntax, a: seq<string>)
    requires a != [] && CStrings(a)
    ensures
      var s := ScanFrom(x, a[1..], "");
      var i := Indices(1, 1, 1);
      Goal(x, a, i, "") == a[..1] + s.options + s.others && Others(x, a, i, "") == s.others && Reports(x, a, i, "") == s.reports
  {
    hide ScanFrom;
    assert a[1..1] == [];
  }

  /**
    The whole scan.  What the calls report is what the arguments say in their original
    order; argv ends as the program name, the options with their arguments, and the rest.
   */
  method ScanAll(x: Syntax, argv: array<string>) returns (reports: seq<Report>, optind: nat)
    requires argv.Length > 0 && CStrings(argv[..])
    modifies argv
    ensures
      var s := ScanFrom(x, old(argv[1..]), "");
      && reports == s.reports && optind == 1 + |s.options|
      && argv[..] == old(argv[..1]) + s.options + s.others
  {
    hide ScanFrom, Goal, Others, Reports;
    var getopt := new Getopt(x);
    ghost var a, i := argv[..], getopt.Now();
    assert a[1..] == argv[1..] && a[..1] == argv[..1];
    StartOfScan(x, a);
    reports := [];
    while true
      invariant getopt.x == x && getopt.Valid(argv[..])
      invariant Goal(x, argv[..], getopt.Now(), getopt.nextchar) == Goal(x, a, i, "")
      invariant Others(x, argv[..], getopt.Now(), getopt.nextchar) == Others(x, a, i, "")
      invariant reports + Reports(x, argv[..], getopt.Now(), getopt.nextchar) == Reports(x, a, i, "")
      modifies getopt, argv
      decreases |Reports(x, argv[..], getopt.Now(), getopt.nextchar)|
    {
      ghost var rest := Reports(x, argv[..], getopt.Now(), getopt.nextchar);
      var r := getopt.GetOpt(argv);
      if r.None? {
        break;
      }
      reports := reports + [r.value];
    }
    optind := getopt.optind;
    assert |argv[optind..]| == argv.Length - optind;
  }
}
