/**
  The converse: a trap that is sprung gives the host to an address that has it already; so
  the condition for one host between commas is exact.
 */
module ReplyTraps {
  import opened ReplyHackSpec
  import opened ReplyRuns
  import opened ReplyPieces
  import opened CText

  /** Back over blanks and the comma before them. */
  lemma {:induction false} BackUpPasses(s: string, lo: nat, k: nat)
    requires 0 < lo <= k < |s| && forall i | lo <= i <= k :: IsSpace(s[i]) || s[i] == ','
    ensures BackUp(s, k) < lo
    decreases k
  {
    if k > lo {
      BackUpPasses(s, lo, k - 1);
    }
  }

  lemma EndIsBlank(s: string, k: nat)
    requires k < |s| && (s[k] == ',' || HeaderEnd(s, k))
    ensures IsSpace(s[k]) || s[k] == ','
  {
  }

  /** At the comma of a sprung trap: the host goes in at the end of the next address, as far back as blanks and commas
   * go. */
  lemma CommaGives(m: Scan, host: string, ps: seq<nat>) returns (q: nat)
    requires Fresh(m) && m.text[m.from] == ',' && m.text[m.from - 1] != ',' && m.from + 1 < |m.text|
    requires m.text[m.from + 1] == ',' || HeaderEnd(m.text, m.from + 1)
    ensures ps + [q] <= Places(m, host, ps) && q == BackUp(m.text, m.from + 1) + 1
  {
    hide Step, Logged, HeaderEnd, At, Places, BackUp;
    CommaIsBare(m, host, ps);
    var end := m.(from := m.from + 1, hasBare := true, lastNws := ',');
    PlacesUnfolds(m, end, host, ps, ps);
    BareCommaGives(end, host, ps);
    q := BackUp(m.text, end.from) + 1;
    Advances(end, host);
    PlacesUnfolds(end, Step(end, host), host, ps, ps + [q]);
    PlacesGrow(Step(end, host), host, ps + [q]);
  }

  lemma ApartPrefix(s: string, os: seq<nat>, n: nat)
    requires Apart(s, os) && n <= |os|
    ensures Apart(s, os[..n])
  {
    hide PieceOf;
    assert forall k | 0 <= k < n :: os[..n][k] == os[k];
  }

  /** The text from the last insertion on, at a sprung trap. */
  lemma TrapText(orig: string, host: string, m: Scan, ps: seq<nat>, a: nat, os: seq<nat>, b: nat, c: nat)
    requires Reached(orig, host, m, ps, a) && Place(orig, m) == c && Trap(orig, b, c) && ps != []
    requires Placed(ps, os, |host| + 1) && Apart(orig, os)
    ensures |m.text| == |orig| + |ps| * (|host| + 1) && m.from == c + |ps| * (|host| + 1)
    ensures forall e: nat | os[|os| - 1] <= e < |orig| :: m.text[e + |ps| * (|host| + 1)] == orig[e]
    ensures m.from + 1 < |m.text| && m.text[m.from] == ',' && m.from > 0 && m.text[m.from - 1] != ','
    ensures m.text[m.from + 1] == ',' || HeaderEnd(m.text, m.from + 1)
  {
    hide Reached, Inserted, Behind, Apart, HeaderEnd;
    CharBehind(orig, host, m, ps, a);
    LongerIs(orig, host, m, ps, a);
    TextIs(orig, host, m, ps, a);
    ApartRises(orig, os);
    TailSame(orig, ps, os, "@" + host);
    NextTwo(orig, host, m, ps, a);
  }

  lemma NextTwo(orig: string, host: string, m: Scan, ps: seq<nat>, a: nat)
    requires Reached(orig, host, m, ps, a) && 0 <= Place(orig, m) && Place(orig, m) + 1 < |orig|
    ensures m.from + 1 < |m.text| && m.text[m.from + 1] == orig[Place(orig, m) + 1]
    ensures HeaderEnd(m.text, m.from + 1) <==> HeaderEnd(orig, Place(orig, m) + 1)
  {
    hide Inserted, Increasing, OncePerPiece;
    var i := Place(orig, m);
    var t := m.text[m.from..];
    assert t == orig[i..];
    assert t[1] == m.text[m.from + 1];
    assert i + 2 < |orig| ==> t[2] == m.text[m.from + 2];
  }

  /** The new place is not behind the first comma behind the last one. */
  lemma SameAgain(orig: string, text: string, d: nat, last: nat, b: nat, c: nat) returns (q: nat)
    requires Trap(orig, b, c) && Joined(orig, last, b) && d > 0 && |text| == |orig| + d
    requires forall e: nat | last <= e < |orig| :: text[e + d] == orig[e]
    ensures q == BackUp(text, c + 1 + d) + 1
    ensures 0 <= q - d <= |orig| ==> PieceOf(orig, q - d) <= PieceOf(orig, last)
  {
    var a: nat :| FirstComma(orig, last, a) && a <= b && NoLetters(orig, a, b);
    EndIsBlank(orig, c + 1);
    hide HeaderEnd, BackUp;
    forall i | a + d <= i <= c + 1 + d
      ensures IsSpace(text[i]) || text[i] == ','
    {
      assert text[i - d + d] == orig[i - d];
    }
    BackUpPasses(text, a + d, c + 1 + d);
    q := BackUp(text, c + 1 + d) + 1;
    NoCommas(orig, last, a);
    if 0 <= q - d {
      CommasGrow(orig, q - d, a);
    }
  }

  /** A sprung trap gives the host to an address that was given it before. */
  lemma LiveDoubles(buf: string, host: string, b: nat, c: nat, os: seq<nat>)
    requires EndsWell(host) && HasAddresses(buf) && Live(buf, host, b, c)
    requires Placed(Hosts(buf, host), os, |host| + 1)
    ensures !Apart(buf, os)
  {
    var m, ps := Later(Start(buf), host, c), LaterPlaces(Start(buf), host, [], c);
    hide Later, LaterPlaces, Places, HasAddresses, Reached, HeaderEnd, Joined, Apart, Placed, Fresh, LastPlace;
    Begins(buf, host);
    var x := LaterReached(buf, host, Start(buf), [], 0, c);
    assert Place(buf, m) == c;
    LiveGives(buf, host, m, ps, x, os, b, c);
  }

  lemma LiveGives(buf: string, host: string, m: Scan, ps: seq<nat>, x: nat, os: seq<nat>, b: nat, c: nat)
    requires Reached(buf, host, m, ps, x) && Place(buf, m) == c && Trap(buf, b, c) && Fresh(m) && ps != []
    requires Joined(buf, LastPlace(ps, |host| + 1), b)
    requires Placed(Places(m, host, ps), os, |host| + 1)
    ensures !Apart(buf, os)
  {
    hide Reached, Joined, Trap, Apart, Places, HeaderEnd;
    if Apart(buf, os) {
      var n, w := |ps|, |host| + 1;
      PlacesGrow(m, host, ps);
      PlacedPrefix(Places(m, host, ps), os, w, ps);
      ApartPrefix(buf, os, n);
      TrapText(buf, host, m, ps, x, os[..n], b, c);
      var q := CommaGives(m, host, ps);
      assert LastPlace(ps, w) == os[..n][n - 1] == os[n - 1];
      var q' := SameAgain(buf, m.text, n * w, os[n - 1], b, c);
      NextPlaced(Places(m, host, ps), os, w, ps, q);
      TwoApart(buf, os, n);
      assert false;
    }
  }

  lemma PlacedPrefix(qs: seq<nat>, os: seq<nat>, w: nat, ps: seq<nat>)
    requires Placed(qs, os, w) && ps <= qs
    ensures |ps| <= |os| && Placed(ps, os[..|ps|], w)
  {
    assert forall k | 0 <= k < |ps| :: ps[k] == qs[k];
  }

  lemma NextPlaced(qs: seq<nat>, os: seq<nat>, w: nat, ps: seq<nat>, q: nat)
    requires Placed(qs, os, w) && ps + [q] <= qs
    ensures |ps| < |os| && os[|ps|] == q - |ps| * w
  {
    assert qs[|ps|] == (ps + [q])[|ps|] == q;
  }

  lemma TwoApart(s: string, os: seq<nat>, n: nat)
    requires Apart(s, os) && 0 < n < |os|
    ensures PieceOf(s, os[n - 1]) < PieceOf(s, os[n]) && os[n] <= |s|
  {
  }

  /**
    No two insertions fall between the same commas if and only if no trap is sprung.
   */
  lemma ApartExactly(buf: string, host: string)
    requires EndsWell(host)
    ensures (exists os: seq<nat> :: Placed(Hosts(buf, host), os, |host| + 1) && Apart(buf, os)) <==>
            !HasAddresses(buf) || NoneLive(buf, host)
  {
    hide Placed, Apart, HasAddresses, Live;
    if !HasAddresses(buf) {
      NothingPut(buf, host);
    } else if NoneLive(buf, host) {
      var os := OneHostPerPiece(buf, host);
    } else {
      var b, c :| Live(buf, host, b, c);
      forall os: seq<nat> | Placed(Hosts(buf, host), os, |host| + 1) ensures !Apart(buf, os) {
        LiveDoubles(buf, host, b, c, os);
      }
    }
  }

  lemma NothingPut(buf: string, host: string)
    requires !HasAddresses(buf)
    ensures Placed(Hosts(buf, host), [], |host| + 1) && Apart(buf, [])
  {
  }

  // ----- The header of DoubledHost -----

  lemma TracedLogged(k: nat, ps: seq<nat>)
    requires k < 6
    ensures Traced(k).from < |Traced(k).text| && Logged(Traced(k), ps) == if k == 4 then ps + [4] else ps
  {
    hide BackUp, Insert, Backslashes;
    var s := "Cc:a, ,\n";
    if k == 4 {
      assert s[3] == 'a' && s[4] == ',';
      BackUpAtName(s, 4);
    } else if k < 5 {
      assert Traced(k).text[k] != ',' && Traced(k).text[k] != '\n';
    }
  }

  lemma BackUpAtName(s: string, k: nat)
    requires 0 < k < |s| && s[k] == ',' && !IsSpace(s[k - 1]) && s[k - 1] != ','
    ensures BackUp(s, k) == k - 1
  {
    assert BackUp(s, k - 1) == k - 1;
  }

  lemma {:induction false} TracedLater(k: nat)
    requires k <= 6
    ensures Traced(k).from + (6 - k) <= |Traced(k).text| && Later(Traced(k), "h", 6 - k) == Traced(6)
    ensures LaterPlaces(Traced(k), "h", if k < 5 then [] else [4], 6 - k) == [4]
    decreases 6 - k
  {
    if k < 6 {
      TracedStep(k);
      var ps: seq<nat> := if k < 5 then [] else [4];
      TracedLogged(k, ps);
      TracedLater(k + 1);
      Advances(Traced(k), "h");
      hide Later, LaterPlaces, Traced, Step, Logged;
      LaterUnfolds(Traced(k), Traced(k + 1), "h", ps, if k < 4 then [] else [4], 6 - k);
    }
  }

  lemma TrapThere()
    ensures Trap("Cc:a, ,\n", 4, 6) && HasAddresses("Cc:a, ,\n") && Joined("Cc:a, ,\n", 4, 4)
  {
    var s := "Cc:a, ,\n";
    assert s[4] == ',' && s[5] == ' ' && s[6] == ',' && s[7] == '\n';
    assert BeginsWith(s, HEADERS[4]);
    assert FirstComma(s, 4, 4) && NoLetters(s, 4, 4);
  }

  lemma FreshThere()
    ensures Traced(0) == Start("Cc:a, ,\n") && Fresh(Traced(6)) && LastPlace([4], 2) == 4
    ensures Traced(0).from == 0 && Traced(0).parensFrom.None? && |Traced(0).text| == 8
  {
  }

  /** The header of DoubledHost is such a case. */
  lemma DoubledByTrap(os: seq<nat>)
    requires Placed(Hosts("Cc:a, ,\n", "h"), os, 2)
    ensures !Apart("Cc:a, ,\n", os)
  {
    hide Later, LaterPlaces, Hosts, Placed, Apart, Traced, Start, Trap, Joined, Fresh, HasAddresses, LastPlace;
    TracedLater(0);
    FreshThere();
    TrapThere();
    assert |"h"| + 1 == 2;
    LiveDoubles("Cc:a, ,\n", "h", 4, 6, os);
  }
}
