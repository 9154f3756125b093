/**
  Which address of a header reply_hack gives the host to: each insertion falls behind a
  comma that the ones before are not behind, unless a blank address springs the trap.
 */
module ReplyPieces {
  import opened ReplyHackSpec
  import opened ReplyRuns
  import opened CText

  predicate Letter(c: char) {
    !IsSpace(c) && c != ','
  }

  ghost predicate HasLetter(s: string, lo: nat, hi: nat) {
    exists e | lo <= e < hi && e < |s| :: Letter(s[e])
  }

  ghost predicate AllBlank(s: string, lo: nat, hi: nat) {
    forall e | lo <= e < hi && e < |s| :: IsSpace(s[e])
  }

  /** A blank address between commas, with the next address or the header ending right behind it. */
  ghost predicate Trap(s: string, a: nat, c: nat) {
    && a < c - 1 && c + 1 < |s| && s[a] == ',' && s[c] == ',' && AllBlank(s, a + 1, c)
    && (s[c + 1] == ',' || HeaderEnd(s, c + 1))
  }

  /** The first comma at or behind place `o`. */
  ghost predicate FirstComma(s: string, o: int, a: nat) {
    0 <= o <= a < |s| && s[a] == ',' && forall i | o <= i < a :: s[i] != ','
  }

  ghost predicate NoLetters(s: string, lo: nat, hi: nat) {
    forall i | lo <= i < hi && i < |s| :: !Letter(s[i])
  }

  /** From the first comma at or behind place `o` on there are only blanks and commas, up to comma `b`. */
  ghost predicate Joined(s: string, o: int, b: nat) {
    exists a: nat :: FirstComma(s, o, a) && a <= b && NoLetters(s, a, b)
  }

  /** Where the last insertion was made, as a place of the header as it was. */
  function LastPlace(ps: seq<nat>, w: nat): int
    requires ps != []
  {
    ps[|ps| - 1] - (|ps| - 1) * w
  }

  /** A trap that is sprung: the comma that ends the blank address is scanned as part of an address, and nothing
      but blanks and commas lies between it and the last address that was given the host. */
  ghost predicate Live(s: string, host: string, b: nat, c: nat) {
    && Trap(s, b, c) && Fresh(Later(Start(s), host, c))
    && var ps := LaterPlaces(Start(s), host, [], c);
       ps != [] && Joined(s, LastPlace(ps, |host| + 1), b)
  }

  ghost predicate NoneLive(s: string, host: string) {
    forall b, c :: !Live(s, host, b, c)
  }

  /** The number of the comma-separated piece that place `o` is in. */
  function PieceOf(s: string, o: nat): nat {
    if o <= |s| then Commas(s, o) else 0
  }

  /** The places, as places of the header as it was, fall in different comma-separated pieces. */
  ghost predicate Apart(s: string, os: seq<nat>) {
    && (forall k | 0 <= k < |os| :: os[k] <= |s|)
    && forall j, k | 0 <= j < k < |os| :: PieceOf(s, os[j]) < PieceOf(s, os[k])
  }

  /** Each place moves up by what was put in before it. */
  ghost predicate Placed(ps: seq<nat>, os: seq<nat>, w: nat) {
    |ps| == |os| && forall k | 0 <= k < |ps| :: ps[k] == os[k] + k * w
  }

  /** How much longer the text has become. */
  ghost function Longer(orig: string, m: Scan): int {
    |m.text| - |orig|
  }

  /** Only blanks since place `r`, but for a comma just scanned. */
  ghost predicate BlankTail(s: string, r: nat, i: nat)
    requires i <= |s|
  {
    AllBlank(s, r, i) || (i > r && s[i - 1] == ',' && AllBlank(s, r, i - 1))
  }

  /** While the address has no host: `r` is the place behind the last comma noted, and nothing was put in since. */
  ghost predicate Quiet(orig: string, m: Scan, os: seq<nat>, r: nat)
    requires 0 <= Place(orig, m) <= |orig| && 0 <= Longer(orig, m) && r <= Place(orig, m)
  {
    var i, d := Place(orig, m), Longer(orig, m);
    && (r > 0 ==> orig[r - 1] == ',') && (os != [] ==> os[|os| - 1] < r)
    && (forall e | r <= e < |orig| :: m.text[e + d] == orig[e])
    && (m.hasBare ==> HasLetter(orig, r, i) || (i > r + 1 && orig[i - 1] == ',' && m.depth == 0))
    && (m.parensFrom.Some? ==> r + d <= m.parensFrom.value && HasLetter(orig, r, m.parensFrom.value - d))
    && (HasLetter(orig, r, i) || (m.depth == 0 && BlankTail(orig, r, i)))
    && (r == 0 && m.state != BeforeColon ==> HasLetter(orig, 0, i))
  }

  ghost predicate Own(orig: string, host: string, m: Scan, ps: seq<nat>, os: seq<nat>, r: nat) {
    && 0 <= Place(orig, m) <= |orig| && 0 <= Longer(orig, m) && r <= Place(orig, m)
    && Placed(ps, os, |host| + 1) && Apart(orig, os)
    && if m.hasHost then os != [] ==> os[|os| - 1] < Place(orig, m) else Quiet(orig, m, os, r)
  }

  lemma {:induction false} CommasGrow(s: string, i: nat, j: nat)
    requires i <= j <= |s|
    ensures Commas(s, i) <= Commas(s, j)
    decreases j
  {
    if i < j {
      CommasGrow(s, i, j - 1);
    }
  }

  /** One more place, behind a comma that the places before are not behind. */
  lemma ApartNext(s: string, os: seq<nat>, r: nat, o: nat)
    requires Apart(s, os) && r <= o <= |s| && (r > 0 ==> s[r - 1] == ',') && (os != [] ==> os[|os| - 1] < r)
    ensures Apart(s, os + [o])
  {
    if os != [] {
      CommasGrow(s, os[|os| - 1], r - 1);
      CommasGrow(s, r, o);
    }
  }

  lemma PlacedNext(ps: seq<nat>, os: seq<nat>, w: nat, q: nat, o: nat)
    requires Placed(ps, os, w) && q == o + |ps| * w
    ensures Placed(ps + [q], os + [o], w)
  {
  }

  lemma EndsAlike(orig: string, m: Scan, r: nat)
    requires m.from < |m.text| && 0 <= Place(orig, m) && 0 <= Longer(orig, m) && r <= Place(orig, m)
    requires forall e | r <= e < |orig| :: m.text[e + Longer(orig, m)] == orig[e]
    ensures m.text[m.from] == orig[Place(orig, m)] && (HeaderEnd(m.text, m.from) <==> HeaderEnd(orig, Place(orig, m)))
  {
    var i := Place(orig, m);
    assert i + 1 < |orig| ==> m.text[i + 1 + Longer(orig, m)] == orig[i + 1];
  }

  /** A host put in when the address has no letter: a trap ends here. */
  lemma TrapHere(orig: string, m: Scan, os: seq<nat>, r: nat, a: nat)
    requires m.from < |m.text| && Behind(orig, m, a) && 0 <= Longer(orig, m) && r <= Place(orig, m) &&
      Quiet(orig, m, os, r)
    requires m.parensFrom.None? && m.state == Addresses && Point(m).Some? && !HasLetter(orig, r, Place(orig, m))
    ensures 0 < r && r < Place(orig, m) - 1 && Trap(orig, r - 1, Place(orig, m) - 1) && orig[r - 1] == ','
    ensures m.hasBare && (m.text[m.from] == ',' || HeaderEnd(m.text, m.from))
    ensures Point(m).value == BackUp(m.text, m.from) + 1
  {
    hide BackUp, HasLetter, HeaderEnd, Letter;
    EndsAlike(orig, m, r);
  }

  /** Else the host goes behind the last letter of the address, so not before the comma it began with. */
  lemma PointInPiece(orig: string, m: Scan, os: seq<nat>, r: nat, a: nat)
    requires m.from < |m.text| && Behind(orig, m, a) && 0 <= Longer(orig, m) && r <= Place(orig, m) &&
      Quiet(orig, m, os, r)
    requires m.parensFrom.Some? ==> m.parensFrom.value < |m.text|
    requires Point(m).Some? && !m.hasHost
    requires m.state == Addresses ==> m.parensFrom.Some? || HasLetter(orig, r, Place(orig, m))
    ensures r + Longer(orig, m) <= Point(m).value <= m.from
  {
    if m.state == Addresses {
      EndsAddress(m.text, m.from);
      hide BackUp, HeaderEnd, BlankTail;
      var d := Longer(orig, m);
      var k := if m.parensFrom.Some? then m.parensFrom.value else m.from;
      var e :| r <= e < k - d && e < |orig| && Letter(orig[e]);
      assert m.text[e + d] == orig[e];
      BackUpStops(m.text, k, e + d);
    }
  }

  lemma LetterStays(s: string, r: nat, i: nat, j: nat)
    requires HasLetter(s, r, i) && i <= j
    ensures HasLetter(s, r, j)
  {
    var e :| r <= e < i && e < |s| && Letter(s[e]);
  }

  /** A character that is not yet looked at as part of an address. */
  lemma QuietAfterComma(orig: string, m: Scan, os: seq<nat>)
    requires 0 < Place(orig, m) <= |orig| && 0 <= Longer(orig, m) && m.from < |m.text|
    requires m.text[m.from..] == orig[Place(orig, m)..] && orig[Place(orig, m) - 1] == ',' && m.depth == 0
    requires os != [] ==> os[|os| - 1] < Place(orig, m)
    ensures
      var n := m.(from := m.from + 1, hasHost := false, hasBare := false, parensFrom := None);
      Quiet(orig, n, os, Place(orig, m))
  {
    var i, d := Place(orig, m), Longer(orig, m);
    var n := m.(from := m.from + 1, hasHost := false, hasBare := false, parensFrom := None);
    forall e | i <= e < |orig|
      ensures m.text[e + d] == orig[e]
    {
      assert m.text[m.from..][e - i] == orig[i..][e - i];
    }
    if Letter(orig[i]) {
      assert HasLetter(orig, i, i + 1);
    } else {
      assert BlankTail(orig, i, i + 1);
    }
  }

  lemma LettersNext(s: string, r: nat, i: nat)
    requires r <= i < |s|
    ensures HasLetter(s, r, i) || Letter(s[i]) <==> HasLetter(s, r, i + 1)
    ensures BlankTail(s, r, i) && (i > r ==> s[i - 1] != ',') && !Letter(s[i]) ==> BlankTail(s, r, i + 1)
  {
    if HasLetter(s, r, i) {
      LetterStays(s, r, i, i + 1);
    }
  }

  /** What an address without a host keeps from one character to the next when no comma is noted. */
  lemma QuietNext(orig: string, m: Scan, t: Scan, os: seq<nat>, r: nat)
    requires 0 <= Place(orig, m) < |orig| && 0 <= Longer(orig, m) && r <= Place(orig, m) && Quiet(orig, m, os, r)
    requires t.text == m.text && t.from == m.from < |m.text| && m.text[m.from] == orig[Place(orig, m)]
    requires Place(orig, m) > 0 ==> m.from > 0 && m.text[m.from - 1] == orig[Place(orig, m) - 1]
    requires !PastComma(t)
    requires t.depth == m.depth || orig[Place(orig, m)] == '(' || orig[Place(orig, m)] == ')'
    requires t.hasBare ==> m.hasBare || (t.depth == 0 && m.state != BeforeColon && !IsSpace(orig[Place(orig, m)]))
    requires t.parensFrom == m.parensFrom || (t.parensFrom == Some(m.from) && m.hasBare && t.depth == 0)
    requires t.state != BeforeColon ==> m.state != BeforeColon || orig[Place(orig, m)] == ':'
    ensures Quiet(orig, t.(from := t.from + 1), os, r)
  {
    var i, d := Place(orig, m), Longer(orig, m);
    var c := orig[i];
    assert m.from == i + d;
    LettersNext(orig, r, i);
    hide HasLetter, AllBlank, BlankTail;
    if t.hasBare && !HasLetter(orig, r, i + 1) {
      assert !HasLetter(orig, r, i);
      assert !Letter(c);
      assert t.depth == m.depth == 0;
      assert i > r && !m.hasBare;
    }
    assert t.parensFrom.Some? && t.parensFrom != m.parensFrom ==> HasLetter(orig, r, i);
    if r == 0 && t.state != BeforeColon {
      if m.state != BeforeColon {
      } else {
        assert Letter(orig[i]);
      }
    }
  }

  /** Where the host goes in, the text is opened there and the address has its host. */
  lemma PointTurns(m: Scan, host: string)
    requires m.from < |m.text| && (m.parensFrom.Some? ==> m.parensFrom.value < |m.text|)
    ensures
      var t := Switched(m, host);
      if Point(m).Some? then
        && Point(m).value <= |m.text| && t.hasHost && t.text == Insert(m.text, Point(m).value, "@" + host)
        && t.from == m.from + |host| + 1 && m.text[m.from] != '(' && m.text[m.from] != ')'
      else
        && t.text == m.text && t.from == m.from && t.depth == m.depth
        && (t.hasBare ==> m.hasBare || (m.state == Addresses && !IsSpace(m.text[m.from])))
        && (t.parensFrom == m.parensFrom || (t.parensFrom == Some(m.from) && m.hasBare))
        && (t.state != BeforeColon ==> m.state != BeforeColon || m.text[m.from] == ':')
  {
    if m.state == Addresses {
      AddressCases(m, host);
    }
    hide InAddresses, Insert, BackUp, Backslashes;
  }

  /** The comma is noted only if the host went in behind it, or not right before the cursor. */
  lemma PointNotLast(m: Scan, q: nat, host: string)
    requires EndsWell(host) && q <= m.from < |m.text|
    requires PastComma(WithHost(m, q, host))
    ensures q < m.from
  {
    hide Insert;
    if q == m.from {
      InsertEnds(m.text, q, "@" + host);
    }
  }

  lemma InsertEnds(s: string, q: nat, x: string)
    requires q <= |s| && x != ""
    ensures |Insert(s, q, x)| == |s| + |x| && Insert(s, q, x)[q + |x| - 1] == x[|x| - 1]
  {
  }

  /** All the places are before `i`. */
  predicate Before(os: seq<nat>, i: nat) {
    os != [] ==> os[|os| - 1] < i
  }

  lemma CharBehind(orig: string, host: string, m: Scan, ps: seq<nat>, a: nat)
    requires Reached(orig, host, m, ps, a) && m.from < |m.text|
    ensures m.parensFrom.Some? ==> m.parensFrom.value < |m.text|
    ensures 0 <= Place(orig, m) < |orig| && m.text[m.from] == orig[Place(orig, m)]
    ensures Place(orig, m) > 0 ==> m.from > 0 && m.text[m.from - 1] == orig[Place(orig, m) - 1]
  {
    hide Inserted, Increasing;
    NextPlace(orig, host, m, ps, a);
  }

  lemma LongerIs(orig: string, host: string, m: Scan, ps: seq<nat>, a: nat)
    requires Reached(orig, host, m, ps, a)
    ensures Longer(orig, m) == |ps| * (|host| + 1) && Behind(orig, m, a)
  {
    hide Inserted, Increasing;
  }

  lemma QuietBounds(orig: string, m: Scan, os: seq<nat>, r: nat)
    requires 0 <= Place(orig, m) <= |orig| && 0 <= Longer(orig, m) && r <= Place(orig, m) && Quiet(orig, m, os, r)
    ensures (r > 0 ==> orig[r - 1] == ',') && Before(os, r)
  {
    hide HasLetter, BlankTail;
  }

  // ----- The places in the text -----

  predicate Rising(os: seq<nat>, n: nat) {
    forall k | 0 <= k < |os| :: os[k] <= n && (k > 0 ==> os[k - 1] < os[k])
  }

  lemma ApartRises(s: string, os: seq<nat>)
    requires Apart(s, os)
    ensures Rising(os, |s|)
  {
    forall k | 0 < k < |os| ensures os[k - 1] < os[k] {
      assert PieceOf(s, os[k - 1]) < PieceOf(s, os[k]);
      if os[k] <= os[k - 1] {
        CommasGrow(s, os[k], os[k - 1]);
      }
    }
  }

  /** Behind the last insertion the text is the header as it was. */
  lemma {:induction false} TailSame(orig: string, ps: seq<nat>, os: seq<nat>, x: string)
    requires Placed(ps, os, |x|) && Rising(os, |orig|)
    ensures
      var t := Inserted(orig, ps, x);
      && |t| == |orig| + |ps| * |x|
      && forall e: nat | e < |orig| && (os == [] || os[|os| - 1] <= e) :: t[e + |ps| * |x|] == orig[e]
    decreases |ps|
  {
    var n := |ps| - 1;
    if n >= 0 {
      TailSame(orig, ps[..n], os[..n], x);
      Distribute(n, |x|);
      var was := Inserted(orig, ps[..n], x);
      var t := Insert(was, ps[n], x);
      forall e: nat | e < |orig| && os[n] <= e ensures t[e + |ps| * |x|] == orig[e] {
        assert e + |ps| * |x| == (e + n * |x|) + |x|;
        assert t[(e + n * |x|) + |x|] == was[e + n * |x|];
      }
    }
  }

  lemma {:induction false} FirstCommaFrom(s: string, o: nat, b: nat) returns (a: nat)
    requires o <= b < |s| && s[b] == ','
    ensures FirstComma(s, o, a) && a <= b
    decreases b - o
  {
    a := o;
    if s[o] != ',' {
      a := FirstCommaFrom(s, o + 1, b);
    }
  }

  lemma {:induction false} NoCommas(s: string, o: nat, a: nat)
    requires o <= a <= |s| && forall i | o <= i < a :: s[i] != ','
    ensures Commas(s, o) == Commas(s, a)
    decreases a
  {
    if o < a {
      NoCommas(s, o, a - 1);
    }
  }

  lemma ApartMore(s: string, os: seq<nat>, o: nat)
    requires Apart(s, os) && o <= |s| && (os != [] ==> PieceOf(s, os[|os| - 1]) < PieceOf(s, o))
    ensures Apart(s, os + [o])
  {
    hide PieceOf;
    var ns := os + [o];
    forall j, k | 0 <= j < k < |ns| ensures PieceOf(s, ns[j]) < PieceOf(s, ns[k]) {
      if k == |os| && j < k - 1 {
        assert PieceOf(s, os[j]) < PieceOf(s, os[k - 1]);
      }
    }
  }

  /** The way back stops at a letter behind the first comma behind the last insertion. */
  lemma LetterBetween(orig: string, text: string, d: nat, from: nat, o: nat, b: nat) returns (q: nat)
    requires o <= b < |orig| && orig[b] == ',' && !Joined(orig, o, b) && b + d < from < |text|
    requires forall e: nat | o <= e <= b :: e + d < |text| && text[e + d] == orig[e]
    ensures q == BackUp(text, from) + 1 && d < q && q <= from + 1
    ensures q - d <= |orig| ==> PieceOf(orig, o) < PieceOf(orig, q - d)
  {
    hide BackUp;
    var a := FirstCommaFrom(orig, o, b);
    assert !NoLetters(orig, a, b);
    var e :| a <= e < b && Letter(orig[e]);
    BackUpStops(text, from, e + d);
    q := BackUp(text, from) + 1;
    NoCommas(orig, o, a);
    if q - d <= |orig| {
      CommasGrow(orig, a + 1, q - d);
    }
  }

  // ----- One character -----

  /** The scan is at this place of its run on the header. */
  ghost predicate OnRun(orig: string, host: string, m: Scan, ps: seq<nat>) {
    && 0 <= Place(orig, m) <= |orig|
    && m == Later(Start(orig), host, Place(orig, m)) && ps == LaterPlaces(Start(orig), host, [], Place(orig, m))
  }

  /** A bare name without a letter is a comma just scanned. */
  ghost predicate BareFrom(orig: string, host: string, m: Scan, ps: seq<nat>, r: nat)
    requires 0 <= Place(orig, m) <= |orig|
  {
    var i := Place(orig, m);
    !m.hasHost && m.hasBare && !HasLetter(orig, r, i) ==>
      i > 0 && Fresh(Later(Start(orig), host, i - 1)) && LaterPlaces(Start(orig), host, [], i - 1) == ps
  }

  /** At a trap that is not sprung the host goes to an address that has none. */
  lemma TrapPoint(orig: string, host: string, m: Scan, ps: seq<nat>, a: nat, os: seq<nat>, r: nat) returns (o: nat)
    requires Reached(orig, host, m, ps, a) && m.from < |m.text| && Own(orig, host, m, ps, os, r)
    requires NoneLive(orig, host) && BareFrom(orig, host, m, ps, r)
    requires !m.hasHost && m.state == Addresses && m.parensFrom.None? && Point(m).Some?
    requires !HasLetter(orig, r, Place(orig, m))
    ensures Point(m).value == o + |ps| * (|host| + 1) && Apart(orig, os + [o]) && Point(m).value <= m.from
  {
    hide Reached, Quiet, HasLetter, Behind, BackUp, Point, Inserted, Increasing, Apart, HeaderEnd, Later, LaterPlaces,
      Trap, Joined;
    var w := |host| + 1;
    LongerIs(orig, host, m, ps, a);
    TrapHere(orig, m, os, r, a);
    EndsAddress(m.text, m.from);
    QuietBounds(orig, m, os, r);
    TextIs(orig, host, m, ps, a);
    ApartRises(orig, os);
    TailSame(orig, ps, os, "@" + host);
    var b, c := r - 1, Place(orig, m) - 1;
    assert !Live(orig, host, b, c);
    if ps == [] {
      o := Point(m).value;
      ApartMore(orig, os, o);
    } else {
      var last := os[|os| - 1];
      assert LastPlace(ps, w) == last;
      assert !Joined(orig, last, b);
      var q := LetterBetween(orig, m.text, |ps| * w, m.from, last, b);
      o := q - |ps| * w;
      ApartMore(orig, os, o);
    }
  }

  lemma TextIs(orig: string, host: string, m: Scan, ps: seq<nat>, a: nat)
    requires Reached(orig, host, m, ps, a)
    ensures m.text == Inserted(orig, ps, "@" + host)
  {
  }

  /** A host put in falls in a piece of its own. */
  lemma OwnPoint(orig: string, host: string, m: Scan, ps: seq<nat>, a: nat, os: seq<nat>, r: nat) returns (o: nat)
    requires EndsWell(host) && NoneLive(orig, host) && Reached(orig, host, m, ps, a) && m.from < |m.text|
    requires m.parensFrom.Some? ==> m.parensFrom.value < |m.text|
    requires Own(orig, host, m, ps, os, r) && BareFrom(orig, host, m, ps, r)
    requires !m.hasHost && m.depth == 0 && Point(m).Some?
    ensures Placed(ps + [Point(m).value], os + [o], |host| + 1) && Apart(orig, os + [o]) && o <= Place(orig, m)
    ensures PastComma(Switched(m, host)) ==> o < Place(orig, m)
  {
    hide Reached, NoneLive, Apart, Placed, Insert, Point, Switched, Quiet, HasLetter, BareFrom;
    LongerIs(orig, host, m, ps, a);
    var q := Point(m).value;
    if m.state == Addresses && m.parensFrom.None? && !HasLetter(orig, r, Place(orig, m)) {
      o := TrapPoint(orig, host, m, ps, a, os, r);
    } else {
      PointInPiece(orig, m, os, r, a);
      o := q - Longer(orig, m);
      QuietBounds(orig, m, os, r);
      ApartNext(orig, os, r, o);
    }
    PointTurns(m, host);
    PlacedNext(ps, os, |host| + 1, q, o);
    if PastComma(Switched(m, host)) {
      assert PastComma(WithHost(m, q, host));
      PointNotLast(m, q, host);
    }
  }

  lemma OwnTurned(orig: string, host: string, m: Scan, ps: seq<nat>, a: nat, os: seq<nat>,
    r: nat) returns (ns: seq<nat>)
    requires EndsWell(host) && NoneLive(orig, host) && Reached(orig, host, m, ps, a) && m.from < |m.text|
    requires Own(orig, host, m, ps, os, r) && BareFrom(orig, host, m, ps, r)
    ensures
      var t := Turned(m, host);
      && Placed(Logged(m, ps), ns, |host| + 1) && Apart(orig, ns) && Before(ns, Place(orig, m) + 1)
      && (PastComma(t) ==> Before(ns, Place(orig, m))) && (t.hasHost || ns == os) && (!t.hasHost ==> !m.hasHost)
  {
    hide Reached, NoneLive, BareFrom, Apart, Placed, Insert, Point, Switched, Quiet;
    CharBehind(orig, host, m, ps, a);
    if !m.hasHost {
      QuietBounds(orig, m, os, r);
    }
    var n := Nested(m);
    PointTurns(n, host);
    ns := os;
    if n.depth == 0 && !n.hasHost && Point(n).Some? {
      assert n == m;
      var o := OwnPoint(orig, host, m, ps, a, os, r);
      ns := os + [o];
    }
  }

  /** A character that puts no host in moves no text. */
  lemma QuietTurn(orig: string, host: string, m: Scan, ps: seq<nat>, a: nat)
    requires Reached(orig, host, m, ps, a) && m.from < |m.text|
    requires !Turned(m, host).hasHost && !m.hasHost
    ensures
      var t, c := Turned(m, host), m.text[m.from];
      && Logged(m, ps) == ps && t.text == m.text && t.from == m.from && (t.depth == m.depth || c == '(' || c == ')')
      && (t.hasBare ==> m.hasBare || (t.depth == 0 && m.state == Addresses && !IsSpace(c)))
      && (t.parensFrom == m.parensFrom || (t.parensFrom == Some(m.from) && m.hasBare && t.depth == 0))
      && (t.state != BeforeColon ==> m.state != BeforeColon || c == ':')
  {
    PointTurns(Nested(m), host);
    hide Switched, Point, Inserted, Increasing, Insert, Behind, OncePerPiece;
  }

  lemma OwnAfterComma(orig: string, host: string, t: Scan, ps: seq<nat>, a: nat, os: seq<nat>)
    requires Kept(orig, host, t, ps, a) && StillBehind(orig, t) && PastComma(t) && t.from < |t.text|
    requires Placed(ps, os, |host| + 1) && Apart(orig, os) && Before(os, Place(orig, t))
    ensures Own(orig, host, Passed(t).(from := t.from + 1), ps, os, Place(orig, t))
  {
    hide Inserted, Increasing, Apart, Placed, Quiet;
    QuietAfterComma(orig, t, os);
  }

  lemma OwnWithHost(orig: string, host: string, t: Scan, ps: seq<nat>, os: seq<nat>, r: nat)
    requires 0 <= Place(orig, t) < |orig| && 0 <= Longer(orig, t) && r <= Place(orig, t) && t.hasHost && !PastComma(t)
    requires Placed(ps, os, |host| + 1) && Apart(orig, os) && Before(os, Place(orig, t) + 1)
    ensures Own(orig, host, Passed(t).(from := t.from + 1), ps, os, r)
  {
    hide Apart, Placed;
  }

  lemma OwnQuiet(orig: string, host: string, m: Scan, ps: seq<nat>, a: nat, os: seq<nat>, r: nat)
    requires Reached(orig, host, m, ps, a) && m.from < |m.text| && Own(orig, host, m, ps, os, r)
    requires m.parensFrom.Some? ==> m.parensFrom.value < |m.text|
    requires !Turned(m, host).hasHost && !m.hasHost && !PastComma(Turned(m, host))
    ensures Own(orig, host, Passed(Turned(m, host)).(from := Turned(m, host).from + 1), Logged(m, ps), os, r)
  {
    hide Reached, Turned, Logged, Apart, Placed, Quiet, Inserted, Increasing, HasLetter;
    QuietTurn(orig, host, m, ps, a);
    CharBehind(orig, host, m, ps, a);
    QuietNext(orig, m, Turned(m, host), os, r);
  }

  lemma StepOfTurned(m: Scan, host: string)
    requires m.from < |m.text| && (m.parensFrom.Some? ==> m.parensFrom.value < |m.text|)
    ensures Step(m, host) == Passed(Turned(m, host)).(from := Turned(m, host).from + 1)
  {
  }

  /** A comma that is taken for a bare name is scanned with nothing known of its address. */
  lemma BareNext(orig: string, host: string, m: Scan, ps: seq<nat>, a: nat, os: seq<nat>, r: nat)
    requires Reached(orig, host, m, ps, a) && m.from < |m.text| && Own(orig, host, m, ps, os, r)
    requires m.parensFrom.Some? ==> m.parensFrom.value < |m.text|
    requires !Turned(m, host).hasHost && !m.hasHost && !PastComma(Turned(m, host))
    requires 0 <= Place(orig, m) < |orig| && Turned(m, host).hasBare && !HasLetter(orig, r, Place(orig, m) + 1)
    ensures Fresh(m)
  {
    hide Reached, Turned, Apart, Placed, Inserted, Increasing;
    QuietTurn(orig, host, m, ps, a);
    CharBehind(orig, host, m, ps, a);
    LongerIs(orig, host, m, ps, a);
    LettersNext(orig, r, Place(orig, m));
    ParensLetter(orig, m, os, r, a);
  }

  lemma ParensLetter(orig: string, m: Scan, os: seq<nat>, r: nat, a: nat)
    requires 0 <= Place(orig, m) <= |orig| && 0 <= Longer(orig, m) && r <= Place(orig, m) && Quiet(orig, m, os, r)
    requires Behind(orig, m, a) && !m.hasHost
    ensures m.parensFrom.Some? ==> HasLetter(orig, r, Place(orig, m))
  {
    if m.parensFrom.Some? {
      LetterStays(orig, r, m.parensFrom.value - Longer(orig, m), Place(orig, m));
    }
  }

  lemma NextFlags(m: Scan, host: string)
    requires m.from < |m.text| && (m.parensFrom.Some? ==> m.parensFrom.value < |m.text|)
    ensures
      var t, n := Turned(m, host), Step(m, host);
      if PastComma(t) then !n.hasBare else n.hasHost == t.hasHost && n.hasBare == t.hasBare
  {
    hide Switched, Nested;
  }

  lemma BareStep(orig: string, host: string, m: Scan, ps: seq<nat>, a: nat, os: seq<nat>, r: nat)
    requires EndsWell(host) && Reached(orig, host, m, ps, a) && m.from < |m.text| && Own(orig, host, m, ps, os, r)
    requires m.parensFrom.Some? ==> m.parensFrom.value < |m.text|
    requires OnRun(orig, host, m, ps) && (!Turned(m, host).hasHost ==> !m.hasHost)
    requires 0 <= Place(orig, m) < |orig| && Place(orig, Step(m, host)) == Place(orig, m) + 1
    ensures BareFrom(orig, host, Step(m, host), Logged(m, ps), if PastComma(Turned(m, host)) then Place(orig, m) else r)
  {
    hide Reached, Turned, Step, Logged, Own, HasLetter, Later, LaterPlaces, Fresh, Place, PastComma;
    NextFlags(m, host);
    var t, n := Turned(m, host), Step(m, host);
    if !PastComma(t) && !t.hasHost && t.hasBare && !HasLetter(orig, r, Place(orig, m) + 1) {
      QuietTurn(orig, host, m, ps, a);
      BareNext(orig, host, m, ps, a, os, r);
    }
  }

  /** What a step keeps of the places. */
  lemma OwnStep(orig: string, host: string, m: Scan, ps: seq<nat>, a: nat, os: seq<nat>, r: nat)
      returns (ns: seq<nat>, s: nat)
    requires EndsWell(host) && NoneLive(orig, host) && Reached(orig, host, m, ps, a) && m.from < |m.text|
    requires Own(orig, host, m, ps, os, r) && OnRun(orig, host, m, ps) && BareFrom(orig, host, m, ps, r)
    ensures Own(orig, host, Step(m, host), Logged(m, ps), ns, s)
    ensures BareFrom(orig, host, Step(m, host), Logged(m, ps), s)
  {
    hide Reached, Turned, Step, Passed, Logged, StillBehind, Kept, OncePerPiece, Apart, Placed, NoneLive, Quiet;
    hide OnRun, BareFrom;
    CharBehind(orig, host, m, ps, a);
    ns := OwnTurned(orig, host, m, ps, a, os, r);
    var qs, b := TurnedKeeps(orig, host, m, ps, a);
    var _, _ := StepKeeps(orig, host, m, ps, a);
    StepOfTurned(m, host);
    LongerKept(orig, host, Turned(m, host), qs, b);
    s := if PastComma(Turned(m, host)) then Place(orig, m) else r;
    assert r <= Place(orig, m);
    hide Own;
    BareStep(orig, host, m, ps, a, os, r);
    if PastComma(Turned(m, host)) {
      OwnAfterComma(orig, host, Turned(m, host), qs, b, ns);
    } else if Turned(m, host).hasHost {
      OwnWithHost(orig, host, Turned(m, host), qs, ns, r);
    } else {
      OwnQuiet(orig, host, m, ps, a, os, r);
    }
  }

  lemma LongerKept(orig: string, host: string, m: Scan, ps: seq<nat>, a: nat)
    requires Kept(orig, host, m, ps, a)
    ensures 0 <= Longer(orig, m) && 0 <= Place(orig, m)
  {
    hide Inserted, Increasing;
  }

  // ----- The whole header -----

  lemma RunNext(orig: string, host: string, m: Scan, ps: seq<nat>)
    requires OnRun(orig, host, m, ps) && m.from < |m.text| && (m.parensFrom.Some? ==> m.parensFrom.value < |m.text|)
    requires 0 <= Place(orig, Step(m, host)) == Place(orig, m) + 1 <= |orig|
    ensures OnRun(orig, host, Step(m, host), Logged(m, ps))
  {
    LaterSnoc(Start(orig), host, [], Place(orig, m));
    hide Step, Logged, Later, LaterPlaces, Place;
  }

  lemma {:induction false} RunOwn(orig: string, host: string, m: Scan, ps: seq<nat>, a: nat, os: seq<nat>, r: nat)
      returns (ns: seq<nat>)
    requires EndsWell(host) && NoneLive(orig, host) && Reached(orig, host, m, ps, a) && Own(orig, host, m, ps, os, r)
    requires OnRun(orig, host, m, ps) && BareFrom(orig, host, m, ps, r)
    ensures Placed(Places(m, host, ps), ns, |host| + 1) && Apart(orig, ns)
    decreases |m.text| - m.from
  {
    hide Reached, Step, Logged, Apart, Placed, NoneLive, Quiet, OnRun, BareFrom;
    ReachedParens(orig, host, m, ps, a);
    if m.from == |m.text| {
      ns := os;
    } else {
      Advances(m, host);
      var qs, b := StepKeeps(orig, host, m, ps, a);
      var os', s := OwnStep(orig, host, m, ps, a, os, r);
      RunNext(orig, host, m, ps);
      PlacesUnfolds(m, Step(m, host), host, ps, qs);
      ns := RunOwn(orig, host, Step(m, host), qs, b, os', s);
    }
  }

  lemma OwnBegins(orig: string, host: string)
    ensures Own(orig, host, Start(orig), [], [], 0) && OnRun(orig, host, Start(orig), [])
    ensures BareFrom(orig, host, Start(orig), [], 0)
  {
  }

  /** Unless a trap is sprung, no two insertions fall between the same commas. */
  lemma OneHostPerPiece(buf: string, host: string) returns (os: seq<nat>)
    requires EndsWell(host) && NoneLive(buf, host)
    ensures Placed(Hosts(buf, host), os, |host| + 1) && Apart(buf, os)
  {
    hide NoneLive, Own, OnRun, BareFrom, Reached, Places;
    os := [];
    if HasAddresses(buf) {
      Begins(buf, host);
      OwnBegins(buf, host);
      os := RunOwn(buf, host, Start(buf), [], 0, [], 0);
    }
  }
}
