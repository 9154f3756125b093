/**
  The states that reply_hack goes through on a header, character by character, and what a
  comma does that ends a blank address.
 */
module ReplyRuns {
  import opened ReplyHackSpec
  import opened CText

  /** The scan after `n` more characters. */
  function Later(m: Scan, host: string, n: nat): (t: Scan)
    requires m.from + n <= |m.text| && (m.parensFrom.Some? ==> m.parensFrom.value < |m.text|)
    ensures |t.text| - t.from == |m.text| - m.from - n && t.from <= |t.text|
    ensures t.parensFrom.Some? ==> t.parensFrom.value < |t.text|
    decreases n
  {
    if n == 0 then m else Advances(m, host); Later(Step(m, host), host, n - 1)
  }

  /** The places of the insertions made on the way there. */
  function LaterPlaces(m: Scan, host: string, ps: seq<nat>, n: nat): seq<nat>
    requires m.from + n <= |m.text| && (m.parensFrom.Some? ==> m.parensFrom.value < |m.text|)
    decreases n
  {
    if n == 0 then ps else Advances(m, host); LaterPlaces(Step(m, host), host, Logged(m, ps), n - 1)
  }

  lemma ReachedParens(orig: string, host: string, m: Scan, ps: seq<nat>, a: nat)
    requires Reached(orig, host, m, ps, a)
    ensures m.parensFrom.Some? ==> m.parensFrom.value < |m.text|
  {
    hide Inserted, Increasing;
  }

  lemma PlacesUnfolds(m: Scan, n: Scan, host: string, ps: seq<nat>, qs: seq<nat>)
    requires m.from < |m.text| && (m.parensFrom.Some? ==> m.parensFrom.value < |m.text|)
    requires n == Step(m, host) && qs == Logged(m, ps)
    requires n.from <= |n.text| && (n.parensFrom.Some? ==> n.parensFrom.value < |n.text|)
    ensures Places(m, host, ps) == Places(n, host, qs)
  {
    hide Step, Logged;
  }

  lemma LaterUnfolds(m: Scan, n: Scan, host: string, ps: seq<nat>, qs: seq<nat>, k: nat)
    requires 0 < k && m.from + k <= |m.text| && (m.parensFrom.Some? ==> m.parensFrom.value < |m.text|)
    requires n == Step(m, host) && qs == Logged(m, ps)
    requires n.from + k - 1 <= |n.text| && (n.parensFrom.Some? ==> n.parensFrom.value < |n.text|)
    ensures Later(m, host, k) == Later(n, host, k - 1) && LaterPlaces(m, host, ps, k) == LaterPlaces(n, host, qs, k - 1)
  {
    hide Step, Logged;
  }

  lemma {:induction false} LaterReached(orig: string, host: string, m: Scan, ps: seq<nat>, a: nat,
    n: nat) returns (b: nat)
    requires EndsWell(host) && Reached(orig, host, m, ps, a) && m.from + n <= |m.text|
    ensures Reached(orig, host, Later(m, host, n), LaterPlaces(m, host, ps, n), b)
    ensures Place(orig, Later(m, host, n)) == Place(orig, m) + n
    ensures Places(Later(m, host, n), host, LaterPlaces(m, host, ps, n)) == Places(m, host, ps)
    decreases n
  {
    hide Reached, Step, Logged, Place;
    if n == 0 {
      b := a;
    } else {
      hide Later, LaterPlaces, Places;
      ReachedParens(orig, host, m, ps, a);
      Advances(m, host);
      var qs, c := StepKeeps(orig, host, m, ps, a);
      LaterUnfolds(m, Step(m, host), host, ps, qs, n);
      PlacesUnfolds(m, Step(m, host), host, ps, qs);
      b := LaterReached(orig, host, Step(m, host), qs, c, n - 1);
    }
  }

  lemma {:induction false} LaterSnoc(m: Scan, host: string, ps: seq<nat>, n: nat)
    requires m.from + n < |m.text| && (m.parensFrom.Some? ==> m.parensFrom.value < |m.text|)
    ensures
      var t := Later(m, host, n);
      && Later(m, host, n + 1) == Step(t, host)
      && LaterPlaces(m, host, ps, n + 1) == Logged(t, LaterPlaces(m, host, ps, n))
    decreases n
  {
    hide Step, Logged;
    Advances(m, host);
    if n == 0 {
      assert Later(m, host, 1) == Later(Step(m, host), host, 0);
      assert LaterPlaces(m, host, ps, 1) == LaterPlaces(Step(m, host), host, Logged(m, ps), 0);
    } else {
      LaterUnfolds(m, Step(m, host), host, ps, Logged(m, ps), n);
      LaterUnfolds(m, Step(m, host), host, ps, Logged(m, ps), n + 1);
      hide Later, LaterPlaces;
      LaterSnoc(Step(m, host), host, Logged(m, ps), n - 1);
    }
  }

  /** A later insertion does not take back an earlier one. */
  lemma {:induction false} PlacesGrow(m: Scan, host: string, ps: seq<nat>)
    requires m.from <= |m.text| && (m.parensFrom.Some? ==> m.parensFrom.value < |m.text|)
    ensures ps <= Places(m, host, ps)
    decreases |m.text| - m.from
  {
    if m.from < |m.text| {
      Advances(m, host);
      hide Step;
      PlacesGrow(Step(m, host), host, Logged(m, ps));
      assert ps <= Logged(m, ps);
    }
  }

  /** Nothing is known yet of the address the scan is in. */
  predicate Fresh(m: Scan) {
    && 0 < m.from < |m.text| && m.state == Addresses && m.depth == 0 && !m.hasHost && !m.hasBare && m.parensFrom.None?
  }

  /** A comma with no address before it is itself taken for a bare name. */
  lemma CommaIsBare(m: Scan, host: string, ps: seq<nat>)
    requires Fresh(m) && m.text[m.from] == ',' && m.text[m.from - 1] != ','
    ensures Step(m, host) == m.(from := m.from + 1, hasBare := true, lastNws := ',') && Logged(m, ps) == ps
  {
    hide BackUp, Insert, HeaderEnd, At;
    assert Nested(m) == m;
    assert InAddresses(m, host) == m.(hasBare := true, lastNws := ',');
  }

  /** So the end of the next address puts the host in, as far back as blanks and commas go. */
  lemma BareCommaGives(m: Scan, host: string, ps: seq<nat>)
    requires m.from < |m.text| && m.state == Addresses && m.depth == 0 && !m.hasHost && m.hasBare && m.parensFrom.None?
    requires m.lastNws == ',' && (m.text[m.from] == ',' || HeaderEnd(m.text, m.from))
    ensures Logged(m, ps) == ps + [BackUp(m.text, m.from) + 1]
  {
    hide BackUp, Insert, InAddresses;
    assert Nested(m) == m;
  }
}
