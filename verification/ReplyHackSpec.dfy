/**
  reply_hack of rfc822.c as a machine over the text of a header: one step for each
  character, and what holds of the text after any run of steps.
 */
module ReplyHackSpec {
  import opened CText

  datatype State = BeforeColon | Addresses | InString | InBrackets

  /** The text, the cursor in it, and what is known of the address it is in. */
  datatype Scan = Scan(text: string, from: nat, state: State, depth: int, hasHost: bool, hasBare: bool, lastNws: char,
                       parensFrom: Option<nat>)

  predicate IsSpace(c: char) {
    c == ' ' || c == '\t' || c == '\n' || c as int == 11 || c as int == 12 || c == '\r'
  }

  /** HEADER_END: a line end that no folded line follows. */
  predicate HeaderEnd(s: string, i: nat) {
    At(s, i) == '\n' && At(s, i + 1) != ' ' && At(s, i + 1) != '\t'
  }

  // ----- Inserting the host -----

  function Insert(s: string, q: nat, x: string): (t: string)
    requires q <= |s|
    ensures |t| == |s| + |x|
  {
    s[..q] + x + s[q..]
  }

  /** The last character at `k` or before that is neither space nor comma. */
  function BackUp(s: string, k: nat): (j: nat)
    requires k < |s|
    ensures j <= k && forall i | j < i <= k :: IsSpace(s[i]) || s[i] == ','
    decreases k
  {
    if k > 0 && (IsSpace(s[k]) || s[k] == ',') then BackUp(s, k - 1) else k
  }

  function WithHost(m: Scan, q: nat, host: string): Scan
    requires q <= |m.text|
  {
    m.(text := Insert(m.text, q, "@" + host), from := m.from + |host| + 1, hasHost := true)
  }

  // ----- One character -----

  function InAddresses(m: Scan, host: string): Scan
    requires m.from < |m.text| && (m.parensFrom.Some? ==> m.parensFrom.value < |m.text|)
  {
    var c := m.text[m.from];
    var n := if IsSpace(c) then m else m.(lastNws := c);
    if c == '<' then n.(state := InBrackets)
    else if c == '@' || c == '!' then n.(hasHost := true)
    else if c == '"' then n.(state := InString)
    else if (c == ',' || HeaderEnd(m.text, m.from)) && m.hasBare && n.lastNws != ';' then
      WithHost(n, BackUp(m.text, if m.parensFrom.Some? then m.parensFrom.value else m.from) + 1, host)
    else if At(m.text, m.from + 1) == '(' && m.hasBare && n.lastNws != ';' && n.lastNws != ')' then
      n.(parensFrom := Some(m.from))
    else if IsSpace(c) then n else n.(hasBare := true)
  }

  /** Where the host goes in, if it does at this character. */
  function Point(m: Scan): Option<nat>
    requires m.from < |m.text| && (m.parensFrom.Some? ==> m.parensFrom.value < |m.text|)
  {
    var c := m.text[m.from];
    if m.state == Addresses then
      var last := if IsSpace(c) then m.lastNws else c;
      if (c == ',' || HeaderEnd(m.text, m.from)) && m.hasBare && last != ';' then
        Some(BackUp(m.text, if m.parensFrom.Some? then m.parensFrom.value else m.from) + 1)
      else None
    else if m.state == InBrackets && c == '>' && m.from > 0 && m.text[m.from - 1] != '<' then Some(m.from)
    else None
  }

  /** How many backslashes stand right before `k`. */
  function Backslashes(s: string, k: nat): nat
    requires k <= |s|
  {
    if k > 0 && s[k - 1] == '\\' then 1 + Backslashes(s, k - 1) else 0
  }

  function Switched(m: Scan, host: string): Scan
    requires m.from < |m.text| && (m.parensFrom.Some? ==> m.parensFrom.value < |m.text|)
  {
    var c := m.text[m.from];
    match m.state
    case BeforeColon => if c == ':' then m.(state := Addresses) else m
    case Addresses => InAddresses(m, host)
    case InString => if c == '"' && Backslashes(m.text, m.from) % 2 == 0 then m.(state := Addresses) else m
    case InBrackets =>
      if c == '@' || c == '!' then m.(hasHost := true)
      else if c == '>' && m.from > 0 && m.text[m.from - 1] != '<' then WithHost(m.(state := Addresses), m.from, host)
      else m
  }

  function Nested(m: Scan): Scan
    requires m.from < |m.text|
  {
    if m.state == InString then m
    else if m.text[m.from] == '(' then m.(depth := m.depth + 1)
    else if m.text[m.from] == ')' then m.(depth := m.depth - 1)
    else m
  }

  /** Past a comma, the next address begins. */
  predicate PastComma(m: Scan) {
    0 < m.from <= |m.text| && m.text[m.from - 1] == ',' && m.depth == 0
  }

  function Passed(m: Scan): Scan {
    if PastComma(m) then m.(hasHost := false, hasBare := false, parensFrom := None) else m
  }

  /** The body of the loop, without its `from++`. */
  function Body(m: Scan, host: string): Scan
    requires m.from < |m.text| && (m.parensFrom.Some? ==> m.parensFrom.value < |m.text|)
  {
    var n := Nested(m);
    Passed(if n.depth == 0 && !n.hasHost then Switched(n, host) else n)
  }

  // ----- What every step keeps -----

  /** The text with `x` put in at each place of `ps`, one after the other. */
  function Inserted(orig: string, ps: seq<nat>, x: string): string
    decreases |ps|
  {
    if ps == [] then orig else
      var s := Inserted(orig, ps[..|ps| - 1], x);
      var q := ps[|ps| - 1];
      if q <= |s| then Insert(s, q, x) else s
  }

  function Commas(s: string, n: nat): nat
    requires n <= |s|
  {
    if n == 0 then 0 else Commas(s, n - 1) + if s[n - 1] == ',' then 1 else 0
  }

  /** The character of the header as it was that the cursor has come to. */
  function Place(orig: string, m: Scan): int {
    |orig| - (|m.text| - m.from)
  }

  /** The colon of the header, or the "@" last put in: no insertion goes back before it. */
  ghost predicate Anchored(m: Scan, ps: seq<nat>, a: nat) {
    && a <= m.from && a < |m.text| && (m.text[a] == ':' || m.text[a] == '@')
    && (ps != [] ==> a == ps[|ps| - 1])
    && (!m.hasHost && m.parensFrom.Some? ==> a <= m.parensFrom.value <= m.from)
  }

  predicate Increasing(ps: seq<nat>) {
    forall i | 0 < i < |ps| :: ps[i - 1] < ps[i]
  }

  /** What is not yet scanned is as it was; what is scanned has had "@host" put in at the places `ps`, in order. */
  ghost predicate Kept(orig: string, host: string, m: Scan, ps: seq<nat>, a: nat) {
    && m.from <= |m.text| && |m.text| == |orig| + |ps| * (|host| + 1)
    && 0 <= Place(orig, m) && m.text[m.from..] == orig[Place(orig, m)..]
    && m.text == Inserted(orig, ps, "@" + host) && Increasing(ps)
    && (if m.state == BeforeColon then ps == [] && m.parensFrom.None? else Anchored(m, ps, a))
    && (m.parensFrom.Some? ==> m.parensFrom.value < |m.text|)
  }

  /** At most one insertion since the last comma passed. */
  ghost predicate OncePerPiece(orig: string, m: Scan, ps: seq<nat>, passed: nat) {
    passed <= |orig| && |ps| <= Commas(orig, passed) + if m.hasHost then 1 else 0
  }

  lemma {:induction false} BackUpStops(s: string, k: nat, a: nat)
    requires a <= k < |s| && !IsSpace(s[a]) && s[a] != ','
    ensures a <= BackUp(s, k)
    decreases k
  {
    if k > a && (IsSpace(s[k]) || s[k] == ',') {
      BackUpStops(s, k - 1, a);
    }
  }

  lemma OneMoreInserted(orig: string, ps: seq<nat>, q: nat, x: string)
    requires q <= |Inserted(orig, ps, x)|
    ensures Inserted(orig, ps + [q], x) == Insert(Inserted(orig, ps, x), q, x)
  {
    assert (ps + [q])[..|ps|] == ps;
  }

  lemma InsertLooks(s: string, q: nat, x: string, from: nat)
    requires q <= from <= |s|
    ensures
      var t := Insert(s, q, x);
      && |t| == |s| + |x| && t[from + |x|..] == s[from..]
      && (forall i | 0 <= i < q :: t[i] == s[i]) && (x != "" ==> t[q] == x[0])
      && (from > 0 ==> t[from + |x| - 1] == if q < from then s[from - 1] else if x != "" then x[|x| - 1] else s[from - 1])
  {
  }

  /** Putting the host in behind the anchor and not behind the cursor. */
  lemma InsertKeeps(orig: string, host: string, m: Scan, ps: seq<nat>, a: nat, q: nat)
    requires Kept(orig, host, m, ps, a) && m.state != BeforeColon && a < q <= m.from
    ensures
      var n := WithHost(m, q, host);
      Kept(orig, host, n, ps + [q], q) && Place(orig, n) == Place(orig, m)
  {
    hide Insert, Inserted, Increasing;
    InsertLooks(m.text, q, "@" + host, m.from);
    OneMoreInserted(orig, ps, q, "@" + host);
    Distribute(|ps|, |host| + 1);
    IncreasingMore(ps, q);
    var n := WithHost(m, q, host);
    assert Place(orig, n) == Place(orig, m);
    assert n.text[n.from..] == m.text[m.from..];
  }

  lemma IncreasingMore(ps: seq<nat>, q: nat)
    requires Increasing(ps) && (ps != [] ==> ps[|ps| - 1] < q)
    ensures Increasing(ps + [q])
  {
  }

  lemma Distribute(n: nat, k: nat)
    ensures (n + 1) * k == n * k + k
  {
  }

  /** Between two steps: the character just scanned is right before the cursor, and all marks are behind it. */
  ghost predicate Behind(orig: string, m: Scan, a: nat) {
    && (m.state != BeforeColon ==> a < m.from)
    && (!m.hasHost && m.parensFrom.Some? ==> m.parensFrom.value < m.from)
    && 0 <= Place(orig, m) <= |orig| && m.from <= |m.text|
    && if Place(orig, m) == 0 then m.from == 0 else m.from > 0 && m.text[m.from - 1] == orig[Place(orig, m) - 1]
  }

  /** What the host ends in cannot be taken for the end of an address. */
  predicate EndsWell(host: string) {
    host == "" || host[|host| - 1] != ','
  }

  /** Nothing is put in right before the cursor but a host. */
  ghost predicate StillBehind(orig: string, m: Scan) {
    && m.from <= |m.text| && 0 <= Place(orig, m) <= |orig|
    && (PastComma(m) ==> Place(orig, m) > 0 && orig[Place(orig, m) - 1] == ',')
  }

  lemma HostBehind(orig: string, host: string, m: Scan, a: nat, q: nat)
    requires EndsWell(host) && Behind(orig, m, a) && q <= m.from
    ensures StillBehind(orig, WithHost(m, q, host))
  {
    InsertLooks(m.text, q, "@" + host, m.from);
    hide Insert;
  }

  /** From a comma or a header end, the way back is not empty. */
  lemma EndsAddress(s: string, k: nat)
    requires 0 < k < |s| && (s[k] == ',' || HeaderEnd(s, k))
    ensures BackUp(s, k) < k
  {
  }

  lemma AddressesKeep(orig: string, host: string, m: Scan, ps: seq<nat>, a: nat) returns (qs: seq<nat>, b: nat)
    requires EndsWell(host) && Kept(orig, host, m, ps, a) && Behind(orig, m, a)
    requires m.from < |m.text| && m.state == Addresses && m.depth == 0 && !m.hasHost
    ensures
      var n := InAddresses(m, host);
      && Kept(orig, host, n, qs, b) && Place(orig, n) == Place(orig, m) && StillBehind(orig, n)
      && n.depth == 0 && n.state != BeforeColon
      && qs == (if Point(m).Some? then ps + [Point(m).value] else ps) && (Point(m).Some? ==> n.hasHost)
  {
    hide Inserted, Increasing, Insert, HeaderEnd, At, InAddresses, BackUp;
    qs, b := ps, a;
    AddressCases(m, host);
    var last := WithLast(m);
    assert Kept(orig, host, last, ps, a) && Behind(orig, last, a);
    if Point(m).Some? {
      b := AddressEndKeeps(orig, host, last, ps, a);
      qs := ps + [b];
    }
  }

  function WithLast(m: Scan): Scan
    requires m.from < |m.text|
  {
    var c := m.text[m.from];
    if IsSpace(c) then m else m.(lastNws := c)
  }

  /** A character in state 1 either puts the host in, or moves no text. */
  lemma AddressCases(m: Scan, host: string)
    requires m.from < |m.text| && (m.parensFrom.Some? ==> m.parensFrom.value < |m.text|) && m.state == Addresses
    ensures
      var n, last := InAddresses(m, host), WithLast(m);
      if Point(m).Some? then
        n == WithHost(last, Point(m).value, host) && m.hasBare && (m.text[m.from] == ',' || HeaderEnd(m.text, m.from))
        && Point(m).value == BackUp(m.text, if m.parensFrom.Some? then m.parensFrom.value else m.from) + 1
      else
        && n == last.(state := n.state, hasHost := n.hasHost, hasBare := n.hasBare, parensFrom := n.parensFrom)
        && n.state != BeforeColon && (n.parensFrom == m.parensFrom || (n.parensFrom == Some(m.from) && m.hasBare))
        && (n.hasHost == m.hasHost || (n.hasHost && !IsSpace(m.text[m.from]) && m.text[m.from] != ','))
        && (n.hasBare == m.hasBare || (n.hasBare && !IsSpace(m.text[m.from])))
  {
    hide Insert, BackUp;
  }

  /** At the end of an address without a host: where the host goes. */
  lemma AddressEndKeeps(orig: string, host: string, m: Scan, ps: seq<nat>, a: nat) returns (q: nat)
    requires EndsWell(host) && Kept(orig, host, m, ps, a) && Behind(orig, m, a)
    requires m.from < |m.text| && m.state == Addresses && !m.hasHost
    requires m.text[m.from] == ',' || HeaderEnd(m.text, m.from)
    ensures q == BackUp(m.text, if m.parensFrom.Some? then m.parensFrom.value else m.from) + 1 && q <= |m.text|
    ensures
      var n := WithHost(m, q, host);
      Kept(orig, host, n, ps + [q], q) && Place(orig, n) == Place(orig, m) && StillBehind(orig, n)
  {
    hide Inserted, Increasing, Insert, HeaderEnd, At;
    var k := if m.parensFrom.Some? then m.parensFrom.value else m.from;
    BackUpStops(m.text, k, a);
    EndsAddress(m.text, m.from);
    q := BackUp(m.text, k) + 1;
    assert q <= m.from;
    InsertKeeps(orig, host, m, ps, a, q);
    HostBehind(orig, host, m, a, q);
  }

  lemma SwitchedKeeps(orig: string, host: string, m: Scan, ps: seq<nat>, a: nat) returns (qs: seq<nat>, b: nat)
    requires EndsWell(host) && Kept(orig, host, m, ps, a) && Behind(orig, m, a)
    requires m.from < |m.text| && m.depth == 0 && !m.hasHost
    ensures
      var n := Switched(m, host);
      && Kept(orig, host, n, qs, b) && Place(orig, n) == Place(orig, m) && StillBehind(orig, n)
      && n.depth == 0 && qs == (if Point(m).Some? then ps + [Point(m).value] else ps) && (Point(m).Some? ==> n.hasHost)
  {
    hide Inserted, Increasing, Insert, InAddresses;
    qs, b := ps, a;
    var c := m.text[m.from];
    if m.state == BeforeColon {
      b := if c == ':' then m.from else a;
    } else if m.state == Addresses {
      qs, b := AddressesKeep(orig, host, m, ps, a);
    } else if m.state == InBrackets && c == '>' && m.from > 0 && m.text[m.from - 1] != '<' {
      var last := m.(state := Addresses);
      assert Kept(orig, host, last, ps, a) && Behind(orig, last, a);
      InsertKeeps(orig, host, last, ps, a, m.from);
      HostBehind(orig, host, last, a, m.from);
      qs, b := ps + [m.from], m.from;
    }
  }

  /** One iteration of the loop. */
  function Step(m: Scan, host: string): Scan
    requires m.from < |m.text| && (m.parensFrom.Some? ==> m.parensFrom.value < |m.text|)
  {
    var n := Body(m, host);
    n.(from := n.from + 1)
  }

  /** The commas whose end of an address has been noted when the cursor comes to place `i`. */
  function Noted(i: nat): nat {
    if i == 0 then 0 else i - 1
  }

  ghost predicate Reached(orig: string, host: string, m: Scan, ps: seq<nat>, a: nat) {
    && Kept(orig, host, m, ps, a) && Behind(orig, m, a)
    && OncePerPiece(orig, m, ps, Noted(Place(orig, m)))
  }

  lemma NestedKeeps(orig: string, host: string, m: Scan, ps: seq<nat>, a: nat)
    requires Kept(orig, host, m, ps, a) && Behind(orig, m, a) && m.from < |m.text|
    ensures
      var n := Nested(m);
      && Kept(orig, host, n, ps, a) && Behind(orig, n, a) && n.from == m.from && n.text == m.text
      && n.hasHost == m.hasHost && n.state == m.state
      && (n.parensFrom.Some? ==> n.parensFrom.value < |n.text|) && 0 <= Place(orig, n) <= |orig|
      && (n.hasHost || n.depth != 0 ==> StillBehind(orig, n))
  {
    hide Kept;
    var d := Nested(m).depth;
    assert Nested(m) == m.(depth := d);
    KeptAtDepth(orig, host, m, ps, a, d);
  }

  lemma KeptAtDepth(orig: string, host: string, m: Scan, ps: seq<nat>, a: nat, d: int)
    requires Kept(orig, host, m, ps, a)
    ensures Kept(orig, host, m.(depth := d), ps, a)
    ensures m.parensFrom.Some? ==> m.parensFrom.value < |m.text|
  {
    hide Inserted, Increasing;
  }

  lemma NextKept(orig: string, host: string, n: Scan, ps: seq<nat>, a: nat)
    requires Kept(orig, host, n, ps, a) && n.from < |n.text|
    ensures
      var m := Passed(n).(from := n.from + 1);
      Kept(orig, host, m, ps, a) && Place(orig, m) == Place(orig, n) + 1
  {
    hide Inserted, Increasing;
    NextPlace(orig, host, n, ps, a);
  }

  lemma NextBehind(orig: string, host: string, n: Scan, ps: seq<nat>, a: nat)
    requires Kept(orig, host, n, ps, a) && StillBehind(orig, n) && n.from < |n.text|
    ensures 0 <= Place(orig, n) < |orig| && Behind(orig, Passed(n).(from := n.from + 1), a)
  {
    NextPlace(orig, host, n, ps, a);
    hide Inserted, Increasing;
  }

  /** From one character to the next. */
  lemma PassedKeeps(orig: string, host: string, n: Scan, ps: seq<nat>, a: nat)
    requires Kept(orig, host, n, ps, a) && StillBehind(orig, n) && n.from < |n.text|
    requires OncePerPiece(orig, n, ps, Noted(Place(orig, n)))
    ensures
      var p := Passed(n);
      var m := p.(from := p.from + 1);
      Reached(orig, host, m, ps, a) && Place(orig, m) == Place(orig, n) + 1
  {
    hide Kept, Commas;
    var i := Place(orig, n);
    NextKept(orig, host, n, ps, a);
    NextBehind(orig, host, n, ps, a);
    MoreCommas(orig, Noted(i), i);
  }

  /** The places of the insertions, with the one made at this character. */
  function Logged(m: Scan, ps: seq<nat>): seq<nat>
    requires m.from < |m.text| && (m.parensFrom.Some? ==> m.parensFrom.value < |m.text|)
  {
    var n := Nested(m);
    if n.depth == 0 && !n.hasHost && Point(n).Some? then ps + [Point(n).value] else ps
  }

  /** The scan before a comma is noted. */
  function Turned(m: Scan, host: string): Scan
    requires m.from < |m.text| && (m.parensFrom.Some? ==> m.parensFrom.value < |m.text|)
  {
    var n := Nested(m);
    if n.depth == 0 && !n.hasHost then Switched(n, host) else n
  }

  lemma TurnedKeeps(orig: string, host: string, m: Scan, ps: seq<nat>, a: nat) returns (qs: seq<nat>, b: nat)
    requires EndsWell(host) && Reached(orig, host, m, ps, a) && m.from < |m.text|
    ensures
      var n := Turned(m, host);
      && Kept(orig, host, n, qs, b) && StillBehind(orig, n) && Place(orig, n) == Place(orig, m) && n.from < |n.text|
      && OncePerPiece(orig, n, qs, Noted(Place(orig, n))) && qs == Logged(m, ps)
      && |n.text| - n.from == |m.text| - m.from
  {
    NestedKeeps(orig, host, m, ps, a);
    var n := Nested(m);
    SwitchedLength(n, host);
    hide Inserted, Increasing, Switched, Nested, Point, Kept, Behind, StillBehind, Commas;
    qs, b := ps, a;
    if n.depth == 0 && !n.hasHost {
      qs, b := SwitchedKeeps(orig, host, n, ps, a);
    }
  }

  lemma StepKeeps(orig: string, host: string, m: Scan, ps: seq<nat>, a: nat) returns (qs: seq<nat>, b: nat)
    requires EndsWell(host) && Reached(orig, host, m, ps, a) && m.from < |m.text|
    ensures Reached(orig, host, Step(m, host), qs, b) && Place(orig, Step(m, host)) == Place(orig, m) + 1
    ensures qs == Logged(m, ps)
  {
    qs, b := TurnedKeeps(orig, host, m, ps, a);
    assert Step(m, host) == Passed(Turned(m, host)).(from := Passed(Turned(m, host)).from + 1);
    hide Step, Turned, Passed, Kept, Behind, StillBehind, OncePerPiece, Logged;
    PassedKeeps(orig, host, Turned(m, host), qs, b);
  }

  lemma MoreCommas(s: string, i: nat, j: nat)
    requires i <= j <= |s| && j <= i + 1
    ensures Commas(s, j) == Commas(s, i) + if i < j && s[i] == ',' then 1 else 0
  {
  }

  lemma NextPlace(orig: string, host: string, n: Scan, ps: seq<nat>, a: nat)
    requires Kept(orig, host, n, ps, a) && n.from < |n.text|
    ensures n.text[n.from] == orig[Place(orig, n)] && n.text[n.from + 1..] == orig[Place(orig, n) + 1..]
  {
    hide Inserted;
    var t := n.text[n.from..];
    assert t == orig[Place(orig, n)..];
    assert t[0] == n.text[n.from] && t[1..] == n.text[n.from + 1..] && t[1..] == orig[Place(orig, n) + 1..];
  }

  // ----- The whole header -----

  function Run(m: Scan, host: string): Scan
    requires m.from <= |m.text| && (m.parensFrom.Some? ==> m.parensFrom.value < |m.text|)
    decreases |m.text| - m.from
  {
    if m.from == |m.text| then m else Advances(m, host); Run(Step(m, host), host)
  }

  lemma SwitchedLength(m: Scan, host: string)
    requires m.from < |m.text| && (m.parensFrom.Some? ==> m.parensFrom.value < |m.text|)
    ensures
      var n := Switched(m, host);
      && n.from < |n.text| && |n.text| - n.from == |m.text| - m.from
      && (n.parensFrom.Some? ==> n.parensFrom.value < |n.text|)
  {
    hide Insert, BackUp, Backslashes, HeaderEnd, IsSpace, At;
  }

  /** Every step leaves one character less to scan, so the loop ends whatever it puts in. */
  lemma Advances(m: Scan, host: string)
    requires m.from < |m.text| && (m.parensFrom.Some? ==> m.parensFrom.value < |m.text|)
    ensures
      var n := Step(m, host);
      && n.from <= |n.text| && |n.text| - n.from == |m.text| - m.from - 1
      && (n.parensFrom.Some? ==> n.parensFrom.value < |n.text|)
  {
    hide Switched, PastComma;
    SwitchedLength(Nested(m), host);
  }

  const HEADERS: seq<string> := [
    "From:", "To:", "Reply-To:", "Return-Path:", "Cc:", "Bcc:", "Resent-From:", "Resent-To:", "Resent-Cc:", "Resent-Bcc:",
    "Apparently-From:", "Apparently-To:", "Sender:", "Resent-Sender:"]

  /** strncasecmp(name, buf, strlen(name)) == 0 */
  predicate BeginsWith(buf: string, name: string) {
    |name| <= |buf| && forall i | 0 <= i < |name| :: Lower(buf[i]) == Lower(name[i])
  }

  predicate HasAddresses(buf: string) {
    exists k | 0 <= k < |HEADERS| :: BeginsWith(buf, HEADERS[k])
  }

  function Start(buf: string): Scan {
    Scan(buf, 0, BeforeColon, 0, false, false, '\0', None)
  }

  function Rewritten(buf: string, host: string): string {
    if HasAddresses(buf) then Run(Start(buf), host).text else buf
  }

  /** One more than the commas and blanks of the header. */
  function AddressCount(s: string, n: nat): nat
    requires n <= |s|
  {
    if n == 0 then 1 else AddressCount(s, n - 1) + if s[n - 1] == ',' || IsSpace(s[n - 1]) then 1 else 0
  }

  /** What the source reserves. */
  function Room(buf: string, host: string): nat {
    |buf| + AddressCount(buf, |buf|) * (|host| + 1) + 1
  }

  lemma {:induction false} CommasCounted(s: string, i: nat, j: nat)
    requires i <= j <= |s|
    ensures Commas(s, i) < AddressCount(s, i) && Commas(s, i) <= Commas(s, j) &&
      AddressCount(s, i) <= AddressCount(s, j)
    decreases j, i
  {
    if i < j {
      CommasCounted(s, i, j - 1);
    } else if i > 0 {
      CommasCounted(s, i - 1, j - 1);
    }
  }

  /** At every step the text and its NUL fit in the room reserved. */
  lemma RoomEnough(orig: string, host: string, m: Scan, ps: seq<nat>, a: nat)
    requires Reached(orig, host, m, ps, a)
    ensures |m.text| < Room(orig, host)
  {
    hide Inserted, Increasing;
    var i := Noted(Place(orig, m));
    CommasCounted(orig, i, |orig|);
    Monotone(|ps|, AddressCount(orig, |orig|), |host| + 1);
  }

  lemma Monotone(n: nat, k: nat, x: nat)
    requires n <= k
    ensures n * x <= k * x
  {
  }

  lemma Begins(orig: string, host: string)
    ensures Reached(orig, host, Start(orig), [], 0)
  {
    assert orig[0..] == orig;
  }

  /** The places of all the insertions of a run. */
  function Places(m: Scan, host: string, ps: seq<nat>): seq<nat>
    requires m.from <= |m.text| && (m.parensFrom.Some? ==> m.parensFrom.value < |m.text|)
    decreases |m.text| - m.from
  {
    if m.from == |m.text| then ps else Advances(m, host); Places(Step(m, host), host, Logged(m, ps))
  }

  /** Where reply_hack puts the host in. */
  function Hosts(buf: string, host: string): seq<nat> {
    if HasAddresses(buf) then Places(Start(buf), host, []) else []
  }

  lemma {:induction false} RunKeeps(orig: string, host: string, m: Scan, ps: seq<nat>, a: nat)
    requires EndsWell(host) && Reached(orig, host, m, ps, a)
    ensures
      var n, qs := Run(m, host), Places(m, host, ps);
      && n.text == Inserted(orig, qs, "@" + host) && Increasing(qs) && |qs| <= Commas(orig, |orig|) + 1
      && |n.text| < Room(orig, host)
    decreases |m.text| - m.from
  {
    if m.from == |m.text| {
      RoomEnough(orig, host, m, ps, a);
      CommasCounted(orig, Noted(Place(orig, m)), |orig|);
    } else {
      hide Step, Logged;
      Advances(m, host);
      var qs, b := StepKeeps(orig, host, m, ps, a);
      RunKeeps(orig, host, Step(m, host), qs, b);
    }
  }

  /**
    The header with "@host" put in at places from left to right, at most one more than it
    has commas; so it never outgrows the room reserved.
   */
  lemma RewrittenInPlaces(buf: string, host: string)
    requires EndsWell(host)
    ensures
      var ps := Hosts(buf, host);
      Increasing(ps) && |ps| <= Commas(buf, |buf|) + 1 && Rewritten(buf, host) == Inserted(buf, ps, "@" + host)
    ensures |Rewritten(buf, host)| < Room(buf, host)
  {
    Begins(buf, host);
    RunKeeps(buf, host, Start(buf), [], 0);
    RoomEnough(buf, host, Start(buf), [], 0);
    assert Inserted(buf, [], "@" + host) == buf && Increasing([]);
  }

  /** The eight steps on a header with a blank address. */
  function Traced(k: nat): Scan
    requires k <= 8
  {
    if k == 0 then Start("Cc:a, ,\n")
    else if k == 1 then Scan("Cc:a, ,\n", 1, BeforeColon, 0, false, false, '\0', None)
    else if k == 2 then Scan("Cc:a, ,\n", 2, BeforeColon, 0, false, false, '\0', None)
    else if k == 3 then Scan("Cc:a, ,\n", 3, Addresses, 0, false, false, '\0', None)
    else if k == 4 then Scan("Cc:a, ,\n", 4, Addresses, 0, false, true, 'a', None)
    else if k == 5 then Scan("Cc:a@h, ,\n", 7, Addresses, 0, true, true, ',', None)
    else if k == 6 then Scan("Cc:a@h, ,\n", 8, Addresses, 0, false, false, ',', None)
    else if k == 7 then Scan("Cc:a@h, ,\n", 9, Addresses, 0, false, true, ',', None)
    else Scan("Cc:a@h@h, ,\n", 12, Addresses, 0, false, false, ',', None)
  }

  lemma FirstInsertion()
    ensures Step(Traced(4), "h") == Traced(5)
  {
    var s := "Cc:a, ,\n";
    assert s[3] == 'a' && s[4] == ',';
    assert BackUp(s, 3) == 3;
    assert BackUp(s, 4) == 3;
    hide BackUp;
    assert "@" + "h" == "@h";
    assert Insert(s, 4, "@h") == "Cc:a@h, ,\n";
  }

  lemma SecondInsertion()
    ensures Step(Traced(7), "h") == Traced(8)
  {
    var s := "Cc:a@h, ,\n";
    assert s[5] == 'h' && s[6] == ',' && s[7] == ' ' && s[8] == ',' && s[9] == '\n';
    assert BackUp(s, 5) == 5;
    assert BackUp(s, 6) == 5;
    assert BackUp(s, 7) == 5;
    assert BackUp(s, 8) == 5;
    assert BackUp(s, 9) == 5;
    hide BackUp;
    assert "@" + "h" == "@h";
    assert Insert(s, 6, "@h") == "Cc:a@h@h, ,\n";
  }

  lemma ColonSteps(k: nat)
    requires k < 3
    ensures Traced(k).from < |Traced(k).text| && Step(Traced(k), "h") == Traced(k + 1)
  {
    if k == 0 {
      ColonStep(0);
    } else if k == 1 {
      ColonStep(1);
    } else {
      ColonStep(2);
    }
  }

  lemma ColonStep(k: nat)
    requires k < 3
    ensures Traced(k).from < |Traced(k).text| && Step(Traced(k), "h") == Traced(k + 1)
  {
    hide InAddresses, WithHost, Backslashes, HeaderEnd, BackUp;
    var m := Traced(k);
    assert m.text[0] == 'C' && m.text[1] == 'c' && m.text[2] == ':';
    assert Nested(m) == m;
    assert Switched(m, "h") == if k == 2 then m.(state := Addresses) else m;
    var n := Switched(m, "h");
    hide Switched, Nested;
    assert !PastComma(n);
  }

  lemma OtherSteps(k: nat)
    requires k == 3 || k == 5 || k == 6
    ensures Traced(k).from < |Traced(k).text| && Step(Traced(k), "h") == Traced(k + 1)
  {
    hide BackUp, Insert, Backslashes;
    if k == 3 {} else if k == 5 {} else {}
  }

  lemma TracedStep(k: nat)
    requires k < 8
    ensures Traced(k).from < |Traced(k).text| && Step(Traced(k), "h") == Traced(k + 1)
  {
    if k == 4 {
      FirstInsertion();
    } else if k == 7 {
      SecondInsertion();
    } else {
      hide Step, Traced;
      if k < 3 {
        ColonSteps(k);
      } else {
        OtherSteps(k);
      }
    }
  }

  lemma {:induction false} TracedRun(k: nat)
    requires k <= 8
    ensures Run(Traced(k), "h").text == "Cc:a@h@h, ,\n"
    decreases 8 - k
  {
    hide Step;
    if k < 8 {
      TracedStep(k);
      TracedRun(k + 1);
    }
  }

  /** A blank address after a comma: the host goes back to the address before it, which then has it twice. */
  lemma DoubledHost()
    ensures Rewritten("Cc:a, ,\n", "h") == "Cc:a@h@h, ,\n"
  {
    hide Run;
    TracedRun(0);
    assert BeginsWith("Cc:a, ,\n", HEADERS[4]);
  }
}
