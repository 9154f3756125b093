/**
  The room that reply_hack reserves: it suffices for every header exactly if the host does not
  end in a comma, which the scan would take for the end of the address.
 */
module ReplyRoom {
  import opened ReplyHackSpec
  import opened CText

  /** Two addresses in brackets, with neither comma nor blank. */
  const TWO_ADDRESSES := "To:<a><a>"

  /** Nothing is known of the address, and the character before ends none. */
  predicate Plain(m: Scan, c: char) {
    && m.from < |m.text| && m.depth == 0 && !m.hasHost && m.parensFrom.None? && m.text[m.from] == c
    && (m.from > 0 ==> m.text[m.from - 1] != ',')
  }

  lemma NameStep(m: Scan, host: string, c: char)
    requires Plain(m, c) && m.state == BeforeColon && c in "To:"
    ensures
      var n := m.(from := m.from + 1, state := if c == ':' then Addresses else BeforeColon);
      n == Step(m, host) && Run(n, host) == Run(m, host)
  {
    hide InAddresses, WithHost;
  }

  lemma OpeningStep(m: Scan, host: string)
    requires Plain(m, '<') && m.state == Addresses
    ensures
      var n := m.(from := m.from + 1, state := InBrackets, lastNws := '<');
      n == Step(m, host) && Run(n, host) == Run(m, host)
  {
    hide BackUp, Insert, HeaderEnd;
  }

  lemma InsideStep(m: Scan, host: string)
    requires Plain(m, 'a') && m.state == InBrackets
    ensures
      var n := m.(from := m.from + 1);
      n == Step(m, host) && Run(n, host) == Run(m, host)
  {
  }

  /** At the closing bracket the host goes in, and its comma is taken for the end of the address. */
  lemma ClosingStep(m: Scan, host: string)
    requires Plain(m, '>') && m.state == InBrackets && m.from > 0 && m.text[m.from - 1] == 'a' && !EndsWell(host)
    ensures
      var n := m.(text := Insert(m.text, m.from, "@" + host), from := m.from + |host| + 2, state := Addresses,
                  hasBare := false);
      n == Step(m, host) && Run(n, host) == Run(m, host)
  {
    InsertLooks(m.text, m.from, "@" + host, m.from);
    hide Insert;
  }

  /** From one opening bracket to behind the closing one. */
  lemma BracketsRun(m: Scan, host: string)
    requires Plain(m, '<') && m.state == Addresses && m.from + 2 < |m.text| && !EndsWell(host)
    requires m.text[m.from + 1] == 'a' && m.text[m.from + 2] == '>'
    ensures
      Run(m, host) == Run(Scan(Insert(m.text, m.from + 2, "@" + host), m.from + |host| + 4, Addresses, 0, false, false,
                               '<', None), host)
  {
    hide Step, Run, EndsWell, Insert;
    OpeningStep(m, host);
    var n := m.(from := m.from + 1, state := InBrackets, lastNws := '<');
    InsideStep(n, host);
    ClosingStep(n.(from := n.from + 1), host);
  }

  lemma NameRun(host: string)
    ensures Run(Start(TWO_ADDRESSES), host)
         == Run(Scan(TWO_ADDRESSES, 3, Addresses, 0, false, false, '\0', None), host)
  {
    hide Step, Run;
    var m := Start(TWO_ADDRESSES);
    var t := m.text;
    assert t[0] == 'T' && t[1] == 'o' && t[2] == ':';
    NameStep(m, host, 'T');
    NameStep(m.(from := 1), host, 'o');
    NameStep(m.(from := 2), host, ':');
  }

  /** No comma and no blank: room for one host. */
  lemma RoomForOne(host: string)
    ensures |TWO_ADDRESSES| == 9 && Room(TWO_ADDRESSES, host) == 10 + (|host| + 1)
  {
    assert AddressCount(TWO_ADDRESSES, 9) == AddressCount(TWO_ADDRESSES, 3);
  }

  lemma EndOfRun(m: Scan, host: string)
    requires m.from == |m.text| && m.parensFrom.None?
    ensures Run(m, host) == m
  {
  }

  /** Both addresses are given a host that ends in a comma. */
  lemma BothGiven(host: string)
    requires !EndsWell(host)
    ensures |Run(Start(TWO_ADDRESSES), host).text| == 9 + 2 * (|host| + 1)
  {
    hide Step, Run, EndsWell, Insert;
    var s, x := TWO_ADDRESSES, "@" + host;
    NameRun(host);
    BracketsRun(Scan(s, 3, Addresses, 0, false, false, '\0', None), host);
    var t, k := Insert(s, 5, x), |host| + 7;
    assert t[k - 1..] == s[5..] && |t| == k + 3 by {
      InsertLooks(s, 5, x, 5);
    }
    assert t[k - 1] == t[k - 1..][0] && t[k] == t[k - 1..][1] && t[k + 1] == t[k - 1..][2] && t[k + 2] == t[k - 1..][3];
    BracketsRun(Scan(t, k, Addresses, 0, false, false, '<', None), host);
    EndOfRun(Scan(Insert(t, k + 2, x), k + |host| + 4, Addresses, 0, false, false, '<', None), host);
  }

  /** What is reserved is enough for every header if and only if the host does not end in a comma. */
  lemma RoomExactly(host: string)
    ensures EndsWell(host) <==> forall buf :: |Rewritten(buf, host)| < Room(buf, host)
  {
    hide Run, Room;
    if EndsWell(host) {
      forall buf
        ensures |Rewritten(buf, host)| < Room(buf, host)
      {
        RewrittenInPlaces(buf, host);
      }
    } else {
      BothGiven(host);
      RoomForOne(host);
      assert BeginsWith(TWO_ADDRESSES, HEADERS[1]);
      assert |Rewritten(TWO_ADDRESSES, host)| >= Room(TWO_ADDRESSES, host);
    }
  }
}
