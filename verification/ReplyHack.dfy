/**
  reply_hack in its own form: a cursor over a buffer that is shifted and extended in place.
 */
module ReplyHack {
  import opened ReplyHackSpec
  import opened CText

  lemma InsertIs(t: string, s: string, q: nat, x: string)
    requires q <= |s| && |t| == |s| + |x|
    requires forall i | 0 <= i < q :: t[i] == s[i]
    requires forall i | 0 <= i < |x| :: t[q + i] == x[i]
    requires forall i | q <= i < |s| :: t[i + |x|] == s[i]
    ensures t == Insert(s, q, x)
  {
    var r := Insert(s, q, x);
    forall i | 0 <= i < |t|
      ensures t[i] == r[i]
    {
      if q <= i < q + |x| {
        assert t[q + (i - q)] == x[i - q];
      } else if i >= q + |x| {
        assert t[i - |x| + |x|] == s[i - |x|];
      }
    }
  }

  class Rewriter {
    const buf: array<char>
    var len: nat
    var from: nat
    var state: State
    var parendepth: int
    var hasHostPart: bool
    var hasBareNamePart: bool
    var lastNws: char
    var parensFrom: Option<nat>

    /** The buffer holds the text and its NUL. */
    ghost predicate Valid()
      reads this, buf
    {
      && len < buf.Length && buf[len] == '\0' && from <= len
      && (parensFrom.Some? ==> parensFrom.value < len)
    }

    ghost function Value(): Scan
      requires Valid()
      reads this, buf
    {
      Scan(buf[..len], from, state, parendepth, hasHostPart, hasBareNamePart, lastNws, parensFrom)
    }

    /** A copy of the header with room to hack the addresses. */
    constructor (header: string, host: string)
      ensures Valid() && fresh(buf) && buf.Length == Room(header, host) && Value() == Start(header)
    {
      var addresscount := 1;
      for i := 0 to |header|
        invariant addresscount == AddressCount(header, i)
      {
        if header[i] == ',' || IsSpace(header[i]) {
          addresscount := addresscount + 1;
        }
      }
      var size := |header| + addresscount * (|host| + 1) + 1;
      buf := new char[size](_ => '\0');
      len, from, state, parendepth := |header|, 0, BeforeColon, 0;
      hasHostPart, hasBareNamePart, lastNws, parensFrom := false, false, '\0', None;
      new;
      forall i | 0 <= i < |header| {
        buf[i] := header[i];
      }
    }

    /** The text from `q` on, with its NUL, moved up by `gap`, from the far end. */
    method MoveUp(q: nat, gap: nat)
      requires len + gap < buf.Length && q <= len && gap > 0
      modifies buf
      ensures forall i | 0 <= i < q :: buf[i] == old(buf[i])
      ensures forall i | q <= i <= len :: buf[i + gap] == old(buf[i])
    {
      var cp := len;
      while cp >= q
        invariant q - 1 <= cp <= len
        invariant forall i | 0 <= i <= cp :: buf[i] == old(buf[i])
        invariant forall i | cp < i <= len :: buf[i + gap] == old(buf[i])
      {
        buf[cp + gap] := buf[cp];
        cp := cp - 1;
      }
    }

    /** The text from `q` on moved up; "@" and the host in the gap. */
    method InsertHost(q: nat, host: string)
      requires len + |host| + 1 < buf.Length && q <= len && buf[len] == '\0'
      modifies `len, buf
      ensures len == old(len) + |host| + 1 && len < buf.Length && buf[len] == '\0'
      ensures buf[..len] == Insert(old(buf[..len]), q, "@" + host)
    {
      hide Insert;
      ghost var b := buf[..len];
      var hostlen := |host|;
      MoveUp(q, hostlen + 1);
      buf[q] := '@';
      forall i | 0 <= i < hostlen {
        buf[q + 1 + i] := host[i];
      }
      len := len + hostlen + 1;
      InsertIs(buf[..len], b, q, "@" + host);
    }

    /** Back over spaces and commas, as far as the anchor at most. */
    method BackOver(k: nat, ghost a: nat) returns (j: nat)
      requires len <= buf.Length && a <= k < len && !IsSpace(buf[a]) && buf[a] != ','
      ensures j == BackUp(buf[..len], k)
    {
      j := k;
      while IsSpace(buf[j]) || buf[j] == ','
        invariant a <= j <= k && BackUp(buf[..len], j) == BackUp(buf[..len], k)
        decreases j
      {
        j := j - 1;
      }
    }

    /** Counts the backslashes before the cursor; the anchor stops it. */
    method CountBackslashes(ghost a: nat) returns (bscount: nat)
      requires from <= len <= buf.Length && a < from && buf[a] != '\\'
      ensures bscount == Backslashes(buf[..len], from)
    {
      bscount := 0;
      var bp := from - 1;
      while buf[bp] == '\\'
        invariant a <= bp < from && Backslashes(buf[..len], bp + 1) + bscount == Backslashes(buf[..len], from)
        decreases bp
      {
        bp := bp - 1;
        bscount := bscount + 1;
      }
    }

    /** The anchor is a character that no backward loop passes. */
    ghost predicate AnchorAt(a: nat)
      requires Valid()
      reads this, buf
    {
      state != BeforeColon ==>
        && a < from && a < len && (buf[a] == ':' || buf[a] == '@')
        && (!hasHostPart && parensFrom.Some? ==> a <= parensFrom.value < from)
    }

    /** State 1: looking for addresses. */
    method LookForAddress(host: string, ghost a: nat)
      requires Valid() && from < len && state == Addresses && AnchorAt(a) && !hasHostPart
      requires |InAddresses(Value(), host).text| < buf.Length
      modifies this, buf
      ensures Valid() && Value() == InAddresses(old(Value()), host)
    {
      hide Insert, BackUp, IsSpace, HeaderEnd, At;
      var c := buf[from];
      if !IsSpace(c) {
        lastNws := c;
      }
      if c == '<' {
        state := InBrackets;
      } else if c == '@' || c == '!' {
        hasHostPart := true;
      } else if c == '"' {
        state := InString;
      } else if (c == ',' || HeaderEnd(buf[..len], from)) && hasBareNamePart && lastNws != ';' {
        var p := from;
        var start := if parensFrom.Some? then parensFrom.value else from;
        NotBlank();
        EndsAddress(buf[..len], from);
        var q := BackOver(start, a);
        InsertHost(q + 1, host);
        from := p + |host| + 1;
        hasHostPart := true;
      } else if At(buf[..len], from + 1) == '(' && hasBareNamePart && lastNws != ';' && lastNws != ')' {
        parensFrom := Some(from);
      } else if !IsSpace(c) {
        hasBareNamePart := true;
      }
    }

    /** State 3: in a <>-enclosed address. */
    method LookForBracket(host: string)
      requires Valid() && from < len && state == InBrackets && !hasHostPart
      requires |Switched(Value(), host).text| < buf.Length
      modifies this, buf
      ensures Valid() && Value() == Switched(old(Value()), host)
    {
      hide Insert;
      var c := buf[from];
      if c == '@' || c == '!' {
        hasHostPart := true;
      } else if c == '>' && from > 0 && buf[from - 1] != '<' {
        state := Addresses;
        InsertHost(from, host);
        from := from + |host| + 1;
        hasHostPart := true;
      }
    }

    method Switch(host: string, ghost a: nat)
      requires Valid() && from < len && AnchorAt(a) && !hasHostPart
      requires |Switched(Value(), host).text| < buf.Length
      modifies this, buf
      ensures Valid() && Value() == Switched(old(Value()), host)
    {
      hide InAddresses, Insert;
      match state
      case BeforeColon =>
        if buf[from] == ':' {
          state := Addresses;
        }
      case Addresses =>
        LookForAddress(host, a);
      case InString =>
        if buf[from] == '"' {
          var bscount := CountBackslashes(a);
          if bscount % 2 == 0 {
            state := Addresses;
          }
        }
      case InBrackets =>
        LookForBracket(host);
    }

    method CountParens()
      requires Valid() && from < len
      modifies `parendepth
      ensures Value() == Nested(old(Value()))
    {
      if state != InString {
        if buf[from] == '(' {
          parendepth := parendepth + 1;
        } else if buf[from] == ')' {
          parendepth := parendepth - 1;
        }
      }
    }

    /** The body of the loop. */
    method ScanOne(host: string, ghost a: nat)
      requires Valid() && from < len && AnchorAt(a)
      requires |Body(Value(), host).text| < buf.Length
      modifies this, buf
      ensures Valid() && Value() == Body(old(Value()), host)
    {
      hide Switched, Nested;
      CountParens();
      if parendepth == 0 && !hasHostPart {
        Switch(host, a);
      }
      if from > 0 && buf[from - 1] == ',' && parendepth == 0 {
        hasHostPart, hasBareNamePart, parensFrom := false, false, None;
      }
    }
  }

  lemma NotBlank()
    ensures !IsSpace(':') && !IsSpace('@')
  {
  }

  /** strncasecmp with each of the header names in turn. */
  method IsAddressHeader(buf: string) returns (yes: bool)
    ensures yes <==> HasAddresses(buf)
  {
    for k := 0 to |HEADERS|
      invariant forall j | 0 <= j < k :: !BeginsWith(buf, HEADERS[j])
    {
      if BeginsWith(buf, HEADERS[k]) {
        return true;
      }
    }
    return false;
  }

  /** A header without addresses is left alone; another is rewritten within the room reserved for it. */
  method ReplyHack(header: string, host: string) returns (buf: string)
    requires EndsWell(host)
    ensures buf == Rewritten(header, host)
  {
    hide Reached, Step, Body, Run, Room, HasAddresses;
    var yes := IsAddressHeader(header);
    if !yes {
      return header;
    }
    var r := new Rewriter(header, host);
    ghost var ps: seq<nat>, a: nat := [], 0;
    Begins(header, host);
    while r.from < r.len
      invariant r.Valid() && r.buf.Length == Room(header, host) && fresh(r) && fresh(r.buf)
      invariant Reached(header, host, r.Value(), ps, a)
      invariant Run(r.Value(), host) == Run(Start(header), host)
      decreases r.len - r.from
    {
      ghost var m := r.Value();
      Advances(m, host);
      RunUnfolds(m, Step(m, host), host);
      AnchorKept(header, host, m, ps, a);
      ghost var qs, b := StepKeeps(header, host, m, ps, a);
      RoomEnough(header, host, Step(m, host), qs, b);
      StepText(m, host);
      r.ScanOne(host, a);
      r.from := r.from + 1;
      ps, a := qs, b;
    }
    RunEnds(r.Value(), host);
    buf := r.buf[..r.len];
  }

  lemma RunUnfolds(m: Scan, n: Scan, host: string)
    requires m.from < |m.text| && (m.parensFrom.Some? ==> m.parensFrom.value < |m.text|) && n == Step(m, host)
    requires n.from <= |n.text| && (n.parensFrom.Some? ==> n.parensFrom.value < |n.text|)
    ensures Run(m, host) == Run(n, host)
  {
    hide Step;
  }

  lemma RunEnds(m: Scan, host: string)
    requires m.from == |m.text| && (m.parensFrom.Some? ==> m.parensFrom.value < |m.text|)
    ensures Run(m, host) == m
  {
  }

  lemma StepText(m: Scan, host: string)
    requires m.from < |m.text| && (m.parensFrom.Some? ==> m.parensFrom.value < |m.text|)
    ensures Step(m, host) == Body(m, host).(from := Body(m, host).from + 1)
  {
  }

  lemma AnchorKept(orig: string, host: string, m: Scan, ps: seq<nat>, a: nat)
    requires Reached(orig, host, m, ps, a)
    ensures m.state != BeforeColon ==>
      && a < m.from && a < |m.text| && (m.text[a] == ':' || m.text[a] == '@')
      && (!m.hasHost && m.parensFrom.Some? ==> a <= m.parensFrom.value < m.from)
    ensures m.parensFrom.Some? ==> m.parensFrom.value < |m.text|
  {
  }
}
