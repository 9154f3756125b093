/**
  The base64 codecs of base64.c and rpa.c.  Bytes and characters are numbers below 256,
  as both kinds share one buffer in rpa.c; shifts and masks are divisions and remainders.
 */
module Base64 {
  import opened CText
  import opened Octets

  const NUL: Byte := 0
  const LF: Byte := 10
  const CR: Byte := 13
  const BLANK: Byte := 32
  const PLUS: Byte := 43
  const PAD: Byte := 61

  /** The shifts and masks of base64.c are the divisions and remainders of this model. */
  lemma ShiftsAreDivisions(a: bv8, b: bv8)
    ensures a >> 2 == a / 4 && a & 0x3f == a % 64
    ensures ((a << 4) & 0x30) | (b >> 4) == (a % 4) * 16 + b / 16
    ensures ((a << 2) & 0x3c) | (b >> 6) == (a % 16) * 4 + b / 64
  {
  }

  // ----- Digits -----

  const DIGITS: string := "ABCDEFGHIJKLMNOPQRSTUVWXYZ" + "abcdefghijklmnopqrstuvwxyz" + "0123456789" + "+/"

  function Digit(v: nat): (c: Byte)
    requires v < 64
  {
    if v < 26 then 65 + v else if v < 52 then 97 + (v - 26) else if v < 62 then 48 + (v - 52) else if v == 62 then 43
      else 47
  }

  /** DECODE64: -1 is BAD. */
  function Value(c: Byte): (v: int)
    ensures -1 <= v < 64
  {
    if 65 <= c <= 90 then c - 65 else if 97 <= c <= 122 then c - 97 + 26 else if 48 <= c <= 57 then c - 48 + 52
    else if c == 43 then 62 else if c == 47 then 63 else -1
  }

  lemma DigitTable(v: nat)
    requires v < 64
    ensures |DIGITS| == 64 && DIGITS[v] as int == Digit(v)
  {
    if v < 26 {} else if v < 52 {} else {}
  }

  lemma ValueOfDigit(v: nat)
    requires v < 64
    ensures Value(Digit(v)) == v && Digit(v) != PAD && Digit(v) != CR && Digit(v) != NUL && Digit(v) != LF &&
      Digit(v) != BLANK
  {
  }

  /** Only the digits have a value, each its place in the table. */
  lemma ValueExactly(c: Byte, v: nat)
    ensures Value(c) == v <==> v < 64 && c == Digit(v)
  {
  }

  // ----- Encoding: section 6.8 of RFC 2045 -----

  /** The four characters for one, two or three bytes. */
  function Group(b: Bytes): (g: Bytes)
    requires 1 <= |b| <= 3
    ensures |g| == 4
  {
    var c1: nat := b[0];
    var c2: nat := if |b| > 1 then b[1] else 0;
    var c3: nat := if |b| > 2 then b[2] else 0;
    [Digit(c1 / 4), Digit(c1 % 4 * 16 + c2 / 16),
     if |b| > 1 then Digit(c2 % 16 * 4 + c3 / 64) else PAD,
     if |b| > 2 then Digit(c3 % 64) else PAD]
  }

  function Encode(b: Bytes): (e: Bytes)
    decreases |b|
  {
    if b == [] then [] else if |b| <= 3 then Group(b) else Group(b[..3]) + Encode(b[3..])
  }

  lemma {:induction false} EncodedLength(b: Bytes)
    ensures |Encode(b)| == (|b| + 2) / 3 * 4
    decreases |b|
  {
    if |b| > 3 {
      EncodedLength(b[3..]);
    }
  }

  /** An encoding is made of digits, with as many "=" at its end as bytes are wanting to a multiple of three. */
  lemma {:induction false} EncodedText(b: Bytes)
    ensures
      var e, pads := Encode(b), (3 - |b| % 3) % 3;
      && |e| == (|b| + pads) / 3 * 4
      && (forall i | |e| - pads <= i < |e| :: e[i] == '=' as int)
      && (forall i | 0 <= i < |e| - pads :: 0 <= Value(e[i]))
    decreases |b|
  {
    hide Encode, Group, Value;
    if b == [] {
      EmptyEncoded();
    } else if |b| <= 3 {
      OneGroup(b);
      GroupText(b);
    } else {
      EncodedText(b[3..]);
      ManyGroups(b);
      GroupText(b[..3]);
    }
  }

  lemma EmptyEncoded()
    ensures Encode([]) == []
  {
  }

  lemma GroupText(b: Bytes)
    requires 0 < |b| <= 3
    ensures forall i | |b| < i < 4 :: Group(b)[i] == '=' as int
    ensures forall i | 0 <= i <= |b| :: 0 <= Value(Group(b)[i])
  {
  }

  lemma OneGroup(b: Bytes)
    requires 0 < |b| <= 3
    ensures Encode(b) == Group(b)
  {
  }

  lemma ManyGroups(b: Bytes)
    requires |b| > 3
    ensures Encode(b) == Group(b[..3]) + Encode(b[3..])
  {
  }

  function Code(c: char): Byte
    requires c as int < 256
  {
    c as int
  }

  function Ascii(s: string): (b: Bytes)
    requires forall i | 0 <= i < |s| :: s[i] as int < 256
  {
    seq(|s|, i requires 0 <= i < |s| => Code(s[i]))
  }

  /** From section 10 of RFC 4648. */
  lemma PublishedEncodings()
    ensures Encode(Ascii("f")) == Ascii("Zg==") && Encode(Ascii("fo")) == Ascii("Zm8=")
    ensures Encode(Ascii("foo")) == Ascii("Zm9v") && Encode(Ascii("foobar")) == Ascii("Zm9vYmFy")
  {
    EncodedFoo();
    EncodedBar();
    hide Encode, Group;
    var b := Ascii("foobar");
    assert b[..3] == Ascii("foo") && b[3..] == Ascii("bar");
    ManyGroups(b);
    OneGroup(b[..3]);
    assert Ascii("Zm9v") + Ascii("YmFy") == Ascii("Zm9vYmFy");
  }

  lemma EncodedFoo()
    ensures Encode(Ascii("f")) == Ascii("Zg==") && Encode(Ascii("fo")) == Ascii("Zm8=")
    ensures Encode(Ascii("foo")) == Ascii("Zm9v")
  {
  }

  lemma EncodedBar()
    ensures Encode(Ascii("bar")) == Ascii("YmFy")
  {
  }

  method To64FromBits(out: array<Byte>, input: Bytes)
    requires |Encode(input)| < out.Length
    modifies out
    ensures out[..|Encode(input)|] == Encode(input) && out[|Encode(input)|] == NUL
    ensures forall j | |Encode(input)| < j < out.Length :: out[j] == old(out[j])
  {
    hide Encode, Group;
    EncodedLength(input);
    var k, o := 0, 0;
    ghost var q := 0;
    while |input| - k >= 3
      invariant k == 3 * q <= |input| && o == 4 * q
      invariant out[..o] + Encode(input[k..]) == Encode(input)
      invariant forall j | o <= j < out.Length :: out[j] == old(out[j])
    {
      ghost var was := out[..o];
      PutThree(out, o, input[k..k + 3]);
      assert out[..o + 4][..o] == was;
      NextGroup(input, k, was, out[..o + 4]);
      k, o, q := k + 3, o + 4, q + 1;
    }
    if |input| - k > 0 {
      ghost var was := out[..o];
      PutFragment(out, o, input[k..]);
      assert out[..o + 4][..o] == was;
      LastGroup(input, k, was, out[..o + 4]);
      o := o + 4;
    } else {
      NoGroup(input, k);
      assert out[..o] + [] == out[..o];
    }
    ghost var e := out[..o];
    assert e == Encode(input);
    out[o] := NUL;
    assert out[..o] == e;
  }

  method PutThree(out: array<Byte>, o: nat, input: Bytes)
    requires |input| == 3 && o + 4 <= out.Length
    modifies out
    ensures out[o..o + 4] == Group(input)
    ensures forall j | 0 <= j < out.Length && !(o <= j < o + 4) :: out[j] == old(out[j])
  {
    hide Digit;
    out[o] := Digit(input[0] / 4);
    out[o + 1] := Digit(input[0] % 4 * 16 + input[1] / 16);
    out[o + 2] := Digit(input[1] % 16 * 4 + input[2] / 64);
    out[o + 3] := Digit(input[2] % 64);
  }

  /** The last one or two bytes. */
  method PutFragment(out: array<Byte>, o: nat, input: Bytes)
    requires 1 <= |input| <= 2 && o + 4 <= out.Length
    modifies out
    ensures out[o..o + 4] == Group(input)
    ensures forall j | 0 <= j < out.Length && !(o <= j < o + 4) :: out[j] == old(out[j])
  {
    hide Digit;
    out[o] := Digit(input[0] / 4);
    var fragment := input[0] % 4 * 16;
    if |input| > 1 {
      fragment := fragment + input[1] / 16;
    }
    out[o + 1] := Digit(fragment);
    out[o + 2] := if |input| < 2 then PAD else Digit(input[1] % 16 * 4);
    out[o + 3] := PAD;
  }

  lemma NoGroup(input: Bytes, k: nat)
    requires k == |input|
    ensures Encode(input[k..]) == []
  {
  }

  lemma NextGroup(input: Bytes, k: nat, was: Bytes, now: Bytes)
    requires k + 3 <= |input| && was + Encode(input[k..]) == Encode(input)
    requires |now| == |was| + 4 && now[..|was|] == was && now[|was|..] == Group(input[k..k + 3])
    ensures now + Encode(input[k + 3..]) == Encode(input)
  {
    hide Group, Encode;
    EncodeStep(input[k..]);
    assert input[k..][..3] == input[k..k + 3] && input[k..][3..] == input[k + 3..];
    assert now == was + Group(input[k..k + 3]);
    Reassociate(was, Group(input[k..k + 3]), Encode(input[k + 3..]));
  }

  lemma Reassociate(a: Bytes, b: Bytes, c: Bytes)
    ensures a + (b + c) == (a + b) + c
  {
  }

  lemma LastGroup(input: Bytes, k: nat, was: Bytes, now: Bytes)
    requires k < |input| <= k + 3 && was + Encode(input[k..]) == Encode(input)
    requires |now| == |was| + 4 && now[..|was|] == was && now[|was|..] == Group(input[k..])
    ensures now == Encode(input)
  {
    hide Group;
    assert now == was + Group(input[k..]);
  }

  /** A first group of three always splits off. */
  lemma EncodeStep(b: Bytes)
    requires |b| >= 3
    ensures Encode(b) == Group(b[..3]) + Encode(b[3..])
  {
    if |b| == 3 {
      assert b[..3] == b;
    }
  }

  lemma GroupBefore(s: Bytes, i: nat, e: Bytes)
    requires i < |s| && |e| >= 4
    requires
      var next := if i + 3 < |s| then i + 3 else |s|;
      e[..4] == Group(s[i..next]) && e[4..] == Encode(s[next..])
    ensures e == Encode(s[i..])
  {
    hide Group;
    assert e == e[..4] + e[4..];
    if i + 3 < |s| {
      EncodeStep(s[i..]);
      assert s[i..][..3] == s[i..i + 3] && s[i..][3..] == s[i + 3..];
    } else {
      NoGroup(s, |s|);
      assert s[i..|s|] == s[i..];
    }
  }

  // ----- rpa.c: encoding in place, from the far end -----

  /** The group at `i`, written at `outp`, which may be over itself and what follows. */
  method PutGroup(bufp: array<Byte>, len: nat, i: nat, outp: nat)
    requires i < len <= bufp.Length && outp + 4 <= bufp.Length
    modifies bufp
    ensures bufp[outp..outp + 4] == Group(old(bufp[i..if i + 3 < len then i + 3 else len]))
    ensures forall j | 0 <= j < bufp.Length && !(outp <= j < outp + 4) :: bufp[j] == old(bufp[j])
  {
    hide Digit;
    var c1: nat := bufp[i];
    var c2: nat := if i + 1 < len then bufp[i + 1] else 0;
    var c3: nat := if i + 2 < len then bufp[i + 2] else 0;
    bufp[outp] := Digit(c1 / 4);
    bufp[outp + 1] := Digit(c1 % 4 * 16 + c2 / 16);
    bufp[outp + 2] := if i + 1 < len then Digit(c2 % 16 * 4 + c3 / 64) else PAD;
    bufp[outp + 3] := if i + 2 < len then Digit(c3 % 64) else PAD;
  }

  /** The encoding of s[k..] stands in the buffer from `o` up to `end`. */
  ghost predicate EncodedFrom(b: Bytes, s: Bytes, k: nat, o: nat, end: nat) {
    k <= |s| && o <= end <= |b| && b[o..end] == Encode(s[k..])
  }

  lemma NothingEncoded(b: Bytes, s: Bytes, end: nat)
    requires end <= |b|
    ensures EncodedFrom(b, s, |s|, end, end)
  {
    NoGroup(s, |s|);
  }

  lemma AllEncoded(b: Bytes, s: Bytes, end: nat)
    requires EncodedFrom(b, s, 0, 0, end)
    ensures b[..end] == Encode(s)
  {
    assert s[0..] == s && b[..end] == b[0..end];
  }

  /** One more group in front of those already encoded. */
  method StepBack(bufp: array<Byte>, len: nat, i: nat, outp: nat, ghost s: Bytes, ghost end: nat)
    requires i < len == |s| <= bufp.Length && i <= outp && outp + 4 <= end <= bufp.Length
    requires forall j | 0 <= j < i + 3 && j < len :: bufp[j] == s[j]
    requires EncodedFrom(bufp[..], s, if i + 3 < len then i + 3 else len, outp + 4, end)
    modifies bufp
    ensures EncodedFrom(bufp[..], s, i, outp, end)
    ensures forall j | 0 <= j < bufp.Length && !(outp <= j < outp + 4) :: bufp[j] == old(bufp[j])
  {
    hide Encode, Group;
    ghost var done := if i + 3 < len then i + 3 else len;
    assert bufp[i..done] == s[i..done];
    ghost var was := bufp[outp + 4..end];
    PutGroup(bufp, len, i, outp);
    assert bufp[outp + 4..end] == was;
    assert bufp[outp..end] == bufp[outp..outp + 4] + was;
    GroupBefore(s, i, bufp[outp..end]);
    assert bufp[..][outp..end] == bufp[outp..end];
  }

  method EncBase64(bufp: array<Byte>, len: nat)
    requires 0 < len <= bufp.Length && (len - 1) / 3 * 4 + 4 < bufp.Length
    modifies bufp
    ensures
      var e := Encode(old(bufp[..len]));
      && |e| < bufp.Length && bufp[..|e|] == e && bufp[|e|] == NUL
      && forall j | |e| < j < bufp.Length :: bufp[j] == old(bufp[j])
  {
    hide Encode, EncodedFrom;
    ghost var s := bufp[..len];
    EncodedLength(s);
    var i := (len - 1) / 3 * 3;
    var outp := (len - 1) / 3 * 4;
    ghost var q, end := (len - 1) / 3, outp + 4;
    bufp[outp + 4] := NUL;
    NothingEncoded(bufp[..], s, end);
    while i >= 0
      invariant i == 3 * q && outp == 4 * q && -1 <= q && outp + 4 <= end < bufp.Length
      invariant forall j | 0 <= j < i + 3 && j < len :: bufp[j] == s[j]
      invariant EncodedFrom(bufp[..], s, if i + 3 < len then i + 3 else len, outp + 4, end)
      invariant bufp[end] == NUL && forall j | end < j < bufp.Length :: bufp[j] == old(bufp[j])
    {
      StepBack(bufp, len, i, outp, s, end);
      i := i - 3;
      outp := outp - 4;
      q := q - 1;
    }
    AllEncoded(bufp[..], s, end);
    assert bufp[..end] == bufp[..][..end];
  }

  // ----- Decoding: sextets to bytes -----

  type Sextet = n: nat | n < 64

  /** The three bytes that four sextets hold. */
  function First(a: nat, b: nat): Byte
    requires a < 64 && b < 64
  {
    a * 4 + b / 16
  }

  function Second(b: nat, c: nat): Byte
    requires b < 64 && c < 64
  {
    b % 16 * 16 + c / 4
  }

  function Third(c: nat, d: nat): Byte
    requires c < 64 && d < 64
  {
    c % 4 * 64 + d
  }

  function Pack(v: seq<Sextet>): Bytes
    decreases |v|
  {
    if |v| < 2 then []
    else if |v| == 2 then [First(v[0], v[1])]
    else if |v| == 3 then [First(v[0], v[1]), Second(v[1], v[2])]
    else [First(v[0], v[1]), Second(v[1], v[2]), Third(v[2], v[3])] + Pack(v[4..])
  }

  /** How many bits of the last sextet are not yet in a byte, when r sextets follow the last whole group. */
  function Left(r: nat): nat
    requires r < 4
  {
    if r == 0 then 0 else if r == 1 then 6 else if r == 2 then 4 else 2
  }

  /** What one more sextet adds. */
  function Added(last: nat, x: nat, r: nat): Bytes
    requires last < 64 && x < 64 && r < 4
  {
    if r == 0 then [] else if r == 1 then [First(last, x)] else if r == 2 then [Second(last, x)] else [Third(last, x)]
  }

  function Last(v: seq<Sextet>): Sextet {
    if v == [] then 0 else v[|v| - 1]
  }

  lemma {:induction false} PackOneMore(v: seq<Sextet>, x: Sextet)
    ensures Pack(v + [x]) == Pack(v) + Added(Last(v), x, |v| % 4)
    decreases |v|
  {
    hide First, Second, Third;
    var w := v + [x];
    if |v| >= 4 {
      var rest := v[4..];
      PackOneMore(rest, x);
      assert w[4..] == rest + [x] && |rest| % 4 == |v| % 4;
      if rest == [] {
        assert Added(Last(v), x, 0) == [] && Added(Last(rest), x, 0) == [];
      } else {
        assert Last(rest) == Last(v);
      }
    } else if |v| == 3 {
      assert w[4..] == [];
    }
  }

  /** part >> bits */
  function Shifted(part: nat, bits: nat): nat {
    if bits == 0 then part else if bits == 2 then part / 4 else part / 16
  }

  lemma Cut256(h: nat, l: nat)
    requires l < 256
    ensures (256 * h + l) % 256 == l
  {
  }

  lemma Cut64(h: nat, l: nat)
    requires l < 64
    ensures (h * 64 + l) % 64 == l
  {
  }

  lemma LowBytes(a: nat, x: nat)
    requires a < 64 && x < 64
    ensures
      var p := a * 64 + x;
      p / 16 % 256 == First(a, x) && p / 4 % 256 == Second(a, x) && p % 256 == Third(a, x)
  {
    var p := a * 64 + x;
    assert p / 16 == a * 4 + x / 16;
    Cut256(0, a * 4 + x / 16);
    assert p / 4 == 256 * (a / 16) + (a % 16 * 16 + x / 4);
    Cut256(a / 16, a % 16 * 16 + x / 4);
    assert p == 256 * (a / 4) + (a % 4 * 64 + x);
    Cut256(a / 4, a % 4 * 64 + x);
  }

  /** The accumulator of DecBase64 puts out what one more sextet adds. */
  lemma AccumulatorStep(part: nat, x: nat, r: nat)
    requires x < 64 && r < 4
    ensures
      var p := part % 64 * 64 + x;
      && p % 64 == x
      && if r == 0 then Left(1) == 6
         else Left((r + 1) % 4) == Left(r) - 2 && Added(part % 64, x, r) == [Shifted(p, Left(r) - 2) % 256]
  {
    hide First, Second, Third;
    LowBytes(part % 64, x);
    Cut64(part % 64, x);
    if r == 0 {} else if r == 1 {} else if r == 2 {} else {}
  }

  // ----- rpa.c: decoding in place -----

  /** Padding and line ends, skipped wherever they are. */
  predicate Skipped(c: Byte) {
    c == PAD || c == BLANK || c == LF || c == CR
  }

  predicate Legal(s: Bytes) {
    forall c <- s :: Skipped(c) || Value(c) >= 0
  }

  function Sextets(s: Bytes): seq<Sextet>
    requires Legal(s)
  {
    if s == [] then [] else
      var c := s[|s| - 1];
      Sextets(s[..|s| - 1]) + if Skipped(c) then [] else [Value(c)]
  }

  /** One legal character into the accumulator, and a byte out of it when there are eight bits. */
  method TakeSextet(bufp: array<Byte>, newx: Sextet, part0: nat, bits0: nat, cnt0: nat, ghost v: seq<Sextet>)
    returns (part: nat, bits: nat, cnt: nat)
    requires cnt0 < bufp.Length && bits0 == Left(|v| % 4) && part0 % 64 == Last(v)
    requires bufp[..cnt0] == Pack(v)
    modifies bufp
    ensures part % 64 == newx && bits == Left(|v + [newx]| % 4)
    ensures cnt <= bufp.Length && cnt0 <= cnt <= cnt0 + 1 && bufp[..cnt] == Pack(v + [newx])
    ensures forall j | cnt <= j < bufp.Length :: bufp[j] == old(bufp[j])
  {
    hide Pack, Added;
    ghost var r := |v| % 4;
    AccumulatorStep(part0, newx, r);
    PackOneMore(v, newx);
    assert |v + [newx]| % 4 == (r + 1) % 4;
    part := part0 % 64 * 64 + newx;
    bits := bits0 + 6;
    cnt := cnt0;
    if bits >= 8 {
      bits := bits - 8;
      bufp[cnt] := Shifted(part, bits) % 256;
      cnt := cnt + 1;
      assert bufp[..cnt] == old(bufp[..cnt0]) + [bufp[cnt0]];
    } else {
      NothingAdded(Last(v), newx);
      assert Pack(v) + [] == Pack(v);
    }
  }

  lemma NothingAdded(last: Sextet, x: Sextet)
    ensures Added(last, x, 0) == []
  {
  }

  method DecBase64(bufp: array<Byte>, ghost len: nat) returns (cnt: nat)
    requires len < bufp.Length && bufp[len] == NUL && NUL !in bufp[..len]
    modifies bufp
    ensures Legal(old(bufp[..len])) ==> cnt <= len && bufp[..cnt] == Pack(Sextets(old(bufp[..len])))
    ensures !Legal(old(bufp[..len])) ==> cnt == 0
    ensures forall j | len <= j < bufp.Length :: bufp[j] == old(bufp[j])
  {
    hide Pack;
    ghost var s := bufp[..len];
    ghost var v: seq<Sextet> := [];
    NothingPacked();
    cnt := 0;
    var bits, part, inp := 0, 0, 0;
    while bufp[inp] != 0
      invariant cnt <= inp <= len && forall j | inp <= j < bufp.Length :: bufp[j] == old(bufp[j])
      invariant Legal(s[..inp]) && v == Sextets(s[..inp])
      invariant bits == Left(|v| % 4) && part % 64 == Last(v)
      invariant bufp[..cnt] == Pack(v)
      decreases len - inp
    {
      var ch := bufp[inp];
      inp := inp + 1;
      assert s[..inp][..inp - 1] == s[..inp - 1];
      if ch != PAD && ch != BLANK && ch != LF && ch != CR {
        var newx := Value(ch);
        if newx < 0 {
          return 0;
        }
        part, bits, cnt := TakeSextet(bufp, newx, part, bits, cnt, v);
        v := v + [newx];
      }
    }
    assert s[..inp] == s;
  }

  lemma NothingPacked()
    ensures Pack([]) == []
  {
  }

  // ----- base64.c: strict decoding -----

  /** A character of a C string. */
  function At(s: Bytes, i: nat): Byte {
    if i < |s| then s[i] else NUL
  }

  predicate GroupLegal(s: Bytes) {
    && Value(At(s, 0)) >= 0 && Value(At(s, 1)) >= 0
    && (At(s, 2) == PAD || Value(At(s, 2)) >= 0) && (At(s, 3) == PAD || Value(At(s, 3)) >= 0)
  }

  /** The bytes of a first group; nothing after a "=" in third place counts. */
  function GroupBytes(s: Bytes): (g: Bytes)
    requires GroupLegal(s)
    ensures 1 <= |g| <= 3
  {
    var b1 := First(Value(s[0]), Value(s[1]));
    if s[2] == PAD then [b1] else
      var b2 := Second(Value(s[1]), Value(s[2]));
      if s[3] == PAD then [b1, b2] else [b1, b2, Third(Value(s[2]), Value(s[3]))]
  }

  /** NUL is not a digit, so a legal group lies within the string. */
  lemma LegalGroupIsWhole(s: Bytes)
    requires GroupLegal(s)
    ensures |s| >= 4
  {
  }

  predicate GroupsEnd(s: Bytes) {
    At(s, 4) == NUL || At(s, 4) == CR || At(s, 3) == PAD
  }

  function Groups(s: Bytes): Option<Bytes>
    decreases |s|
  {
    if !GroupLegal(s) then None
    else if GroupsEnd(s) then Some(GroupBytes(s))
    else var rest := Groups(s[4..]);
      if rest.None? then None else Some(GroupBytes(s) + rest.value)
  }

  /** What from64tobits makes of a line, but for the limit on its length. */
  function Strict(s: Bytes): Option<Bytes> {
    var t := if At(s, 0) == PLUS && At(s, 1) == BLANK then s[2..] else s;
    if At(t, 0) == CR then Some([]) else Groups(t)
  }

  /** The bytes of one group, as far as the limit lets them; the new length, or -1. */
  method PutDecoded(out: array<Byte>, s: Bytes, len0: nat, maxlen: nat) returns (len: int)
    requires GroupLegal(s) && len0 <= out.Length
    requires if maxlen > 0 then len0 <= maxlen <= out.Length else len0 + 3 <= out.Length
    modifies out
    ensures len == if maxlen > 0 && len0 + |GroupBytes(s)| > maxlen then -1 else len0 + |GroupBytes(s)|
    ensures len >= 0 ==> len <= out.Length && out[..len] == old(out[..len0]) + GroupBytes(s)
    ensures maxlen > 0 ==> out[maxlen..] == old(out[maxlen..])
  {
    LegalGroupIsWhole(s);
    hide Value, First, Second, Third;
    len := len0 + 1;
    if maxlen != 0 && len > maxlen {
      return -1;
    }
    out[len - 1] := First(Value(s[0]), Value(s[1]));
    if s[2] != PAD {
      len := len + 1;
      if maxlen != 0 && len > maxlen {
        return -1;
      }
      out[len - 1] := Second(Value(s[1]), Value(s[2]));
      if s[3] != PAD {
        len := len + 1;
        if maxlen != 0 && len > maxlen {
          return -1;
        }
        out[len - 1] := Third(Value(s[2]), Value(s[3]));
      }
    }
  }

  /** What was decoded before, in front of what is decoded from here on. */
  function After(done: Bytes, rest: Option<Bytes>): Option<Bytes> {
    if rest.None? then None else Some(done + rest.value)
  }

  lemma NoneYet(s: Bytes)
    ensures Groups(s) == After([], Groups(s))
  {
    if Groups(s).Some? {
      assert [] + Groups(s).value == Groups(s).value;
    }
  }

  lemma AfterGroup(done: Bytes, s: Bytes)
    requires GroupLegal(s)
    ensures After(done, Groups(s)) ==
      if GroupsEnd(s) then Some(done + GroupBytes(s)) else After(done + GroupBytes(s), Groups(s[4..]))
  {
    hide GroupBytes;
    if !GroupsEnd(s) && Groups(s[4..]).Some? {
      Reassociate(done, GroupBytes(s), Groups(s[4..]).value);
    }
  }

  method From64ToBits(out: array<Byte>, input: Bytes, maxlen: nat) returns (len: int)
    requires NUL !in input
    requires if maxlen > 0 then maxlen <= out.Length else 3 * |input| <= 4 * out.Length
    modifies out
    ensures len == -1 <==> Strict(input).None? || (maxlen > 0 && |Strict(input).value| > maxlen)
    ensures len != -1 ==> 0 <= len <= out.Length && Strict(input) == Some(out[..len])
    ensures maxlen > 0 ==> out[maxlen..] == old(out[maxlen..])
  {
    var s := input;
    if At(s, 0) == PLUS && At(s, 1) == BLANK {
      s := s[2..];
    }
    if At(s, 0) == CR {
      return 0;
    }
    hide Value, GroupBytes;
    len := 0;
    ghost var t := s;
    NoneYet(t);
    while true
      invariant 0 <= len <= out.Length && (maxlen > 0 ==> len <= maxlen) && NUL !in s
      invariant maxlen > 0 ==> out[maxlen..] == old(out[maxlen..])
      invariant maxlen == 0 ==> 3 * |s| + 4 * len <= 4 * out.Length
      invariant Groups(t) == After(out[..len], Groups(s))
      decreases |s|
    {
      if Value(At(s, 0)) == -1 || Value(At(s, 1)) == -1 {
        return -1;
      }
      if (At(s, 2) != PAD && Value(At(s, 2)) == -1) || (At(s, 3) != PAD && Value(At(s, 3)) == -1) {
        return -1;
      }
      LegalGroupIsWhole(s);
      ghost var was := out[..len];
      AfterGroup(was, s);
      len := PutDecoded(out, s, len, maxlen);
      if len < 0 {
        return -1;
      }
      if At(s, 4) == NUL || At(s, 4) == CR || s[3] == PAD {
        return;
      }
      s := s[4..];
    }
  }

  // ----- Round trips -----

  /** The sextets of one, two or three bytes. */
  function SextetsOf(b: Bytes): (v: seq<Sextet>)
    requires 1 <= |b| <= 3
    ensures |v| == |b| + 1
  {
    var c1: nat := b[0];
    var c2: nat := if |b| > 1 then b[1] else 0;
    var c3: nat := if |b| > 2 then b[2] else 0;
    var v1: Sextet := c1 / 4;
    var v2: Sextet := c1 % 4 * 16 + c2 / 16;
    var v3: Sextet := c2 % 16 * 4 + c3 / 64;
    var v4: Sextet := c3 % 64;
    if |b| == 1 then [v1, v2] else if |b| == 2 then [v1, v2, v3] else [v1, v2, v3, v4]
  }

  lemma BytesBack(a: nat, b: nat, c: nat)
    requires a < 256 && b < 256 && c < 256
    ensures First(a / 4, a % 4 * 16 + b / 16) == a
    ensures Second(a % 4 * 16 + b / 16, b % 16 * 4 + c / 64) == b
    ensures Third(b % 16 * 4 + c / 64, c % 64) == c
  {
    var p, q := a % 4 * 16 + b / 16, b % 16 * 4 + c / 64;
    assert p / 16 == a % 4 && p % 16 == b / 16;
    assert q / 4 == b % 16 && q % 4 == c / 64;
  }

  lemma PackBack(b: Bytes)
    requires 1 <= |b| <= 3
    ensures Pack(SextetsOf(b)) == b
  {
    hide First, Second, Third;
    BytesBack(b[0], if |b| > 1 then b[1] else 0, if |b| > 2 then b[2] else 0);
    assert |b| == 3 ==> SextetsOf(b)[4..] == [];
  }

  /** Two to four sextets as four characters. */
  function Spell(v: seq<Sextet>): (g: Bytes)
    requires 2 <= |v| <= 4
    ensures |g| == 4
  {
    [Digit(v[0]), Digit(v[1]), if |v| > 2 then Digit(v[2]) else PAD, if |v| > 3 then Digit(v[3]) else PAD]
  }

  lemma SpellsGroup(b: Bytes)
    requires 1 <= |b| <= 3
    ensures Group(b) == Spell(SextetsOf(b))
  {
    hide Digit;
  }

  lemma NoSextets()
    ensures Sextets([]) == []
  {
  }

  lemma SextetAppended(s: Bytes, c: Byte)
    requires Legal(s) && (Skipped(c) || Value(c) >= 0)
    ensures Legal(s + [c]) && Sextets(s + [c]) == Sextets(s) + if Skipped(c) then [] else [Value(c)]
  {
    assert (s + [c])[..|s|] == s;
  }

  lemma SpelledSextets(v: seq<Sextet>)
    requires 2 <= |v| <= 4
    ensures Legal(Spell(v)) && Sextets(Spell(v)) == v
  {
    NoSextets();
    hide Digit, Value, Sextets;
    var g := Spell(v);
    ValueOfDigit(v[0]);
    ValueOfDigit(v[1]);
    if |v| > 2 {
      ValueOfDigit(v[2]);
    }
    if |v| > 3 {
      ValueOfDigit(v[3]);
    }
    SextetAppended([], g[0]);
    SextetAppended([g[0]], g[1]);
    SextetAppended([g[0], g[1]], g[2]);
    SextetAppended([g[0], g[1], g[2]], g[3]);
    assert [] + [g[0]] == [g[0]] && [g[0]] + [g[1]] == [g[0], g[1]];
    assert [g[0], g[1]] + [g[2]] == [g[0], g[1], g[2]] && [g[0], g[1], g[2]] + [g[3]] == g;
  }

  lemma SpelledGroup(v: seq<Sextet>, rest: Bytes)
    requires 2 <= |v| <= 4
    ensures GroupLegal(Spell(v) + rest) && GroupBytes(Spell(v) + rest) == Pack(v)
    ensures (Spell(v) + rest)[3] == PAD <==> |v| < 4
    ensures NUL !in Spell(v) && Spell(v)[0] != CR && Spell(v)[1] != BLANK
  {
    hide Digit, Value, First, Second, Third;
    ValueOfDigit(v[0]);
    ValueOfDigit(v[1]);
    if |v| > 2 {
      ValueOfDigit(v[2]);
    }
    if |v| > 3 {
      ValueOfDigit(v[3]);
      assert v[4..] == [];
    }
  }

  lemma {:induction false} SextetsConcat(a: Bytes, b: Bytes)
    requires Legal(a) && Legal(b)
    ensures Legal(a + b) && Sextets(a + b) == Sextets(a) + Sextets(b)
    decreases |b|
  {
    if b == [] {
      assert a + b == a;
    } else {
      var n := |b| - 1;
      SextetsConcat(a, b[..n]);
      assert a + b == (a + b[..n]) + [b[n]] && b == b[..n] + [b[n]];
      SextetAppended(a + b[..n], b[n]);
    }
  }

  lemma PackGroup(v: seq<Sextet>, w: seq<Sextet>)
    requires |v| == 4
    ensures Pack(v + w) == Pack(v) + Pack(w)
  {
    hide First, Second, Third;
    assert (v + w)[4..] == w && v[4..] == [];
  }

  /** DecBase64 undoes both encoders: section 6.8 of RFC 2045. */
  lemma {:induction false} PackUndoesEncode(b: Bytes)
    ensures Legal(Encode(b)) && Pack(Sextets(Encode(b))) == b
    decreases |b|
  {
    hide Group, SextetsOf, Spell;
    if b != [] {
      var first := if |b| <= 3 then b else b[..3];
      SpellsGroup(first);
      SpelledSextets(SextetsOf(first));
      PackBack(first);
      if |b| > 3 {
        PackUndoesEncode(b[3..]);
        SextetsConcat(Group(first), Encode(b[3..]));
        PackGroup(SextetsOf(first), Sextets(Encode(b[3..])));
        assert b == b[..3] + b[3..];
      }
    }
  }

  /** from64tobits undoes both encoders, for one line with or without its line end. */
  lemma {:induction false} GroupsUndoEncode(b: Bytes, end: Bytes)
    requires b != [] && (end == [] || end[0] == CR || end[0] == NUL)
    ensures Groups(Encode(b) + end) == Some(b)
    decreases |b|
  {
    hide Group, SextetsOf, Spell, GroupBytes;
    var first := if |b| <= 3 then b else b[..3];
    var rest := if |b| <= 3 then end else Encode(b[3..]) + end;
    SpellsGroup(first);
    SpelledGroup(SextetsOf(first), rest);
    PackBack(first);
    if |b| > 3 {
      Reassociate(Group(first), Encode(b[3..]), end);
      GroupsUndoEncode(b[3..], end);
      StartsWithDigits(b[3..]);
      assert (Group(first) + rest)[4..] == rest;
      assert b == b[..3] + b[3..];
    }
  }

  lemma StartsWithDigits(b: Bytes)
    requires b != []
    ensures |Encode(b)| >= 4 && Encode(b)[0] != CR && Encode(b)[0] != NUL && Encode(b)[1] != BLANK
  {
    hide Group, SextetsOf, Spell;
    var first := if |b| <= 3 then b else b[..3];
    SpellsGroup(first);
    SpelledGroup(SextetsOf(first), []);
    assert Spell(SextetsOf(first))[0] in Spell(SextetsOf(first));
  }

  lemma StrictUndoesEncode(b: Bytes, end: Bytes)
    requires b != [] && (end == [] || end[0] == CR || end[0] == NUL)
    ensures Strict(Encode(b) + end) == Some(b)
  {
    StartsWithDigits(b);
    GroupsUndoEncode(b, end);
  }

  predicate IsDigit(c: Byte) {
    exists v | 0 <= v < 64 :: Digit(v) == c
  }

  lemma HasValue(c: Byte)
    ensures IsDigit(c) <==> 0 <= Value(c)
  {
    if 0 <= Value(c) {
      ValueExactly(c, Value(c));
    } else {
      forall v | 0 <= v < 64 ensures Digit(v) != c {
        ValueExactly(c, v);
      }
    }
  }

  /** The line begins with `n` groups of digits, in which "=" may stand in the third and the fourth place; only the last
      group ends in "=", or else the line ends behind it. */
  ghost predicate HasGroups(s: Bytes, n: nat) {
    && 0 < n && 4 * n <= |s|
    && (forall i | 0 <= i < 4 * n :: IsDigit(s[i]) || (s[i] == PAD && i % 4 >= 2))
    && (forall i | 0 < i < n :: s[4 * i - 1] != PAD)
    && (s[4 * n - 1] == PAD || 4 * n == |s| || s[4 * n] == CR || s[4 * n] == NUL)
  }

  /** What is accepted: a line end, or whole groups. */
  lemma AcceptedExactly(s: Bytes)
    ensures
      var t := if 2 <= |s| && s[0] == PLUS && s[1] == BLANK then s[2..] else s;
      Strict(s).Some? <==> (t != [] && t[0] == CR) || exists n: nat :: HasGroups(t, n)
  {
    hide Groups, HasGroups, IsDigit;
    var t := if 2 <= |s| && s[0] == PLUS && s[1] == BLANK then s[2..] else s;
    GroupsExactly(t);
  }

  lemma {:induction false} GroupsExactly(s: Bytes)
    ensures Groups(s).Some? <==> exists n: nat :: HasGroups(s, n)
    decreases |s|
  {
    hide IsDigit, GroupBytes, Value;
    LegalExactly(s);
    if GroupLegal(s) {
      LegalGroupIsWhole(s);
      if GroupsEnd(s) {
        assert HasGroups(s, 1);
      } else {
        GroupsExactly(s[4..]);
        forall n: nat | HasGroups(s[4..], n) ensures HasGroups(s, n + 1) {
          OneMoreGroup(s, n);
        }
        forall n: nat | HasGroups(s, n) ensures n > 0 && HasGroups(s[4..], n - 1) {
          OneGroupLess(s, n);
        }
      }
    } else {
      forall n: nat ensures !HasGroups(s, n) {
      }
    }
  }

  lemma LegalExactly(s: Bytes)
    ensures GroupLegal(s) <==> |s| >= 4 && forall i | 0 <= i < 4 :: IsDigit(s[i]) || (s[i] == PAD && i >= 2)
  {
    HasValue(At(s, 0));
    HasValue(At(s, 1));
    HasValue(At(s, 2));
    HasValue(At(s, 3));
    hide IsDigit;
    if |s| >= 4 {
      assert (forall i | 0 <= i < 4 :: IsDigit(s[i]) || (s[i] == PAD && i >= 2)) <==>
        IsDigit(s[0]) && IsDigit(s[1]) && (IsDigit(s[2]) || s[2] == PAD) && (IsDigit(s[3]) || s[3] == PAD);
    }
  }

  lemma OneMoreGroup(s: Bytes, n: nat)
    requires GroupLegal(s) && |s| >= 4 && !GroupsEnd(s) && HasGroups(s[4..], n)
    ensures HasGroups(s, n + 1)
  {
    LegalExactly(s);
    hide IsDigit, Value;
    var r := s[4..];
    forall i | 0 <= i < 4 * (n + 1) ensures IsDigit(s[i]) || (s[i] == PAD && i % 4 >= 2) {
      assert i >= 4 ==> r[i - 4] == s[i];
    }
    forall i | 0 < i < n + 1 ensures s[4 * i - 1] != PAD {
      assert i > 1 ==> r[4 * (i - 1) - 1] == s[4 * i - 1];
    }
    assert r[4 * n - 1] == s[4 * (n + 1) - 1];
  }

  lemma OneGroupLess(s: Bytes, n: nat)
    requires GroupLegal(s) && |s| >= 4 && !GroupsEnd(s) && HasGroups(s, n)
    ensures n > 1 && HasGroups(s[4..], n - 1)
  {
    hide IsDigit, Value, GroupLegal;
    var r := s[4..];
    assert n > 1;
    forall i | 0 <= i < 4 * (n - 1) ensures IsDigit(r[i]) || (r[i] == PAD && i % 4 >= 2) {
      assert r[i] == s[i + 4];
    }
    forall i | 0 < i < n - 1 ensures r[4 * i - 1] != PAD {
      assert r[4 * i - 1] == s[4 * (i + 1) - 1];
    }
    assert r[4 * (n - 1) - 1] == s[4 * n - 1];
  }

  /** An empty line decodes to nothing only if it has its line end. */
  lemma StrictOfNothing()
    ensures Encode([]) == [] && Strict([]) == None && Strict([CR]) == Some([])
  {
  }
}
