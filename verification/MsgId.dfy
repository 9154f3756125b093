/**
  rfc822valid.c: a recogniser for message ids, and the grammar it recognises.  The
  grammar is stated on ranges of one string: a predicate on (s, lo, hi) says that
  s[lo..hi] derives from the symbol it is named after (sections 3.3 and 6.1 of RFC 822).
 */
module MsgId {
  import opened CText

  predicate CString(s: string) {
    '\0' !in s
  }

  // ----- Characters -----

  const SIGNS := "!#$%&'*+-/"
  const DIGITS := "0123456789"
  const CAPITALS := "ABCDEFGHIJKLMNOPQRSTUVWXYZ"
  const SMALL := "abcdefghijklmnopqrstuvwxyz"

  /** atomchar */
  const ATOMCHARS := SIGNS + DIGITS + "=?" + CAPITALS + "^_`" + SMALL + "{|}~"

  predicate AtomChar(c: char) {
    c in ATOMCHARS
  }

  /** CHAR except specials, SPACE and CTLs. */
  predicate RfcAtomChar(c: char) {
    ' ' < c <= '~' && c !in "()<>@,;:\\\".[]"
  }

  predicate QText(c: char) {
    c as int <= 127 && c != '"' && c != '\\' && c != '\r' && c != '\0'
  }

  predicate DText(c: char) {
    c as int <= 127 && c != '[' && c != ']' && c != '\\' && c != '\r' && c != '\0'
  }

  // ----- The grammar -----

  predicate QuotedPair(s: string, lo: nat, hi: nat)
    requires lo <= hi <= |s|
  {
    hi == lo + 2 && s[lo] == '\\' && 0 < s[lo + 1] as int <= 127
  }

  /** *(qtext / quoted-pair) */
  predicate QContent(s: string, lo: nat, hi: nat)
    requires lo <= hi <= |s|
    decreases hi - lo
  {
    || lo == hi
    || (QText(s[lo]) && QContent(s, lo + 1, hi))
    || (lo + 2 <= hi && QuotedPair(s, lo, lo + 2) && QContent(s, lo + 2, hi))
  }

  predicate QuotedString(s: string, lo: nat, hi: nat)
    requires lo <= hi <= |s|
  {
    lo + 2 <= hi && s[lo] == '"' && QContent(s, lo + 1, hi - 1) && s[hi - 1] == '"'
  }

  /** *(dtext / quoted-pair) */
  predicate DContent(s: string, lo: nat, hi: nat)
    requires lo <= hi <= |s|
    decreases hi - lo
  {
    || lo == hi
    || (DText(s[lo]) && DContent(s, lo + 1, hi))
    || (lo + 2 <= hi && QuotedPair(s, lo, lo + 2) && DContent(s, lo + 2, hi))
  }

  predicate DomainLiteral(s: string, lo: nat, hi: nat)
    requires lo <= hi <= |s|
  {
    lo + 2 <= hi && s[lo] == '[' && DContent(s, lo + 1, hi - 1) && s[hi - 1] == ']'
  }

  predicate Atom(s: string, lo: nat, hi: nat)
    requires lo <= hi <= |s|
  {
    lo < hi && forall i | lo <= i < hi :: AtomChar(s[i])
  }

  predicate Word(s: string, lo: nat, hi: nat)
    requires lo <= hi <= |s|
  {
    Atom(s, lo, hi) || QuotedString(s, lo, hi)
  }

  predicate SubDomain(s: string, lo: nat, hi: nat)
    requires lo <= hi <= |s|
  {
    Atom(s, lo, hi) || DomainLiteral(s, lo, hi)
  }

  /** word *("." word) */
  predicate LocalPart(s: string, lo: nat, hi: nat)
    requires lo <= hi <= |s|
    decreases hi - lo
  {
    Word(s, lo, hi) || exists i | lo <= i < hi :: Word(s, lo, i) && s[i] == '.' && LocalPart(s, i + 1, hi)
  }

  /** sub-domain *("." sub-domain) */
  predicate Domain(s: string, lo: nat, hi: nat)
    requires lo <= hi <= |s|
    decreases hi - lo
  {
    SubDomain(s, lo, hi) || exists i | lo <= i < hi :: SubDomain(s, lo, i) && s[i] == '.' && Domain(s, i + 1, hi)
  }

  /** "<" local-part "@" domain ">", with the "@" at `at` */
  predicate Divided(s: string, at: nat, hi: nat)
    requires hi <= |s|
  {
    && 0 < at && at + 1 < hi && s[0] == '<' && s[at] == '@' && s[hi - 1] == '>'
    && LocalPart(s, 1, at) && Domain(s, at + 1, hi - 1)
  }

  /** s[..hi] is a message id. */
  predicate MessageId(s: string, hi: nat)
    requires hi <= |s|
  {
    exists at | 0 <= at < hi :: Divided(s, at, hi)
  }

  lemma SignChars(c: char)
    ensures c in SIGNS <==> c == '!' || '#' <= c <= '\'' || '*' <= c <= '+' || c == '-' || c == '/'
  {
  }

  lemma DigitChars(c: char)
    ensures c in DIGITS <==> '0' <= c <= '9'
  {
  }

  lemma CapitalChars(c: char)
    ensures c in CAPITALS <==> 'A' <= c <= 'Z'
  {
  }

  lemma SmallChars(c: char)
    ensures c in SMALL <==> 'a' <= c <= 'z'
  {
  }

  /** The characters listed in the source are those that RFC 822 allows. */
  lemma AtomCharacters(c: char)
    ensures AtomChar(c) <==> RfcAtomChar(c)
  {
    hide SIGNS, DIGITS, CAPITALS, SMALL;
    SignChars(c);
    DigitChars(c);
    CapitalChars(c);
    SmallChars(c);
  }

  lemma NotAtomic()
    ensures !AtomChar('\0') && !AtomChar('.') && !AtomChar('@') && !AtomChar('>') && !AtomChar('"') && !AtomChar('[')
  {
    hide AtomChar;
    AtomCharacters('\0');
    AtomCharacters('.');
    AtomCharacters('@');
    AtomCharacters('>');
    AtomCharacters('"');
    AtomCharacters('[');
  }

  // ----- The recogniser -----

  method ScanQuotedPair(s: string, from: nat) returns (ok: bool, x: nat)
    requires CString(s) && from <= |s|
    ensures from <= x <= |s|
    ensures ok <==> from + 2 <= |s| && QuotedPair(s, from, from + 2)
    ensures ok ==> x == from + 2
  {
    x := from;
    if At(s, x) != '\\' {
      return false, x;
    }
    x := x + 1;
    if At(s, x) as int > 127 || At(s, x) == '\0' {
      return false, x;
    }
    return true, x + 1;
  }

  /** Accepts the one quoted string that begins here, if there is one. */
  method ScanQuotedString(s: string, from: nat) returns (ok: bool, x: nat)
    requires CString(s) && from <= |s|
    ensures from <= x <= |s|
    ensures ok ==> QuotedString(s, from, x)
    ensures forall y | from <= y <= |s| && QuotedString(s, from, y) :: ok && x == y
  {
    x := from;
    if At(s, x) != '"' {
      return false, x;
    }
    x := x + 1;
    ghost var start := x;
    while true
      invariant from < start <= x <= |s|
      invariant forall y | x <= y <= |s| :: QContent(s, start, y) <==> QContent(s, x, y)
      invariant forall y | start <= y < x && s[y] == '"' :: !QContent(s, start, y)
      decreases |s| - x
    {
      match At(s, x)
      case '"' =>
        assert QContent(s, x, x);
        assert forall y | x < y <= |s| :: !QContent(s, x, y);
        return true, x + 1;
      case '\\' =>
        ok, x := ScanQuotedPair(s, x);
        if !ok {
          return;
        }
      case '\r' => return false, x;
      case '\0' => return false, x;
      case c =>
        if c as int >= 128 {
          return false, x;
        }
        x := x + 1;
    }
  }

  /** Accepts the one domain literal that begins here, if there is one. */
  method ScanDomainLiteral(s: string, from: nat) returns (ok: bool, x: nat)
    requires CString(s) && from <= |s|
    ensures from <= x <= |s|
    ensures ok ==> DomainLiteral(s, from, x)
    ensures forall y | from <= y <= |s| && DomainLiteral(s, from, y) :: ok && x == y
  {
    x := from;
    if At(s, x) != '[' {
      return false, x;
    }
    x := x + 1;
    ghost var start := x;
    while true
      invariant from < start <= x <= |s|
      invariant forall y | x <= y <= |s| :: DContent(s, start, y) <==> DContent(s, x, y)
      invariant forall y | start <= y < x && s[y] == ']' :: !DContent(s, start, y)
      decreases |s| - x
    {
      match At(s, x)
      case '\0' => return false, x;
      case '\r' => return false, x;
      case '[' => return false, x;
      case ']' =>
        assert DContent(s, x, x);
        assert forall y | x < y <= |s| :: !DContent(s, x, y);
        return true, x + 1;
      case '\\' =>
        ok, x := ScanQuotedPair(s, x);
        if !ok {
          return;
        }
      case c =>
        if c as int > 127 {
          return false, x;
        }
        x := x + 1;
    }
  }

  /** The character at `y`, if any, could not continue an atom. */
  predicate Stops(s: string, y: nat) {
    !AtomChar(At(s, y))
  }

  /** strspn(s + from, atomchar) */
  method Span(s: string, from: nat) returns (x: nat)
    requires CString(s) && from <= |s|
    ensures from <= x <= |s| && Stops(s, x) && forall i | from <= i < x :: AtomChar(s[i])
  {
    hide AtomChar;
    NotAtomic();
    x := from;
    while x < |s| && AtomChar(s[x])
      invariant from <= x <= |s| && forall i | from <= i < x :: AtomChar(s[i])
    {
      x := x + 1;
    }
  }

  /** Takes the longest atom; strchr finds the terminating NUL too, so at the end it succeeds on nothing. */
  method ScanAtom(s: string, from: nat) returns (ok: bool, x: nat)
    requires CString(s) && from <= |s|
    ensures from <= x <= |s|
    ensures ok ==> Atom(s, from, x) || x == from == |s|
    ensures forall y | from <= y <= |s| && Atom(s, from, y) && Stops(s, y) :: ok && x == y
  {
    hide AtomChar;
    x := from;
    if from == |s| || AtomChar(s[from]) {
      x := Span(s, from);
      return true, x;
    }
    return false, x;
  }

  method ScanWord(s: string, from: nat) returns (ok: bool, x: nat)
    requires CString(s) && from <= |s|
    ensures from <= x <= |s|
    ensures ok ==> Word(s, from, x) || x == from == |s|
    ensures forall y | from <= y <= |s| && Word(s, from, y) && Stops(s, y) :: ok && x == y
  {
    hide AtomChar;
    NotAtomic();
    if At(s, from) == '"' {
      ok, x := ScanQuotedString(s, from);
    } else {
      ok, x := ScanAtom(s, from);
    }
  }

  method ScanSubDomain(s: string, from: nat) returns (ok: bool, x: nat)
    requires CString(s) && from <= |s|
    ensures from <= x <= |s|
    ensures ok ==> SubDomain(s, from, x) || x == from == |s|
    ensures forall y | from <= y <= |s| && SubDomain(s, from, y) && Stops(s, y) :: ok && x == y
  {
    hide AtomChar;
    NotAtomic();
    if At(s, from) == '[' {
      ok, x := ScanDomainLiteral(s, from);
    } else {
      ok, x := ScanAtom(s, from);
    }
  }

  /** The first loop: accepts exactly when some local part is followed by "@", and then stops there. */
  method ScanLocalPart(s: string, start: nat) returns (ok: bool, x: nat)
    requires CString(s) && start <= |s|
    ensures ok ==> start <= x < |s| && s[x] == '@' && LocalPart(s, start, x)
    ensures forall y | start <= y < |s| && s[y] == '@' && LocalPart(s, start, y) :: ok && x == y
  {
    hide AtomChar, Word;
    NotAtomic();
    x := start;
    while true
      invariant start <= x <= |s|
      invariant forall y | x <= y <= |s| && LocalPart(s, x, y) :: LocalPart(s, start, y)
      invariant forall y | start <= y < |s| && s[y] == '@' && LocalPart(s, start, y) :: x <= y && LocalPart(s, x, y)
      decreases |s| - x
    {
      ok, x := ScanWord(s, x);
      if !ok {
        return false, x;
      }
      if At(s, x) == '.' {
        x := x + 1;
        continue;
      }
      if At(s, x) == '@' {
        return true, x;
      }
      return false, x;
    }
  }

  /** The second loop: accepts exactly when some domain is followed by ">", and then stops there. */
  method ScanDomain(s: string, start: nat) returns (ok: bool, x: nat)
    requires CString(s) && start <= |s|
    ensures ok ==> start <= x < |s| && s[x] == '>' && Domain(s, start, x)
    ensures forall y | start <= y < |s| && s[y] == '>' && Domain(s, start, y) :: ok && x == y
  {
    hide AtomChar, SubDomain;
    NotAtomic();
    x := start;
    while true
      invariant start <= x <= |s|
      invariant forall y | x <= y <= |s| && Domain(s, x, y) :: Domain(s, start, y)
      invariant forall y | start <= y < |s| && s[y] == '>' && Domain(s, start, y) :: x <= y && Domain(s, x, y)
      decreases |s| - x
    {
      ok, x := ScanSubDomain(s, x);
      if !ok {
        return false, x;
      }
      if At(s, x) == '.' {
        x := x + 1;
        continue;
      }
      if At(s, x) == '>' {
        return true, x;
      }
      return false, x;
    }
  }

  /** Accepts exactly the strings with a prefix that is a message id; no string has two. */
  method ValidMsgId(s: string) returns (valid: bool)
    requires CString(s)
    ensures valid <==> exists hi | 0 <= hi <= |s| :: MessageId(s, hi)
    ensures forall m, n | 0 <= m <= |s| && 0 <= n <= |s| && MessageId(s, m) && MessageId(s, n) :: m == n
  {
    hide CString, LocalPart, Domain;
    if At(s, 0) != '<' {
      return false;
    }
    var ok, x := ScanLocalPart(s, 1);
    if !ok {
      return false;
    }
    ghost var at := x;
    x := x + 1;
    ok, x := ScanDomain(s, x);
    if !ok {
      return false;
    }
    assert Divided(s, at, x + 1);
    assert MessageId(s, x + 1);
    return true;
  }
}
