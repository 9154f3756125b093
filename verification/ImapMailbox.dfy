/**
  An IMAP mailbox as the server keeps it, and what EXPUNGE does to it
  (sections 6.4.3 and 7.4.1 of RFC 2060).
 */
module ImapMailbox {

  /** `uid` identifies a message; its sequence number is its position, from 1. */
  datatype Msg = Msg(uid: nat, size: nat, seen: bool, deleted: bool)

  datatype Untagged = Exists(n: nat) | Expunged(n: nat)

  function CountDeleted(s: seq<Msg>): nat {
    if s == [] then 0 else (if s[0].deleted then 1 else 0) + CountDeleted(s[1..])
  }

  /** What is left when all deleted messages are removed. */
  function Expunge(s: seq<Msg>): seq<Msg> {
    if s == [] then [] else (if s[0].deleted then [] else [s[0]]) + Expunge(s[1..])
  }

  /** What is left when only the first `limit` deleted messages are removed. */
  function ExpungeSome(s: seq<Msg>, limit: nat): seq<Msg> {
    if s == [] || limit == 0 then s
    else if s[0].deleted then ExpungeSome(s[1..], limit - 1)
    else [s[0]] + ExpungeSome(s[1..], limit)
  }

  /** The responses for the first `limit` deleted messages: each gives the sequence number that
      the message has once the ones before are gone.  `before` messages precede `s`. */
  function ExpungeResponses(s: seq<Msg>, before: nat, limit: nat): seq<Untagged> {
    if s == [] || limit == 0 then []
    else if s[0].deleted then [Expunged(before + 1)] + ExpungeResponses(s[1..], before, limit - 1)
    else ExpungeResponses(s[1..], before + 1, limit)
  }

  function RemoveAt(s: seq<Msg>, n: nat): seq<Msg>
    requires 1 <= n <= |s|
  {
    s[..n - 1] + s[n..]
  }

  /** A client that applies the responses one by one, renumbering after each. */
  ghost predicate Applies(s: seq<Msg>, responses: seq<Untagged>, s': seq<Msg>)
    decreases |responses|
  {
    if responses == [] then s' == s
    else responses[0].Expunged? && 1 <= responses[0].n <= |s| && Applies(RemoveAt(s, responses[0].n), responses[1..], s')
  }

  lemma {:induction false} ResponsesApply(a: seq<Msg>, s: seq<Msg>, limit: nat)
    ensures Applies(a + s, ExpungeResponses(s, |a|, limit), a + ExpungeSome(s, limit))
    decreases |s|
  {
    if s != [] && limit > 0 {
      if s[0].deleted {
        ResponsesApply(a, s[1..], limit - 1);
        FirstGone(a, s);
        AppliesStep(a + s, |a| + 1, ExpungeResponses(s[1..], |a|, limit - 1), a + ExpungeSome(s[1..], limit - 1));
      } else {
        ResponsesApply(a + [s[0]], s[1..], limit);
        Shift(a, s);
        ShiftSome(a, s, limit);
      }
    }
  }

  lemma AppliesStep(s: seq<Msg>, n: nat, rest: seq<Untagged>, s': seq<Msg>)
    requires 1 <= n <= |s| && Applies(RemoveAt(s, n), rest, s')
    ensures Applies(s, [Expunged(n)] + rest, s')
  {
    assert ([Expunged(n)] + rest)[1..] == rest;
  }

  lemma FirstGone(a: seq<Msg>, s: seq<Msg>)
    requires s != []
    ensures RemoveAt(a + s, |a| + 1) == a + s[1..]
  {
  }

  lemma Shift(a: seq<Msg>, s: seq<Msg>)
    requires s != []
    ensures a + [s[0]] + s[1..] == a + s
  {
  }

  lemma ShiftSome(a: seq<Msg>, s: seq<Msg>, limit: nat)
    requires s != [] && !s[0].deleted && limit > 0
    ensures a + [s[0]] + ExpungeSome(s[1..], limit) == a + ExpungeSome(s, limit)
  {
  }

  /** Renumbering by the responses of a complete EXPUNGE yields exactly the mailbox without
      its deleted messages. */
  lemma ExpungeRenumbers(s: seq<Msg>)
    ensures Applies(s, ExpungeResponses(s, 0, CountDeleted(s)), Expunge(s))
    ensures |ExpungeResponses(s, 0, CountDeleted(s))| == CountDeleted(s) == |s| - |Expunge(s)|
  {
    ResponsesApply([], s, CountDeleted(s));
    assert [] + s == s;
    SomeIsAll(s, CountDeleted(s));
    assert [] + Expunge(s) == Expunge(s);
    ResponseCount(s, 0, CountDeleted(s));
  }

  lemma {:induction false} SomeIsAll(s: seq<Msg>, limit: nat)
    requires limit >= CountDeleted(s)
    ensures ExpungeSome(s, limit) == Expunge(s)
  {
    if s != [] {
      if s[0].deleted {
        SomeIsAll(s[1..], limit - 1);
      } else if limit == 0 {
        SomeIsAll(s[1..], 0);
        assert s == [s[0]] + s[1..];
      } else {
        SomeIsAll(s[1..], limit);
      }
    }
  }

  lemma {:induction false} ResponseCount(s: seq<Msg>, before: nat, limit: nat)
    ensures |ExpungeSome(s, limit)| == |s| - |ExpungeResponses(s, before, limit)|
    ensures |ExpungeResponses(s, before, limit)| == if limit < CountDeleted(s) then limit else CountDeleted(s)
    ensures forall i | 0 <= i < |ExpungeResponses(s, before, limit)| ::
              ExpungeResponses(s, before, limit)[i].Expunged? && ExpungeResponses(s, before, limit)[i].n > 0
    decreases |s|
  {
    if s != [] && limit > 0 {
      if s[0].deleted {
        ResponseCount(s[1..], before, limit - 1);
      } else {
        ResponseCount(s[1..], before + 1, limit);
      }
    }
  }

  lemma {:induction false} ExpungeConcat(a: seq<Msg>, b: seq<Msg>)
    ensures Expunge(a + b) == Expunge(a) + Expunge(b)
    ensures CountDeleted(a + b) == CountDeleted(a) + CountDeleted(b)
  {
    if a == [] {
      assert a + b == b;
    } else {
      ExpungeConcat(a[1..], b);
      assert (a + b)[1..] == a[1..] + b && (a + b)[0] == a[0];
      var first := if a[0].deleted then [] else [a[0]];
      assert first + (Expunge(a[1..]) + Expunge(b)) == first + Expunge(a[1..]) + Expunge(b);
    }
  }

  lemma {:induction false} NothingToExpunge(s: seq<Msg>)
    requires CountDeleted(s) == 0
    ensures Expunge(s) == s && forall i | 0 <= i < |s| :: !s[i].deleted
  {
    if s != [] {
      NothingToExpunge(s[1..]);
      assert s == [s[0]] + s[1..];
    }
  }

  lemma {:induction false} ExpungeSize(s: seq<Msg>)
    ensures |Expunge(s)| == |s| - CountDeleted(s) && CountDeleted(Expunge(s)) == 0
  {
    if s != [] {
      ExpungeSize(s[1..]);
      ExpungeConcat(if s[0].deleted then [] else [s[0]], Expunge(s[1..]));
    }
  }

  /** Only deleted messages go. */
  lemma {:induction false} ExpungeSomeKeeps(s: seq<Msg>, limit: nat)
    ensures forall m | m in s && !m.deleted :: m in ExpungeSome(s, limit)
    ensures forall m | m in ExpungeSome(s, limit) :: m in s
    decreases |s|
  {
    if s != [] && limit > 0 {
      ExpungeSomeKeeps(s[1..], if s[0].deleted then limit - 1 else limit);
    }
  }

  /** One more message flagged. */
  lemma {:induction false} CountAfterFlag(s: seq<Msg>, i: nat)
    requires i < |s|
    ensures CountDeleted(s[i := s[i].(deleted := true, seen := true)]) == CountDeleted(s) + if s[i].deleted then 0
      else 1
  {
    var s' := s[i := s[i].(deleted := true, seen := true)];
    if i == 0 {
      assert s'[1..] == s[1..];
    } else {
      CountAfterFlag(s[1..], i - 1);
      assert s'[1..] == s[1..][i - 1 := s[i].(deleted := true, seen := true)];
    }
  }

  // ----- Unique identifiers, which the server assigns in ascending order -----

  /** Ascending from `low` on: no two messages have the same identifier. */
  predicate Ascending(s: seq<Msg>, low: nat) {
    s == [] || (low <= s[0].uid && Ascending(s[1..], s[0].uid + 1))
  }

  predicate Below(s: seq<Msg>, bound: nat) {
    forall m | m in s :: m.uid < bound
  }

  lemma {:induction false} AscendingFromLower(s: seq<Msg>, low: nat, lower: nat)
    requires Ascending(s, low) && lower <= low
    ensures Ascending(s, lower)
  {
  }

  lemma {:induction false} AscendingAbove(s: seq<Msg>, low: nat)
    requires Ascending(s, low)
    ensures forall m | m in s :: low <= m.uid
  {
    if s != [] {
      AscendingAbove(s[1..], s[0].uid + 1);
    }
  }

  lemma {:induction false} AscendingAppend(s: seq<Msg>, t: seq<Msg>, low: nat, bound: nat)
    requires Ascending(s, low) && Below(s, bound) && Ascending(t, bound) && low <= bound
    ensures Ascending(s + t, low)
  {
    if s == [] {
      assert s + t == t;
      AscendingFromLower(t, bound, low);
    } else {
      assert (s + t)[1..] == s[1..] + t;
      assert s[0] in s;
      AscendingAppend(s[1..], t, s[0].uid + 1, bound);
    }
  }

  lemma {:induction false} AscendingExpunge(s: seq<Msg>, low: nat, limit: nat)
    requires Ascending(s, low)
    ensures Ascending(ExpungeSome(s, limit), low)
    decreases |s|
  {
    if s != [] && limit > 0 {
      if s[0].deleted {
        AscendingExpunge(s[1..], s[0].uid + 1, limit - 1);
        AscendingFromLower(ExpungeSome(s[1..], limit - 1), s[0].uid + 1, low);
      } else {
        AscendingExpunge(s[1..], s[0].uid + 1, limit);
        assert ExpungeSome(s, limit)[1..] == ExpungeSome(s[1..], limit);
      }
    }
  }

  lemma {:induction false} AscendingUpdate(s: seq<Msg>, low: nat, i: nat, m: Msg)
    requires Ascending(s, low) && i < |s| && m.uid == s[i].uid
    ensures Ascending(s[i := m], low)
  {
    if i == 0 {
      assert s[i := m][1..] == s[1..];
    } else {
      AscendingUpdate(s[1..], s[0].uid + 1, i - 1, m);
      assert s[i := m][1..] == s[1..][i - 1 := m];
    }
  }

  /** Messages with the same identifier are the same message. */
  lemma {:induction false} OnePerUid(s: seq<Msg>, low: nat, m: Msg, n: Msg)
    requires Ascending(s, low) && m in s && n in s && m.uid == n.uid
    ensures m == n
  {
    AscendingAbove(s[1..], s[0].uid + 1);
    if s[0] != m && s[0] != n {
      OnePerUid(s[1..], s[0].uid + 1, m, n);
    }
  }
}
