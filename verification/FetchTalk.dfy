/**
  What is said to an IMAP server about each message: the commands sent, and which of them may
  follow on which.
 */
module FetchTalk {
  import opened ImapMailbox
  import opened ImapSession

  /** The commands sent about message `num`, in order. */
  function About(sent: seq<Command>, num: nat): seq<Verb>
    decreases |sent|
  {
    if sent == [] then []
    else
      var last := sent[|sent| - 1];
      About(sent[..|sent| - 1], num) + if last.num == num then [last.verb] else []
  }

  /** The messages the server was told to flag as deleted. */
  ghost function Told(sent: seq<Command>): set<nat> {
    set c | c in sent && c.verb == StoreDeleted :: c.target
  }

  /** The commands `vs` were added, all about message `num`. */
  ghost predicate Adds(before: seq<Command>, after: seq<Command>, num: nat, vs: seq<Verb>) {
    forall k: nat :: About(after, k) == About(before, k) + if k == num then vs else []
  }

  lemma AddsNone(sent: seq<Command>, num: nat)
    ensures Adds(sent, sent, num, [])
  {
  }

  lemma AddsOne(sent: seq<Command>, c: Command)
    ensures Adds(sent, sent + [c], c.num, [c.verb])
    ensures Told(sent + [c]) == Told(sent) + if c.verb == StoreDeleted then {c.target} else {}
  {
    assert (sent + [c])[..|sent|] == sent;
  }

  lemma AddsMore(a: seq<Command>, b: seq<Command>, c: seq<Command>, num: nat, vs: seq<Verb>, ws: seq<Verb>)
    requires Adds(a, b, num, vs) && Adds(b, c, num, ws)
    ensures Adds(a, c, num, vs + ws)
  {
    forall k: nat ensures About(c, k) == About(a, k) + if k == num then vs + ws else [] {
      assert About(b, k) == About(a, k) + if k == num then vs else [];
    }
  }

  /** A command sent is among those about its message. */
  lemma {:induction false} SentAbout(sent: seq<Command>, c: Command)
    requires c in sent
    ensures c.verb in About(sent, c.num)
    decreases |sent|
  {
    var n := |sent| - 1;
    if sent[n] != c {
      assert c in sent[..n];
      SentAbout(sent[..n], c);
    }
  }
}
