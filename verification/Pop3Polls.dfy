/**
  Whole runs of POP3 polls: what the UID bookkeeping is for.
 */
module Pop3Polls {
  import opened IdBits
  import opened UidList
  import opened Pop3Uidl
  import opened CText

  // ----- What is said to the server -----

  /** Exactly the messages judged new and not too large are read, and exactly those that are to go are deleted: old
      ones with flush, oversized ones with limitflush, and delivered ones unless mail is kept. */
  lemma {:induction false} SaidExactly(p: Poll, answers: seq<bool>, k: nat)
    requires |answers| <= |p.outcomes|
    ensures Retr(k) in Said(p, answers) <==> 1 <= k <= |answers| && !Answer(answers, k) && !p.outcomes[k - 1].oversized
    ensures Dele(k) in Said(p, answers) <==>
              1 <= k <= |answers| &&
              if Answer(answers, k) then p.flush
              else if p.outcomes[k - 1].oversized then p.limitflush else p.outcomes[k - 1].accepted && !p.keep
    decreases |answers|
  {
    if answers != [] {
      var n := |answers|;
      SaidExactly(p, answers[..n - 1], k);
      assert 1 <= k < n ==> Answer(answers[..n - 1], k) == Answer(answers, k);
    }
  }

  /** A delivered message is deleted right after it was read. */
  lemma {:induction false} ReadFirst(p: Poll, answers: seq<bool>, i: nat)
    requires |answers| <= |p.outcomes| && i < |Said(p, answers)| && Said(p, answers)[i].Dele?
    ensures
      var k := Said(p, answers)[i].num;
      && 1 <= k <= |answers|
      && (!Answer(answers, k) && !p.outcomes[k - 1].oversized ==>
            i > 0 && Said(p, answers)[i - 1] == Retr(k) && p.outcomes[k - 1].accepted)
    decreases |answers|
  {
    var n := |answers|;
    var before := Said(p, answers[..n - 1]);
    assert Said(p, answers) == before + Saying(p, n, answers[n - 1]);
    if i < |before| {
      ReadFirst(p, answers[..n - 1], i);
      var k := before[i].num;
      assert Answer(answers[..n - 1], k) == Answer(answers, k);
    }
  }

  /** Polls one after the other, each finding the store the one before left. */
  ghost predicate Run(stores: seq<Store>, polls: seq<Poll>, answers: seq<seq<bool>>, lasts: seq<nat>,
                      sent: seq<seq<Command>>) {
    && |stores| == |polls| + 1 && |answers| == |lasts| == |sent| == |polls|
    && (forall i | 0 <= i < |polls| :: PollContract(stores[i], stores[i + 1], polls[i], answers[i], lasts[i]))
    && (forall i | 0 <= i < |polls| :: |answers[i]| <= |polls[i].outcomes| && sent[i] == Said(polls[i], answers[i]))
  }

  method RunPolls(pop3: Pop3, polls: seq<Poll>)
    returns (answers: seq<seq<bool>>, sent: seq<seq<Command>>, ghost stores: seq<Store>, ghost lasts: seq<nat>)
    requires !pop3.dofastuidl && forall i | 0 <= i < |polls| :: PollOk(polls[i])
    modifies pop3
    ensures Run(stores, polls, answers, lasts, sent)
    ensures stores[0] == old(pop3.oldsaved) && stores[|polls|] == pop3.oldsaved
  {
    hide PollOk, Said;
    answers, sent, stores, lasts := [], [], [pop3.oldsaved], [];
    for n := 0 to |polls|
      invariant !pop3.dofastuidl && Run(stores, polls[..n], answers, lasts, sent)
      invariant stores[0] == old(pop3.oldsaved) && stores[n] == pop3.oldsaved
    {
      var a := pop3.RunPoll(polls[n]);
      ContractSize(stores[n], pop3.oldsaved, polls[n], a, pop3.last);
      RunNext(stores, polls[..n], answers, lasts, sent, pop3.oldsaved, polls[n], a, pop3.last, pop3.sent);
      assert polls[..n + 1] == polls[..n] + [polls[n]];
      answers, sent := answers + [a], sent + [pop3.sent];
      stores, lasts := stores + [pop3.oldsaved], lasts + [pop3.last];
    }
    assert polls[..|polls|] == polls;
  }

  lemma ContractSize(s: Store, s': Store, p: Poll, answers: seq<bool>, last: nat)
    requires PollContract(s, s', p, answers, last)
    ensures |answers| <= |p.outcomes|
  {
  }

  lemma RunNext(stores: seq<Store>, polls: seq<Poll>, answers: seq<seq<bool>>, lasts: seq<nat>, sent: seq<seq<Command>>,
                s: Store, p: Poll, a: seq<bool>, last: nat, said: seq<Command>)
    requires Run(stores, polls, answers, lasts, sent) && PollContract(stores[|polls|], s, p, a, last)
    requires |a| <= |p.outcomes| && said == Said(p, a)
    ensures Run(stores + [s], polls + [p], answers + [a], lasts + [last], sent + [said])
  {
    hide PollContract, Said;
  }

  predicate InMailbox(p: Poll, id: Id) {
    exists k :: 1 <= k <= |p.mailbox| && UidOf(p.mailbox, k) == id
  }

  /** A message that was fetched once is judged old, and not read again, by every later poll that comes to it, as
      long as no poll in between found it gone from the mailbox. */
  lemma {:induction false} FetchedOnce(stores: seq<Store>, polls: seq<Poll>, answers: seq<seq<bool>>, lasts: seq<nat>,
                                       sent: seq<seq<Command>>, i: nat, j: nat, k: nat, l: nat)
    requires Run(stores, polls, answers, lasts, sent) && i < j < |polls|
    requires Taken(polls[i], answers[i], k) && k <= |polls[i].mailbox|
    requires 1 <= l <= |answers[j]| <= |polls[j].mailbox| && UidOf(polls[j].mailbox, l) == UidOf(polls[i].mailbox, k)
    requires forall m | i < m < j :: InMailbox(polls[m], UidOf(polls[i].mailbox, k))
    ensures Answer(answers[j], l) && Retr(l) !in sent[j]
  {
    hide MarkedRight, Said;
    var id := UidOf(polls[i].mailbox, k);
    assert PollContract(stores[i], stores[i + 1], polls[i], answers[i], lasts[i]);
    assert Seen(stores[i + 1], id);
    StaysSeen(stores, polls, answers, lasts, sent, i + 1, j, id);
    assert PollContract(stores[j], stores[j + 1], polls[j], answers[j], lasts[j]);
    SaidExactly(polls[j], answers[j], l);
  }

  lemma {:induction false} StaysSeen(stores: seq<Store>, polls: seq<Poll>, answers: seq<seq<bool>>, lasts: seq<nat>,
                                     sent: seq<seq<Command>>, i: nat, j: nat, id: Id)
    requires Run(stores, polls, answers, lasts, sent) && i <= j <= |polls| && Seen(stores[i], id)
    requires forall m | i <= m < j :: InMailbox(polls[m], id)
    ensures Seen(stores[j], id)
  {
    if i < j {
      StaysSeen(stores, polls, answers, lasts, sent, i, j - 1, id);
      assert PollContract(stores[j - 1], stores[j], polls[j - 1], answers[j - 1], lasts[j - 1]);
      assert InMailbox(polls[j - 1], id);
    }
  }

  /** A poll that does not end by taking over a full listing forgets nothing at all. */
  lemma {:induction false} NothingForgotten(stores: seq<Store>, polls: seq<Poll>, answers: seq<seq<bool>>,
                                            lasts: seq<nat>, sent: seq<seq<Command>>, i: nat, j: nat, id: Id)
    requires Run(stores, polls, answers, lasts, sent) && i <= j <= |polls| && Seen(stores[i], id)
    requires forall m | i <= m < j :: !Full(polls[m]) || !polls[m].success
    ensures Seen(stores[j], id)
  {
    if i < j {
      NothingForgotten(stores, polls, answers, lasts, sent, i, j - 1, id);
      assert PollContract(stores[j - 1], stores[j], polls[j - 1], answers[j - 1], lasts[j - 1]);
    }
  }

  /** All messages seen come before all unseen ones. */
  ghost predicate SeenFirst(s: Store, mailbox: seq<Id>) {
    forall i, j | 1 <= i < j <= |mailbox| && Seen(s, UidOf(mailbox, j)) :: Seen(s, UidOf(mailbox, i))
  }

  ghost predicate SameAnswers(a: seq<bool>, b: seq<bool>) {
    forall k | 1 <= k <= |a| && k <= |b| :: Answer(a, k) == Answer(b, k)
  }

  /** Fast UIDL against full UIDL on the same mailbox and store: the answers agree exactly if
      every message up to `last`, where the search ended (and both polls came to), is seen. */
  lemma FastAgainstFull(s: Store, full: Poll, fast: Poll, s1: Store, s2: Store, a: seq<bool>, b: seq<bool>, l: nat,
    last: nat)
    requires PollContract(s, s1, full, a, l) && PollContract(s, s2, fast, b, last)
    requires full.mailbox == fast.mailbox && Full(full) && !Full(fast) && a != [] && b != []
    requires forall k | 0 <= k < |fast.replies| :: fast.replies[k].Some?
    ensures SameAnswers(a, b) <==>
            forall k | 1 <= k <= last && k <= |a| && k <= |b| :: Seen(s, UidOf(full.mailbox, k))
    ensures forall k | 1 <= k <= |a| :: Answer(a, k) <==> Seen(s, UidOf(full.mailbox, k))
    ensures Boundary(s, fast.mailbox, last)
  {
    if forall k | 1 <= k <= last && k <= |a| && k <= |b| :: Seen(s, UidOf(full.mailbox, k)) {
      assert SameAnswers(a, b);
    } else {
      var k :| 1 <= k <= last && k <= |a| && k <= |b| && !Seen(s, UidOf(full.mailbox, k));
      assert Answer(a, k) != Answer(b, k);
    }
  }

  /** In particular, fast UIDL refines full UIDL when new messages come last: both say of every
      message exactly whether its UID was stored as other than unseen. */
  lemma FastRefinesFull(s: Store, full: Poll, fast: Poll, s1: Store, s2: Store, a: seq<bool>, b: seq<bool>, l: nat,
    last: nat)
    requires PollContract(s, s1, full, a, l) && PollContract(s, s2, fast, b, last)
    requires full.mailbox == fast.mailbox && Full(full) && !Full(fast) && a != [] && b != []
    requires forall k | 0 <= k < |fast.replies| :: fast.replies[k].Some?
    requires SeenFirst(s, full.mailbox)
    ensures SameAnswers(a, b)
    ensures forall k | 1 <= k <= |b| :: Answer(b, k) <==> Seen(s, UidOf(full.mailbox, k))
  {
    FastAgainstFull(s, full, fast, s1, s2, a, b, l, last);
  }

  /** The server answers everything and deletes what it is told to, and nothing ends the poll early. */
  ghost predicate Untroubled(p: Poll) {
    Answered(p) && forall k | 0 <= k < |p.outcomes| :: !p.outcomes[k].stop && p.outcomes[k].dele
  }

  /** Such a poll judges every message. */
  lemma JudgesAll(s: Store, s': Store, p: Poll, answers: seq<bool>, last: nat)
    requires PollContract(s, s', p, answers, last) && Untroubled(p)
    ensures |answers| == |p.mailbox|
  {
    var n := |answers|;
    assert n < |p.mailbox| ==> Stops(p, n, Answer(answers, n));
  }

  /** Two whole polls of the same mailbox that give the same answers leave the same messages seen. */
  lemma SameAfter(s: Store, s1: Store, s2: Store, full: Poll, fast: Poll, a: seq<bool>, b: seq<bool>, l: nat, last: nat)
    requires PollContract(s, s1, full, a, l) && PollContract(s, s2, fast, b, last)
    requires full.mailbox == fast.mailbox && full.outcomes == fast.outcomes && full.limitflush == fast.limitflush
    requires a == b
    ensures forall k | 1 <= k <= |full.mailbox| :: Seen(s1, UidOf(full.mailbox, k)) <==>
      Seen(s2, UidOf(full.mailbox, k))
  {
    forall k | 1 <= k <= |full.mailbox|
      ensures Seen(s1, UidOf(full.mailbox, k)) <==> Seen(s2, UidOf(full.mailbox, k))
    {
      assert UidOf(full.mailbox, k) == UidOf(fast.mailbox, k);
      assert Taken(full, a, k) <==> Taken(fast, b, k);
    }
  }

  /** A poll with full and one with fast UIDL, from equal stores: they judge every message alike if and only if all
      messages up to where the search ended were seen, as they are when new messages come last; and then the same
      messages are seen afterwards. */
  method FullAndFast(x: Pop3, y: Pop3, full: Poll, fast: Poll) returns (a: seq<bool>, b: seq<bool>)
    requires x != y && !x.dofastuidl && !y.dofastuidl && x.oldsaved == y.oldsaved
    requires PollOk(full) && PollOk(fast) && Untroubled(full) && Untroubled(fast)
    requires Full(full) && !Full(fast) && full.mailbox == fast.mailbox
    requires full.outcomes == fast.outcomes && full.limitflush == fast.limitflush
    modifies x, y
    ensures |a| == |b| == |full.mailbox|
    ensures a == b <==> forall k | 1 <= k <= y.last && k <= |a| :: Seen(old(x.oldsaved), UidOf(full.mailbox, k))
    ensures SeenFirst(old(x.oldsaved), full.mailbox) ==> a == b
    ensures a == b ==>
              forall k | 1 <= k <= |full.mailbox| ::
                Seen(x.oldsaved, UidOf(full.mailbox, k)) <==> Seen(y.oldsaved, UidOf(full.mailbox, k))
  {
    hide PollContract, PollOk, Untroubled, SeenFirst, SameAnswers, Boundary, Seen;
    ghost var s := x.oldsaved;
    a := x.RunPoll(full);
    b := y.RunPoll(fast);
    JudgesAll(s, x.oldsaved, full, a, x.last);
    JudgesAll(s, y.oldsaved, fast, b, y.last);
    Replied(fast);
    assert full.mailbox != [];
    FastAgainstFull(s, full, fast, x.oldsaved, y.oldsaved, a, b, x.last, y.last);
    SameIsEqual(a, b);
    if SeenFirst(s, full.mailbox) {
      FastRefinesFull(s, full, fast, x.oldsaved, y.oldsaved, a, b, x.last, y.last);
    }
    if a == b {
      SameAfter(s, x.oldsaved, y.oldsaved, full, fast, a, b, x.last, y.last);
    }
  }

  lemma Replied(p: Poll)
    requires Untroubled(p) && !Full(p)
    ensures forall k | 0 <= k < |p.replies| :: p.replies[k].Some?
  {
  }

  lemma SameIsEqual(a: seq<bool>, b: seq<bool>)
    requires |a| == |b|
    ensures SameAnswers(a, b) <==> a == b
  {
    if SameAnswers(a, b) {
      forall i | 0 <= i < |a| ensures a[i] == b[i] {
        assert Answer(a, i + 1) == Answer(b, i + 1);
      }
    }
  }
}
