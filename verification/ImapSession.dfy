/**
  The client side of an IMAP session (imap.c): counters kept up to date by untagged
  responses, message numbers translated by `expunged`, and expunges every few deletions.
  The server is part of the model; what it may do freely (fail, stop half-way, take in
  new mail) is in the replies.
 */
module ImapSession {
  import opened ImapMailbox

  const PS_SUCCESS: int := 0
  const PS_ERROR: int := 7
  const PS_MAXFETCH: int := 13
  const PS_TRANSIENT: int := 24
  const PS_REFUSED: int := 25
  const PS_RETAINED: int := 26

  datatype Verb = FetchHeaders | FetchBody | StoreDeleted | StoreSeen

  /** A command sent: for message `num` of the driver, with sequence number `seqno`, which
      the server took to mean the message `target`. */
  datatype Command = Command(verb: Verb, num: nat, seqno: int, target: nat)

  /** How a command went: the status read from the tagged response; how much the server had
      done if that is not success; and the sizes of mail that arrived meanwhile. */
  datatype Reply = Reply(status: int, done: nat, arrivals: seq<nat>)

  function NewMail(uid: nat, sizes: seq<nat>): seq<Msg>
    decreases |sizes|
  {
    if sizes == [] then [] else [Msg(uid, sizes[0], false, false)] + NewMail(uid + 1, sizes[1..])
  }

  lemma {:induction false} NewMailFacts(uid: nat, sizes: seq<nat>)
    ensures |NewMail(uid, sizes)| == |sizes| && CountDeleted(NewMail(uid, sizes)) == 0
    ensures NoneDeleted(NewMail(uid, sizes))
    ensures Ascending(NewMail(uid, sizes), uid) && Below(NewMail(uid, sizes), uid + |sizes|)
    decreases |sizes|
  {
    if sizes != [] {
      NewMailFacts(uid + 1, sizes[1..]);
    }
  }

  /** Before the driver handles message `num` of the messages `orig` it began with: messages
      from `num` on are still there, at their number less `expunged`, unchanged but for \Seen;
      before them at least `deletions` messages are flagged as deleted. */
  ghost predicate InSync(mailbox: seq<Msg>, orig: seq<Msg>, num: nat, expunged: nat, deletions: nat) {
    && 1 <= num <= |orig| + 1 && expunged < num && |mailbox| + expunged >= |orig|
    && (forall k | num <= k <= |orig| :: SameMsg(At(mailbox, k - expunged), At(orig, k)))
    && CountDeleted(mailbox[..num - 1 - expunged]) >= deletions
  }

  /** The message with a sequence number. */
  function At(mailbox: seq<Msg>, seqno: int): Msg
    requires 1 <= seqno <= |mailbox|
  {
    mailbox[seqno - 1]
  }

  predicate SameMsg(m: Msg, o: Msg) {
    m.uid == o.uid && m.size == o.size && m.deleted == o.deleted
  }

  /** New mail does not disturb the numbering. */
  lemma SyncArrive(mailbox: seq<Msg>, more: seq<Msg>, orig: seq<Msg>, num: nat, expunged: nat, deletions: nat)
    requires InSync(mailbox, orig, num, expunged, deletions)
    ensures InSync(mailbox + more, orig, num, expunged, deletions)
  {
    assert (mailbox + more)[..num - 1 - expunged] == mailbox[..num - 1 - expunged];
    forall k | num <= k <= |orig| ensures SameMsg(At(mailbox + more, k - expunged), At(orig, k)) {
      assert SameMsg(At(mailbox, k - expunged), At(orig, k));
    }
  }

  /** Flagging message `num` as deleted. */
  lemma SyncFlag(mailbox: seq<Msg>, orig: seq<Msg>, num: nat, expunged: nat, deletions: nat)
    requires InSync(mailbox, orig, num, expunged, deletions) && num <= |orig|
    ensures var i := num - expunged - 1;
            && 0 <= i < |mailbox|
            && InSync(mailbox[i := mailbox[i].(deleted := true, seen := true)], orig, num + 1, expunged, deletions + 1)
  {
    var i := num - expunged - 1;
    var flagged := mailbox[i].(deleted := true, seen := true);
    var mailbox' := mailbox[i := flagged];
    assert mailbox'[..i + 1] == mailbox[..i] + [flagged];
    ExpungeConcat(mailbox[..i], [flagged]);
    forall k | num < k <= |orig| ensures SameMsg(At(mailbox', k - expunged), At(orig, k)) {
      assert SameMsg(At(mailbox, k - expunged), At(orig, k));
    }
  }

  /** Going on to the next message; the flags of the current one do not matter. */
  lemma SyncNext(mailbox: seq<Msg>, orig: seq<Msg>, num: nat, expunged: nat, deletions: nat)
    requires InSync(mailbox, orig, num, expunged, deletions) && num <= |orig|
    ensures InSync(mailbox, orig, num + 1, expunged, deletions)
  {
    var i := num - expunged - 1;
    assert mailbox[..i + 1] == mailbox[..i] + [mailbox[i]];
    ExpungeConcat(mailbox[..i], [mailbox[i]]);
  }

  /** An expunge that removes as many messages as the client had deleted keeps client and
      server in step. */
  lemma SyncExpunge(mailbox: seq<Msg>, orig: seq<Msg>, num: nat, expunged: nat, deletions: nat)
    requires InSync(mailbox, orig, num, expunged, deletions) && CountDeleted(mailbox) == deletions
    ensures InSync(Expunge(mailbox), orig, num, expunged + deletions, 0)
  {
    var i := num - 1 - expunged;
    var a, b := mailbox[..i], mailbox[i..];
    assert mailbox == a + b;
    ExpungeConcat(a, b);
    NothingToExpunge(b);
    ExpungeSize(a);
    var mailbox' := Expunge(mailbox);
    assert mailbox' == Expunge(a) + b;
    forall k | num <= k <= |orig| ensures SameMsg(At(mailbox', k - expunged - deletions), At(orig, k)) {
      assert SameMsg(At(mailbox, k - expunged), At(orig, k));
    }
    assert mailbox'[..num - 1 - expunged - deletions] == Expunge(a);
  }

  /** Messages of `orig` are there or may be gone, and only those that may go are flagged. */
  ghost predicate Safe(mailbox: seq<Msg>, orig: seq<Msg>, mayGo: set<nat>) {
    && (forall o | o in orig :: o.uid in mayGo || Present(mailbox, o.uid))
    && (forall m | m in mailbox && m.deleted :: m.uid in mayGo)
  }

  predicate Present(mailbox: seq<Msg>, uid: nat) {
    mailbox != [] && (mailbox[0].uid == uid || Present(mailbox[1..], uid))
  }

  lemma {:induction false} PresentAt(mailbox: seq<Msg>, m: Msg)
    requires m in mailbox
    ensures Present(mailbox, m.uid)
  {
    if mailbox[0] != m {
      PresentAt(mailbox[1..], m);
    }
  }

  lemma {:induction false} PresentIs(mailbox: seq<Msg>, uid: nat) returns (m: Msg)
    requires Present(mailbox, uid)
    ensures m in mailbox && m.uid == uid
  {
    if mailbox[0].uid == uid {
      m := mailbox[0];
    } else {
      m := PresentIs(mailbox[1..], uid);
    }
  }

  lemma {:induction false} PresentAppend(mailbox: seq<Msg>, more: seq<Msg>, uid: nat)
    requires Present(mailbox, uid)
    ensures Present(mailbox + more, uid)
  {
    assert (mailbox + more)[1..] == mailbox[1..] + more;
    if mailbox[0].uid != uid {
      PresentAppend(mailbox[1..], more, uid);
    }
  }

  lemma {:induction false} PresentUpdate(mailbox: seq<Msg>, i: nat, m: Msg, uid: nat)
    requires i < |mailbox| && m.uid == mailbox[i].uid && Present(mailbox, uid)
    ensures Present(mailbox[i := m], uid)
  {
    if mailbox[0].uid != uid && i > 0 {
      assert mailbox[i := m][1..] == mailbox[1..][i - 1 := m];
      PresentUpdate(mailbox[1..], i - 1, m, uid);
    } else if mailbox[0].uid != uid {
      assert mailbox[i := m][1..] == mailbox[1..];
    }
  }

  predicate HasFlagged(mailbox: seq<Msg>, uid: nat) {
    mailbox != [] && ((mailbox[0].uid == uid && mailbox[0].deleted) || HasFlagged(mailbox[1..], uid))
  }

  lemma {:induction false} HasFlaggedAt(mailbox: seq<Msg>, m: Msg)
    requires m in mailbox && m.deleted
    ensures HasFlagged(mailbox, m.uid)
  {
    if mailbox[0] != m {
      HasFlaggedAt(mailbox[1..], m);
    }
  }

  lemma {:induction false} FlaggedPresent(mailbox: seq<Msg>, uid: nat)
    requires HasFlagged(mailbox, uid)
    ensures Present(mailbox, uid)
  {
    if mailbox[0].uid != uid {
      FlaggedPresent(mailbox[1..], uid);
    }
  }

  lemma {:induction false} FlaggedAppend(mailbox: seq<Msg>, more: seq<Msg>, uid: nat)
    requires HasFlagged(mailbox, uid)
    ensures HasFlagged(mailbox + more, uid)
  {
    assert (mailbox + more)[1..] == mailbox[1..] + more;
    if !(mailbox[0].uid == uid && mailbox[0].deleted) {
      FlaggedAppend(mailbox[1..], more, uid);
    }
  }

  /** Setting flags. */
  lemma {:induction false} FlaggedUpdate(mailbox: seq<Msg>, i: nat, m: Msg, uid: nat)
    requires i < |mailbox| && m.uid == mailbox[i].uid && (mailbox[i].deleted ==> m.deleted) && HasFlagged(mailbox, uid)
    ensures HasFlagged(mailbox[i := m], uid)
  {
    if i == 0 {
      assert mailbox[i := m][1..] == mailbox[1..];
    } else {
      assert mailbox[i := m][1..] == mailbox[1..][i - 1 := m];
      if !(mailbox[0].uid == uid && mailbox[0].deleted) {
        FlaggedUpdate(mailbox[1..], i - 1, m, uid);
      }
    }
  }

  lemma {:induction false} NotPresentAbove(mailbox: seq<Msg>, low: nat, uid: nat)
    requires Ascending(mailbox, low) && uid < low
    ensures !Present(mailbox, uid)
  {
    if mailbox != [] {
      NotPresentAbove(mailbox[1..], mailbox[0].uid + 1, uid);
    }
  }

  /** A complete EXPUNGE takes what is flagged. */
  lemma {:induction false} FlaggedGoes(mailbox: seq<Msg>, low: nat, uid: nat)
    requires Ascending(mailbox, low) && HasFlagged(mailbox, uid)
    ensures !Present(Expunge(mailbox), uid)
  {
    var rest := mailbox[1..];
    assert Expunge(mailbox) == if mailbox[0].deleted then Expunge(rest) else [mailbox[0]] + Expunge(rest);
    if mailbox[0].uid == uid {
      SomeIsAll(rest, CountDeleted(rest));
      AscendingExpunge(rest, mailbox[0].uid + 1, CountDeleted(rest));
      NotPresentAbove(Expunge(rest), uid + 1, uid);
      if !mailbox[0].deleted {
        FlaggedPresent(rest, uid);
        NotPresentAbove(rest, uid + 1, uid);
      }
    } else {
      FlaggedGoes(rest, mailbox[0].uid + 1, uid);
      assert ([mailbox[0]] + Expunge(rest))[1..] == Expunge(rest);
    }
  }

  lemma {:induction false} NotPresentAppend(mailbox: seq<Msg>, more: seq<Msg>, uid: nat)
    requires !Present(mailbox, uid) && !Present(more, uid)
    ensures !Present(mailbox + more, uid)
  {
    if mailbox == [] {
      assert mailbox + more == more;
    } else {
      assert (mailbox + more)[1..] == mailbox[1..] + more;
      NotPresentAppend(mailbox[1..], more, uid);
    }
  }

  /** After an expunge that took just what the client had deleted. */
  lemma InStepAgain(before: seq<Msg>, mail: seq<Msg>, orig: seq<Msg>, num: nat, expunged: nat, deletions: nat)
    requires InSync(before, orig, num, expunged, deletions) && CountDeleted(before) == deletions
    ensures
      var mailbox := Expunge(before) + mail;
      InSync(mailbox, orig, num, expunged + deletions, 0)
  {
    SyncExpunge(before, orig, num, expunged, deletions);
    hide Expunge;
    SyncArrive(Expunge(before), mail, orig, num, expunged + deletions, 0);
  }

  /** The client's deletions are among the messages it has passed. */
  lemma DeletedBefore(mailbox: seq<Msg>, orig: seq<Msg>, num: nat, expunged: nat, deletions: nat)
    requires InSync(mailbox, orig, num, expunged, deletions)
    ensures deletions + expunged <= num - 1 <= |orig|
  {
    ExpungeSize(mailbox[..num - 1 - expunged]);
  }

  /** The messages flagged as deleted. */
  ghost function Flagged(s: seq<Msg>): set<nat> {
    set m | m in s && m.deleted :: m.uid
  }

  /** An expunge leaves everything that is not flagged. */
  lemma {:induction false} PresentExpunge(mailbox: seq<Msg>, mayGo: set<nat>, limit: nat, uid: nat)
    requires Present(mailbox, uid) && uid !in mayGo
    requires forall m | m in mailbox && m.deleted :: m.uid in mayGo
    ensures Present(ExpungeSome(mailbox, limit), uid)
    decreases |mailbox|
  {
    if limit > 0 {
      if mailbox[0].deleted {
        assert mailbox[0] in mailbox;
        PresentExpunge(mailbox[1..], mayGo, limit - 1, uid);
      } else if mailbox[0].uid != uid {
        PresentExpunge(mailbox[1..], mayGo, limit, uid);
        var rest := ExpungeSome(mailbox[1..], limit);
        assert ([mailbox[0]] + rest)[1..] == rest;
      }
    }
  }

  lemma SafeExpunge(mailbox: seq<Msg>, orig: seq<Msg>, mayGo: set<nat>, limit: nat)
    requires Safe(mailbox, orig, mayGo)
    ensures Safe(ExpungeSome(mailbox, limit), orig, mayGo)
  {
    ExpungeSomeKeeps(mailbox, limit);
    forall o | o in orig && o.uid !in mayGo ensures Present(ExpungeSome(mailbox, limit), o.uid) {
      PresentExpunge(mailbox, mayGo, limit, o.uid);
    }
  }

  lemma SafeArrive(mailbox: seq<Msg>, more: seq<Msg>, orig: seq<Msg>, mayGo: set<nat>)
    requires Safe(mailbox, orig, mayGo) && NoneDeleted(more)
    ensures Safe(mailbox + more, orig, mayGo)
  {
    forall o | o in orig && o.uid !in mayGo ensures Present(mailbox + more, o.uid) {
      PresentAppend(mailbox, more, o.uid);
    }
  }

  lemma SafeFlag(mailbox: seq<Msg>, orig: seq<Msg>, mayGo: set<nat>, i: nat, seen: bool, deleted: bool)
    requires Safe(mailbox, orig, mayGo) && i < |mailbox|
    requires deleted && !mailbox[i].deleted ==> mailbox[i].uid in mayGo
    ensures Safe(mailbox[i := mailbox[i].(seen := seen, deleted := deleted)], orig, mayGo)
  {
    forall o | o in orig && o.uid !in mayGo
      ensures Present(mailbox[i := mailbox[i].(seen := seen, deleted := deleted)], o.uid)
    {
      PresentUpdate(mailbox, i, mailbox[i].(seen := seen, deleted := deleted), o.uid);
    }
  }

  // ----- What has become of a mailbox -----

  /** The mailbox at some point; whether an EXPUNGE was completed since, and whether one broke off half-way;
      and the messages that were flagged as deleted since. */
  datatype Log = Log(start: seq<Msg>, swept: bool, torn: bool, marked: set<nat>)

  function Begun(mailbox: seq<Msg>): Log {
    Log(mailbox, false, false, {})
  }

  /** A message once flagged is flagged for as long as it is there. */
  ghost predicate StaysFlagged(mailbox: seq<Msg>, uid: nat) {
    Present(mailbox, uid) ==> HasFlagged(mailbox, uid)
  }

  /** What was flagged stays so, and is gone after a completed EXPUNGE; what was flagged since is gone unless
      deletions are pending; and nothing is gone without an EXPUNGE. */
  ghost predicate Evolved(l: Log, mailbox: seq<Msg>, nextUid: nat, pending: bool) {
    && Below(l.start, nextUid)
    && (forall uid: nat | HasFlagged(l.start, uid) :: StaysFlagged(mailbox, uid) && (l.swept ==> !Present(mailbox, uid)))
    && (forall uid: nat | uid in l.marked :: uid < nextUid && StaysFlagged(mailbox, uid) && (!pending ==> !Present(mailbox, uid)))
    && (!l.swept && !l.torn ==> forall uid: nat | Present(l.start, uid) :: Present(mailbox, uid))
  }

  lemma EvolvedSelf(mailbox: seq<Msg>, nextUid: nat, pending: bool)
    requires Ascending(mailbox, 0) && Below(mailbox, nextUid)
    ensures Evolved(Begun(mailbox), mailbox, nextUid, pending)
  {
    forall uid: nat | HasFlagged(mailbox, uid) ensures StaysFlagged(mailbox, uid) {
      FlaggedPresent(mailbox, uid);
    }
  }

  lemma {:induction false} PresentBelow(mailbox: seq<Msg>, bound: nat, uid: nat)
    requires Below(mailbox, bound) && Present(mailbox, uid)
    ensures uid < bound
  {
    if mailbox[0].uid != uid {
      PresentBelow(mailbox[1..], bound, uid);
    }
  }

  lemma ArriveOne(mailbox: seq<Msg>, more: seq<Msg>, nextUid: nat, uid: nat)
    requires Ascending(more, nextUid) && uid < nextUid
    ensures Present(mailbox + more, uid) <==> Present(mailbox, uid)
    ensures HasFlagged(mailbox, uid) ==> HasFlagged(mailbox + more, uid)
  {
    NotPresentAbove(more, nextUid, uid);
    if !Present(mailbox, uid) {
      NotPresentAppend(mailbox, more, uid);
    } else {
      PresentAppend(mailbox, more, uid);
    }
    if HasFlagged(mailbox, uid) {
      FlaggedAppend(mailbox, more, uid);
    }
  }

  lemma EvolvedArrive(l: Log, mailbox: seq<Msg>, more: seq<Msg>, nextUid: nat, later: nat, pending: bool)
    requires Evolved(l, mailbox, nextUid, pending) && Ascending(more, nextUid) && nextUid <= later
    ensures Evolved(l, mailbox + more, later, pending)
  {
    BelowWiden(l.start, nextUid, later);
    forall uid: nat | uid < nextUid
      ensures Present(mailbox + more, uid) <==> Present(mailbox, uid)
      ensures HasFlagged(mailbox, uid) ==> HasFlagged(mailbox + more, uid)
    {
      ArriveOne(mailbox, more, nextUid, uid);
    }
    forall uid: nat | Present(l.start, uid) ensures uid < nextUid {
      PresentBelow(l.start, nextUid, uid);
    }
    forall uid: nat | HasFlagged(l.start, uid) ensures uid < nextUid {
      FlaggedPresent(l.start, uid);
    }
  }

  lemma {:induction false} BelowWiden(s: seq<Msg>, bound: nat, wider: nat)
    requires Below(s, bound) && bound <= wider
    ensures Below(s, wider)
  {
  }

  lemma {:induction false} UpdatePresent(mailbox: seq<Msg>, i: nat, m: Msg, uid: nat)
    requires i < |mailbox| && m.uid == mailbox[i].uid
    ensures Present(mailbox[i := m], uid) <==> Present(mailbox, uid)
  {
    if i == 0 {
      assert mailbox[i := m][1..] == mailbox[1..];
    } else {
      assert mailbox[i := m][1..] == mailbox[1..][i - 1 := m];
      UpdatePresent(mailbox[1..], i - 1, m, uid);
    }
  }

  lemma EvolvedUpdate(l: Log, mailbox: seq<Msg>, i: nat, m: Msg, nextUid: nat, pending: bool)
    requires Evolved(l, mailbox, nextUid, pending)
    requires i < |mailbox| && m.uid == mailbox[i].uid && (mailbox[i].deleted ==> m.deleted)
    ensures Evolved(l, mailbox[i := m], nextUid, pending)
  {
    forall uid: nat
      ensures Present(mailbox[i := m], uid) <==> Present(mailbox, uid)
    {
      UpdatePresent(mailbox, i, m, uid);
    }
    forall uid: nat | HasFlagged(mailbox, uid) ensures HasFlagged(mailbox[i := m], uid) {
      FlaggedUpdate(mailbox, i, m, uid);
    }
  }

  /** What an EXPUNGE, complete or not, leaves of one message that is flagged or gone. */
  lemma ExpungeOne(mailbox: seq<Msg>, limit: nat, uid: nat)
    requires Ascending(mailbox, 0) && StaysFlagged(mailbox, uid)
    ensures StaysFlagged(ExpungeSome(mailbox, limit), uid)
    ensures !Present(Expunge(mailbox), uid)
    ensures !Present(mailbox, uid) ==> !Present(ExpungeSome(mailbox, limit), uid)
  {
    ExpungeSomeKeeps(mailbox, limit);
    SomeIsAll(mailbox, CountDeleted(mailbox));
    ExpungeSomeKeeps(mailbox, CountDeleted(mailbox));
    if Present(ExpungeSome(mailbox, limit), uid) {
      var m := PresentIs(ExpungeSome(mailbox, limit), uid);
      PresentAt(mailbox, m);
      var n := FlaggedIs(mailbox, uid);
      OnePerUid(mailbox, 0, m, n);
      HasFlaggedAt(ExpungeSome(mailbox, limit), m);
    }
    if HasFlagged(mailbox, uid) {
      FlaggedGoes(mailbox, 0, uid);
    } else if Present(Expunge(mailbox), uid) {
      var m := PresentIs(Expunge(mailbox), uid);
      PresentAt(mailbox, m);
    }
  }

  lemma {:induction false} FlaggedIs(mailbox: seq<Msg>, uid: nat) returns (m: Msg)
    requires HasFlagged(mailbox, uid)
    ensures m in mailbox && m.uid == uid && m.deleted
  {
    if mailbox[0].uid == uid && mailbox[0].deleted {
      m := mailbox[0];
    } else {
      m := FlaggedIs(mailbox[1..], uid);
    }
  }

  /** A completed EXPUNGE. */
  lemma EvolvedSwept(l: Log, mailbox: seq<Msg>, nextUid: nat, pending: bool)
    requires Evolved(l, mailbox, nextUid, pending) && Ascending(mailbox, 0)
    ensures Evolved(l.(swept := true), Expunge(mailbox), nextUid, false)
  {
    SomeIsAll(mailbox, CountDeleted(mailbox));
    forall uid: nat | StaysFlagged(mailbox, uid)
      ensures StaysFlagged(Expunge(mailbox), uid) && !Present(Expunge(mailbox), uid)
    {
      ExpungeOne(mailbox, CountDeleted(mailbox), uid);
    }
  }

  /** One that broke off. */
  lemma EvolvedTorn(l: Log, mailbox: seq<Msg>, nextUid: nat, pending: bool, limit: nat)
    requires Evolved(l, mailbox, nextUid, pending) && Ascending(mailbox, 0)
    ensures Evolved(if limit > 0 then l.(torn := true) else l, ExpungeSome(mailbox, limit), nextUid, pending)
  {
    if limit == 0 {
      assert ExpungeSome(mailbox, 0) == mailbox;
    } else {
      forall uid: nat | StaysFlagged(mailbox, uid)
        ensures StaysFlagged(ExpungeSome(mailbox, limit), uid)
        ensures !Present(mailbox, uid) ==> !Present(ExpungeSome(mailbox, limit), uid)
      {
        ExpungeOne(mailbox, limit, uid);
      }
    }
  }

  /** One more message that the client has flagged. */
  lemma EvolvedMarked(l: Log, mailbox: seq<Msg>, nextUid: nat, pending: bool, uid: nat)
    requires Evolved(l, mailbox, nextUid, pending) && StaysFlagged(mailbox, uid) && uid < nextUid
    ensures Evolved(l.(marked := l.marked + {uid}), mailbox, nextUid, true)
  {
  }

  /** The log after an EXPUNGE with this reply. */
  function Swept(l: Log, reply: Reply, mailbox: seq<Msg>): Log {
    if reply.status == PS_SUCCESS then l.(swept := true)
    else if reply.done > 0 && CountDeleted(mailbox) > 0 then l.(torn := true)
    else l
  }

  lemma EvolvedExpunged(l: Log, mailbox: seq<Msg>, nextUid: nat, pending: bool, reply: Reply)
    requires Evolved(l, mailbox, nextUid, pending) && Ascending(mailbox, 0)
    ensures
      var all := CountDeleted(mailbox);
      var limit := if reply.status == PS_SUCCESS || reply.done > all then all else reply.done;
      && Evolved(Swept(l, reply, mailbox), ExpungeSome(mailbox, limit), nextUid, reply.status != PS_SUCCESS && pending)
      && Evolved(Swept(l, reply, mailbox), ExpungeSome(mailbox, limit), nextUid, pending)
  {
    var all := CountDeleted(mailbox);
    if reply.status == PS_SUCCESS {
      SomeIsAll(mailbox, all);
      EvolvedSwept(l, mailbox, nextUid, pending);
    } else {
      EvolvedTorn(l, mailbox, nextUid, pending, if reply.done > all then all else reply.done);
    }
  }

  class Session {
    // the server
    var mailbox: seq<Msg>
    var nextUid: nat
    // the statics of imap.c
    var count: int
    var oldcount: int
    var recentcount: int
    var deletions: nat
    var expunged: nat
    var actualDeletions: nat
    var unseen: seq<nat>
    const expungePeriod: int
    // what was sent, and what became of the mailbox
    var sent: seq<Command>
    var log: Log

    constructor (mailbox: seq<Msg>, nextUid: nat, expungePeriod: int)
      ensures this.mailbox == mailbox && this.nextUid == nextUid && this.expungePeriod == expungePeriod
      ensures count == oldcount == recentcount == 0 && deletions == expunged == 0 && sent == []
      ensures log == Begun(mailbox)
    {
      this.mailbox, this.nextUid, this.expungePeriod := mailbox, nextUid, expungePeriod;
      count, oldcount, recentcount, deletions, expunged, actualDeletions := 0, 0, 0, 0, 0, 0;
      unseen, sent, log := [], [], Begun(mailbox);
    }

    /** The client knows how many messages there are, and how many of them are new; and the log is true. */
    ghost predicate Tracks()
      reads `mailbox, `nextUid, `count, `oldcount, `recentcount, `deletions, `log
    {
      && count == |mailbox| && 0 <= oldcount <= count && recentcount == count - oldcount && Numbered()
      && Evolved(log, mailbox, nextUid, deletions > 0)
    }

    /** The server's part: identifiers ascend, and new mail gets higher ones. */
    ghost predicate Numbered()
      reads `mailbox, `nextUid
    {
      Ascending(mailbox, 0) && Below(mailbox, nextUid)
    }

    /** The EXISTS and EXPUNGE cases of imap_untagged_response. */
    method UntaggedResponse(r: Untagged)
      modifies `count, `oldcount, `recentcount, `actualDeletions
      ensures r.Exists? ==> count == r.n && oldcount == old(oldcount) && actualDeletions == old(actualDeletions)
      ensures r.Expunged? && r.n > 0 ==>
                && count == (if old(count) > 0 then old(count) - 1 else old(count))
                && oldcount == (if old(oldcount) > 0 then old(oldcount) - 1 else old(oldcount))
                && actualDeletions == old(actualDeletions) + 1
      ensures r.Expunged? && r.n == 0 ==>
                count == old(count) && oldcount == old(oldcount) && actualDeletions == old(actualDeletions)
      ensures r.Exists? || r.n > 0 ==> recentcount == if count < oldcount then 0 else count - oldcount
    {
      match r {
        case Exists(n) =>
          count := n;
          recentcount := count - oldcount;
          if recentcount < 0 {
            recentcount := 0;
          }
        case Expunged(n) =>
          if n > 0 {
            if count > 0 {
              count := count - 1;
            }
            if oldcount > 0 {
              oldcount := oldcount - 1;
            }
            recentcount := count - oldcount;
            if recentcount < 0 {
              recentcount := 0;
            }
            actualDeletions := actualDeletions + 1;
          }
      }
    }

    /** imap_response reads untagged responses one by one. */
    method ReadResponses(rs: seq<Untagged>)
      requires forall i | 0 <= i < |rs| :: rs[i].Expunged? && rs[i].n > 0
      requires 0 <= oldcount <= count && recentcount == count - oldcount && |rs| <= count
      modifies `count, `oldcount, `recentcount, `actualDeletions
      ensures count == old(count) - |rs| && actualDeletions == old(actualDeletions) + |rs|
      ensures oldcount == if old(oldcount) >= |rs| then old(oldcount) - |rs| else 0
      ensures recentcount == count - oldcount && oldcount <= count
    {
      for i := 0 to |rs|
        invariant count == old(count) - i && actualDeletions == old(actualDeletions) + i
        invariant oldcount == if old(oldcount) >= i then old(oldcount) - i else 0
        invariant recentcount == count - oldcount && oldcount <= count
      {
        UntaggedResponse(rs[i]);
      }
    }

    /** New mail, which the server announces. */
    method Arrive(sizes: seq<nat>)
      requires Tracks()
      modifies `mailbox, `nextUid, `count, `recentcount, `oldcount, `actualDeletions
      ensures Tracks() && oldcount == old(oldcount) && actualDeletions == old(actualDeletions)
      ensures mailbox == old(mailbox) + NewMail(old(nextUid), sizes)
      ensures nextUid == old(nextUid) + |sizes|
    {
      hide Evolved;
      NewMailFacts(nextUid, sizes);
      AscendingAppend(mailbox, NewMail(nextUid, sizes), 0, nextUid);
      EvolvedArrive(log, mailbox, NewMail(nextUid, sizes), nextUid, nextUid + |sizes|, deletions > 0);
      mailbox := mailbox + NewMail(nextUid, sizes);
      nextUid := nextUid + |sizes|;
      if sizes != [] {
        UntaggedResponse(Exists(|mailbox|));
      }
    }

    /** EXPUNGE: if it fails the server may have got anywhere. */
    method Expunging(reply: Reply, ghost orig: seq<Msg>, ghost mayGo: set<nat>)
      requires Tracks() && Safe(mailbox, orig, mayGo)
      modifies `mailbox, `nextUid, `count, `oldcount, `recentcount, `actualDeletions, `log
      ensures Tracks() && Safe(mailbox, orig, mayGo) && log == Swept(old(log), reply, old(mailbox))
      ensures reply.status == PS_SUCCESS ==> Evolved(log, mailbox, nextUid, false)
      ensures reply.status == PS_SUCCESS ==>
                && actualDeletions == CountDeleted(old(mailbox))
                && mailbox == Expunge(old(mailbox)) + NewMail(old(nextUid), reply.arrivals)
      ensures old(oldcount) >= actualDeletions ==> oldcount == old(oldcount) - actualDeletions
    {
      hide Safe, Ascending, NewMail, Evolved, Swept, Expunge, ExpungeSome, ExpungeResponses, CountDeleted;
      actualDeletions := 0;
      var all := CountDeleted(mailbox);
      var limit := if reply.status == PS_SUCCESS || reply.done > all then all else reply.done;
      var responses := ExpungeResponses(mailbox, 0, limit);
      ResponseCount(mailbox, 0, limit);
      SomeIsAll(mailbox, all);
      ExpungeSize(mailbox);
      SafeExpunge(mailbox, orig, mayGo, limit);
      AscendingExpunge(mailbox, 0, limit);
      ExpungeSomeKeeps(mailbox, limit);
      ghost var pending := reply.status != PS_SUCCESS && deletions > 0;
      EvolvedExpunged(log, mailbox, nextUid, deletions > 0, reply);
      log := Swept(log, reply, mailbox);
      mailbox := ExpungeSome(mailbox, limit);
      ReadResponses(responses);
      NewMailFacts(nextUid, reply.arrivals);
      EvolvedArrive(log, mailbox, NewMail(nextUid, reply.arrivals), nextUid, nextUid + |reply.arrivals|, pending);
      SafeArrive(mailbox, NewMail(nextUid, reply.arrivals), orig, mayGo);
      Arrive(reply.arrivals);
    }

    /** internal_expunge */
    method InternalExpunge(reply: Reply, ghost orig: seq<Msg>, ghost mayGo: set<nat>) returns (ok: int)
      requires Tracks() && Safe(mailbox, orig, mayGo)
      modifies `mailbox, `nextUid, `count, `oldcount, `recentcount, `actualDeletions, `deletions, `expunged, `log
      ensures Tracks() && Safe(mailbox, orig, mayGo) && log == Swept(old(log), reply, old(mailbox))
      ensures ok == PS_SUCCESS <==>
                reply.status == PS_SUCCESS && (old(deletions) == 0 || old(deletions) == CountDeleted(old(mailbox)))
      ensures ok == PS_SUCCESS ==>
                && mailbox == Expunge(old(mailbox)) + NewMail(old(nextUid), reply.arrivals)
                && expunged == old(expunged) + old(deletions) && deletions == 0
                && actualDeletions == CountDeleted(old(mailbox))
      ensures ok == PS_SUCCESS && old(oldcount) >= CountDeleted(old(mailbox)) ==>
                oldcount == old(oldcount) - CountDeleted(old(mailbox))
      ensures ok != PS_SUCCESS ==> expunged == old(expunged)
      ensures reply.status == PS_SUCCESS ==> mailbox == Expunge(old(mailbox)) + NewMail(old(nextUid), reply.arrivals)
      ensures deletions == if reply.status == PS_SUCCESS then 0 else old(deletions)
      ensures ok == PS_SUCCESS || ok == PS_ERROR || ok == reply.status
    {
      hide Safe, Ascending, NewMail, Evolved;
      Expunging(reply, orig, mayGo);
      if reply.status != PS_SUCCESS {
        return reply.status;
      }
      if deletions > 0 && deletions != actualDeletions {
        deletions := 0;
        return PS_ERROR;
      }
      expunged := expunged + deletions;
      deletions := 0;
      return PS_SUCCESS;
    }

    /** What holds before the driver handles message `num`. */
    ghost predicate Ready(orig: seq<Msg>, num: nat, mine: set<nat>)
      reads this
    {
      && Tracks() && InSync(mailbox, orig, num, expunged, deletions) && Safe(mailbox, orig, mine + Flagged(orig))
      && log.start == orig && !log.torn && (log.swept <==> expunged > 0)
    }

    /** Sends a command for message `num`, translating the number. */
    method Send(verb: Verb, num: nat, ghost orig: seq<Msg>, ghost mine: set<nat>) returns (seqno: nat)
      requires Ready(orig, num, mine) && num <= |orig|
      modifies `sent
      ensures seqno == num - expunged && 1 <= seqno <= |mailbox|
      ensures sent == old(sent) + [Command(verb, num, seqno, At(orig, num).uid)]
    {
      seqno := num - expunged;
      assert SameMsg(At(mailbox, num - expunged), At(orig, num));
      sent := sent + [Command(verb, num, seqno, At(mailbox, seqno).uid)];
    }

    /** imap_fetch_headers and imap_fetch_body, as far as the session goes. */
    method Fetch(verb: Verb, num: nat, reply: Reply, ghost orig: seq<Msg>, ghost mine: set<nat>) returns (ok: int)
      requires Ready(orig, num, mine) && num <= |orig|
      modifies `sent, `mailbox, `nextUid, `count, `recentcount, `oldcount, `actualDeletions
      ensures Ready(orig, num, mine) && ok == reply.status
      ensures sent == old(sent) + [Command(verb, num, num - expunged, At(orig, num).uid)]
    {
      var seqno := Send(verb, num, orig, mine);
      Welcome(reply.arrivals, orig, num, mine);
      ok := reply.status;
    }

    /** New mail during a command. */
    method Welcome(sizes: seq<nat>, ghost orig: seq<Msg>, ghost num: nat, ghost mine: set<nat>)
      requires Ready(orig, num, mine)
      modifies `mailbox, `nextUid, `count, `recentcount, `oldcount, `actualDeletions
      ensures Ready(orig, num, mine)
      ensures mailbox == old(mailbox) + NewMail(old(nextUid), sizes) && oldcount == old(oldcount)
    {
      hide Evolved;
      NewMailFacts(nextUid, sizes);
      SafeArrive(mailbox, NewMail(nextUid, sizes), orig, mine + Flagged(orig));
      SyncArrive(mailbox, NewMail(nextUid, sizes), orig, num, expunged, deletions);
      Arrive(sizes);
    }

    /** imap_getpartialsizes.  `answered` are the sequence numbers the server gives sizes for;
        about numbers it does not have it says `bogus`. */
    method GetPartialSizes(first: nat, last: nat, sizes: array<nat>, answered: seq<int>, bogus: nat, reply: Reply,
                           ghost orig: seq<Msg>, ghost mine: set<nat>) returns (ok: int)
      requires Ready(orig, first, mine) && last <= |orig| && sizes.Length > last - first
      requires forall i | 0 <= i < sizes.Length :: sizes[i] == 0
      modifies `mailbox, `nextUid, `count, `recentcount, `oldcount, `actualDeletions, sizes
      ensures Ready(orig, first, mine) && sent == old(sent) && oldcount == old(oldcount)
      ensures forall i | 0 <= i <= last - first :: sizes[i] == 0 || sizes[i] == At(orig, first + i).size
      ensures forall i | 0 <= i <= last - first && first + i - expunged in answered :: sizes[i] == At(orig,
        first + i).size
      ensures ok == if last < first then PS_SUCCESS else reply.status
    {
      hide Evolved, Safe, Ascending;
      var first', last' := first - expunged, last as int - expunged;
      if last' < first' {
        return PS_SUCCESS;
      }
      for j := 0 to |answered|
        invariant forall i | 0 <= i <= last' - first' :: sizes[i] == 0 || sizes[i] == At(orig, first + i).size
        invariant forall i | 0 <= i <= last' - first' && first' + i in answered[..j] :: sizes[i] == At(orig,
          first + i).size
        modifies sizes
      {
        var num := answered[j];
        var size := if 1 <= num <= |mailbox| then At(mailbox, num).size else bogus;
        if first' <= num <= last' {
          assert SameMsg(At(mailbox, num + expunged - expunged), At(orig, num + expunged));
          sizes[num - first'] := size;
        }
      }
      assert answered[..|answered|] == answered;
      Welcome(reply.arrivals, orig, first, mine);
      ok := reply.status;
    }

    /** imap_is_old */
    method IsOld(number: nat) returns (seen: bool)
      ensures seen <==> number !in unseen
    {
      seen := true;
      var i := 0;
      while i < |unseen|
        invariant i <= |unseen| && seen && number !in unseen[..i]
      {
        if unseen[i] == number {
          return false;
        }
        i := i + 1;
      }
      assert unseen[..i] == unseen;
    }

    /** imap_getrange on the first pass, on a mailbox that was just selected (EXISTS is among the
        responses to SELECT), without idling.  Messages flagged as deleted before are expunged
        unless messages are kept. */
    method GetRange(checkOnly: bool, keep: bool, fetchall: bool, select: int, expunge: Reply, search: int,
                    ghost mayGo: set<nat>)
      returns (ok: int, countp: nat)
      requires Numbered() && forall m | m in mailbox && m.deleted :: m.uid in mayGo
      modifies this
      ensures Safe(mailbox, old(mailbox), mayGo) && sent == old(sent)
      ensures ok == PS_SUCCESS ==> countp == |mailbox| && expunged == 0 && deletions == 0 && oldcount == countp
      ensures Tracks()
      ensures ok == PS_SUCCESS && !checkOnly && !keep ==> NoneDeleted(mailbox)
      ensures keep ==> mailbox == old(mailbox) && nextUid == old(nextUid)
      ensures !checkOnly && select == PS_SUCCESS && search == PS_SUCCESS ==>
                (keep || (expunge.status == PS_SUCCESS && old(deletions) == 0) ==> ok == PS_SUCCESS)
      ensures ok == PS_SUCCESS ==> log == Begun(mailbox)
      ensures ok == PS_SUCCESS && !fetchall ==>
                forall k | 1 <= k <= countp :: k in unseen <==> !At(mailbox, k).seen && !(keep && At(mailbox, k).deleted)
    {
      hide Evolved;
      countp := 0;
      ok := SelectMailbox(checkOnly, keep, select, expunge, mayGo);
      if ok != PS_SUCCESS {
        return;
      }
      oldcount, countp := count, count;
      recentcount := 0;
      if !fetchall && count > 0 {
        unseen := Search(mailbox, keep);
        SearchFinds(mailbox, keep);
        if search != PS_SUCCESS {
          return search, 0;
        }
      } else {
        unseen := [];
      }
      EvolvedSelf(mailbox, nextUid, false);
      expunged, deletions, log := 0, 0, Begun(mailbox);
    }

    /** SELECT (or EXAMINE), and the EXPUNGE that follows unless messages are kept. */
    method SelectMailbox(checkOnly: bool, keep: bool, select: int, expunge: Reply,
      ghost mayGo: set<nat>) returns (ok: int)
      requires Numbered() && forall m | m in mailbox && m.deleted :: m.uid in mayGo
      modifies `mailbox, `nextUid, `count, `oldcount, `recentcount, `actualDeletions, `deletions, `expunged, `log
      ensures Safe(mailbox, old(mailbox), mayGo) && Tracks()
      ensures ok == PS_SUCCESS && !checkOnly && !keep ==> NoneDeleted(mailbox)
      ensures keep ==> mailbox == old(mailbox) && nextUid == old(nextUid) && ok == select
      ensures !checkOnly && select == PS_SUCCESS && expunge.status == PS_SUCCESS && old(deletions) == 0 ==>
        ok == PS_SUCCESS
    {
      hide Evolved;
      SafeSelf(mailbox, mayGo);
      EvolvedSelf(mailbox, nextUid, deletions > 0);
      log := Begun(mailbox);
      oldcount, count, recentcount := 0, 0, 0;
      UntaggedResponse(Exists(|mailbox|));
      ok := select;
      if ok == PS_SUCCESS && !checkOnly && !keep && count > 0 {
        ghost var before, mail := mailbox, NewMail(nextUid, expunge.arrivals);
        NewMailFacts(nextUid, expunge.arrivals);
        ok := InternalExpunge(expunge, mailbox, mayGo);
        NoneLeft(before, mail);
      }
    }

    /** imap_getrange on later passes, without idling: no mail unless some has arrived since. */
    method GetRangeAgain(keep: bool, fetchall: bool, search: int) returns (ok: int, countp: int)
      requires Tracks()
      modifies `count, `oldcount, `recentcount, `deletions, `expunged, `unseen, `log
      ensures ok == PS_SUCCESS ==> countp == if old(recentcount) == 0 then 0 else |mailbox|
      ensures ok == PS_SUCCESS ==> expunged == 0 && deletions == 0
      ensures ok != PS_SUCCESS || countp > 0 ==> Tracks() && oldcount == |mailbox|
      ensures if ok == PS_SUCCESS then log == Begun(mailbox) else log == old(log) && deletions == old(deletions)
      ensures ok == PS_SUCCESS && countp > 0 && !fetchall ==>
                forall k | 1 <= k <= countp :: k in unseen <==> !At(mailbox, k).seen && !(keep && At(mailbox, k).deleted)
    {
      hide Evolved;
      if recentcount == 0 {
        count := 0;
      }
      oldcount, countp := count, count;
      recentcount := 0;
      ok := PS_SUCCESS;
      if !fetchall && count > 0 {
        unseen := Search(mailbox, keep);
        SearchFinds(mailbox, keep);
        if search != PS_SUCCESS {
          return search, 0;
        }
      } else {
        unseen := [];
      }
      EvolvedSelf(mailbox, nextUid, false);
      expunged, deletions, log := 0, 0, Begun(mailbox);
    }

    /** imap_end_mailbox_poll, and the part of imap_logout that is not the LOGOUT command:
        messages still flagged are expunged. */
    method EndMailbox(expunge: Reply, ghost orig: seq<Msg>, ghost mayGo: set<nat>)
      requires (deletions > 0 ==> Tracks()) && Safe(mailbox, orig, mayGo)
      modifies `mailbox, `nextUid, `count, `oldcount, `recentcount, `actualDeletions, `deletions, `expunged, `log
      ensures (old(Tracks()) ==> Tracks()) && Safe(mailbox, orig, mayGo)
      ensures old(deletions) == 0 ==> mailbox == old(mailbox) && deletions == 0 && log == old(log)
      ensures old(deletions) > 0 ==> log == Swept(old(log), expunge, old(mailbox))
      ensures expunge.status == PS_SUCCESS ==> deletions == 0
      ensures old(deletions) > 0 && expunge.status == PS_SUCCESS ==>
                mailbox == Expunge(old(mailbox)) + NewMail(old(nextUid), expunge.arrivals)
    {
      hide Evolved;
      if deletions > 0 {
        var _ := InternalExpunge(expunge, orig, mayGo);
      }
    }

    /** imap_mark_seen */
    method MarkSeen(num: nat, reply: Reply, ghost orig: seq<Msg>, ghost mine: set<nat>) returns (ok: int)
      requires Ready(orig, num, mine) && num <= |orig|
      modifies `sent, `mailbox, `nextUid, `count, `recentcount, `oldcount, `actualDeletions
      ensures Ready(orig, num, mine) && ok == reply.status
      ensures ok == PS_SUCCESS ==> At(mailbox, num - expunged).seen
      ensures sent == old(sent) + [Command(StoreSeen, num, num - expunged, At(orig, num).uid)]
    {
      hide Safe, Evolved, Ascending, NewMail;
      var seqno := Send(StoreSeen, num, orig, mine);
      if reply.status == PS_SUCCESS || reply.done > 0 {
        SetSeen(seqno, num, orig, mine);
      }
      Welcome(reply.arrivals, orig, num, mine);
      ok := reply.status;
    }

    /** The server sets \Seen. */
    method SetSeen(seqno: nat, ghost num: nat, ghost orig: seq<Msg>, ghost mine: set<nat>)
      requires Ready(orig, num, mine) && num <= |orig| && 1 <= seqno == num - expunged <= |mailbox|
      modifies `mailbox
      ensures Ready(orig, num, mine) && At(mailbox, seqno).seen
    {
      hide Safe, Evolved, Ascending, InSync;
      var m := mailbox[seqno - 1].(seen := true);
      SafeFlag(mailbox, orig, mine + Flagged(orig), seqno - 1, true, m.deleted);
      SyncSeen(mailbox, orig, num, expunged, deletions, seqno - 1);
      EvolvedUpdate(log, mailbox, seqno - 1, m, nextUid, deletions > 0);
      AscendingUpdate(mailbox, 0, seqno - 1, m);
      mailbox := mailbox[seqno - 1 := m];
    }

    /** The server sets \Seen and \Deleted. */
    method SetDeleted(seqno: nat, ghost num: nat, ghost orig: seq<Msg>, ghost mine: set<nat>)
      requires Ready(orig, num, mine) && num <= |orig| && 1 <= seqno == num - expunged <= |mailbox|
      requires At(orig, num).uid in mine && At(mailbox, seqno).uid == At(orig, num).uid
      modifies `mailbox
      ensures Tracks() && Safe(mailbox, orig, mine + Flagged(orig))
      ensures InSync(mailbox, orig, num + 1, expunged, deletions + 1) && HasFlagged(mailbox, At(orig, num).uid)
    {
      var m := mailbox[seqno - 1].(deleted := true, seen := true);
      HasFlaggedAt(mailbox[seqno - 1 := m], mailbox[seqno - 1 := m][seqno - 1]);
      hide Safe, Evolved, Ascending, InSync;
      SafeFlag(mailbox, orig, mine + Flagged(orig), seqno - 1, true, true);
      SyncFlag(mailbox, orig, num, expunged, deletions);
      EvolvedUpdate(log, mailbox, seqno - 1, m, nextUid, deletions > 0);
      AscendingUpdate(mailbox, 0, seqno - 1, m);
      mailbox := mailbox[seqno - 1 := m];
    }

    /** imap_delete: flags the message, and expunges after every `expungePeriod` deletions. */
    method Delete(num: nat, store: Reply, expunge: Reply, ghost orig: seq<Msg>, ghost mine: set<nat>) returns (ok: int)
      requires Ready(orig, num, mine) && num <= |orig| && At(orig, num).uid in mine
      requires expungePeriod > 0 ==> deletions < expungePeriod
      modifies `sent, `mailbox, `nextUid, `count, `oldcount, `recentcount, `actualDeletions, `deletions, `expunged, `log
      ensures log.start == orig && old(log).marked <= log.marked &&
        (ok == PS_SUCCESS ==> At(orig, num).uid in log.marked)
      ensures Tracks() && Safe(mailbox, orig, mine + Flagged(orig))
      ensures ok == PS_SUCCESS ==> Ready(orig, num + 1, mine) && expunged + deletions == old(expunged + deletions) + 1
      ensures ok == PS_SUCCESS && expungePeriod > 0 ==> deletions < expungePeriod
      ensures store.status == PS_SUCCESS && expungePeriod <= 0 ==> ok == PS_SUCCESS
      ensures ok == PS_SUCCESS && old(oldcount + expunged) == |orig| ==> oldcount + expunged == |orig|
      ensures sent == old(sent) + [Command(StoreDeleted, num, num - old(expunged), At(orig, num).uid)]
      ensures ok == PS_SUCCESS || ok == PS_ERROR || ok == store.status || ok == expunge.status
    {
      hide Evolved, InSync, Safe, Ascending;
      ok := StoreFlags(num, store, orig, mine);
      if ok != PS_SUCCESS {
        return;
      }
      EvolvedMarked(log, mailbox, nextUid, deletions > 0, sent[|sent| - 1].target);
      log := log.(marked := log.marked + {sent[|sent| - 1].target});
      deletions := deletions + 1;
      PeriodReached(deletions, expungePeriod);
      if expungePeriod > 0 && deletions % expungePeriod == 0 {
        ok := ExpungeDeleted(num + 1, expunge, orig, mine);
      }
    }

    /** STORE +FLAGS (\Seen \Deleted) */
    method StoreFlags(num: nat, reply: Reply, ghost orig: seq<Msg>, ghost mine: set<nat>) returns (ok: int)
      requires Ready(orig, num, mine) && num <= |orig| && At(orig, num).uid in mine
      modifies `sent, `mailbox, `nextUid, `count, `recentcount, `oldcount, `actualDeletions
      ensures Tracks() && Safe(mailbox, orig, mine + Flagged(orig)) && ok == reply.status && oldcount == old(oldcount)
      ensures ok == PS_SUCCESS ==>
                && InSync(mailbox, orig, num + 1, expunged, deletions + 1)
                && StaysFlagged(mailbox, At(orig, num).uid) && At(orig, num).uid < nextUid
      ensures sent == old(sent) + [Command(StoreDeleted, num, num - expunged, At(orig, num).uid)]
    {
      hide Safe, Evolved, Ascending, NewMail;
      var seqno := Send(StoreDeleted, num, orig, mine);
      assert SameMsg(At(mailbox, num - expunged), At(orig, num));
      hide InSync;
      NewMailFacts(nextUid, reply.arrivals);
      if reply.status == PS_SUCCESS || reply.done > 0 {
        SetDeleted(seqno, num, orig, mine);
        SyncArrive(mailbox, NewMail(nextUid, reply.arrivals), orig, num + 1, expunged, deletions + 1);
        FlaggedPresent(mailbox, At(orig, num).uid);
        PresentBelow(mailbox, nextUid, At(orig, num).uid);
        ArriveOne(mailbox, NewMail(nextUid, reply.arrivals), nextUid, At(orig, num).uid);
      }
      SafeArrive(mailbox, NewMail(nextUid, reply.arrivals), orig, mine + Flagged(orig));
      Arrive(reply.arrivals);
      ok := reply.status;
    }

    /** The expunge that ends a period. */
    method ExpungeDeleted(num: nat, reply: Reply, ghost orig: seq<Msg>, ghost mine: set<nat>) returns (ok: int)
      requires Ready(orig, num, mine) && deletions > 0
      modifies `mailbox, `nextUid, `count, `oldcount, `recentcount, `actualDeletions, `deletions, `expunged, `log
      ensures Tracks() && Safe(mailbox, orig, mine + Flagged(orig)) && log == Swept(old(log), reply, old(mailbox))
      ensures ok == PS_SUCCESS ==> Ready(orig, num, mine) && deletions == 0 && expunged == old(expunged + deletions)
      ensures ok == PS_SUCCESS && old(oldcount + expunged) == |orig| ==> oldcount + expunged == |orig|
      ensures ok == PS_SUCCESS || ok == PS_ERROR || ok == reply.status
    {
      hide Safe, Evolved, Ascending, NewMail, Expunge;
      DeletedBefore(mailbox, orig, num, expunged, deletions);
      hide InSync;
      ghost var before, was, mail := mailbox, deletions, NewMail(nextUid, reply.arrivals);
      ok := InternalExpunge(reply, orig, mine + Flagged(orig));
      if ok == PS_SUCCESS {
        InStepAgain(before, mail, orig, num, expunged - was, was);
      }
    }
  }

  /** The reply to SEARCH UNSEEN, or SEARCH UNSEEN UNDELETED. */
  function Search(mailbox: seq<Msg>, undeleted: bool): seq<nat> {
    if mailbox == [] then []
    else
      var m, n := mailbox[|mailbox| - 1], |mailbox|;
      Search(mailbox[..n - 1], undeleted) + if !m.seen && !(undeleted && m.deleted) then [n] else []
  }

  lemma {:induction false} SearchFinds(mailbox: seq<Msg>, undeleted: bool)
    ensures forall k | k in Search(mailbox, undeleted) :: 1 <= k <= |mailbox|
    ensures forall k | 1 <= k <= |mailbox| ::
              k in Search(mailbox, undeleted) <==> !At(mailbox, k).seen && !(undeleted && At(mailbox, k).deleted)
  {
    if mailbox != [] {
      SearchFinds(mailbox[..|mailbox| - 1], undeleted);
      forall k | 1 <= k < |mailbox| ensures At(mailbox[..|mailbox| - 1], k) == At(mailbox, k) {
      }
    }
  }

  ghost predicate NoneDeleted(mailbox: seq<Msg>) {
    forall m | m in mailbox :: !m.deleted
  }

  lemma NoneLeft(mailbox: seq<Msg>, mail: seq<Msg>)
    requires NoneDeleted(mail)
    ensures NoneDeleted(Expunge(mailbox) + mail)
  {
    ExpungeSize(mailbox);
    NothingToExpunge(Expunge(mailbox));
  }

  lemma SafeSelf(mailbox: seq<Msg>, mayGo: set<nat>)
    requires forall m | m in mailbox && m.deleted :: m.uid in mayGo
    ensures Safe(mailbox, mailbox, mayGo)
  {
    forall o | o in mailbox ensures Present(mailbox, o.uid) {
      PresentAt(mailbox, o);
    }
  }

  lemma PeriodReached(deletions: nat, period: int)
    requires period > 0 ==> 0 < deletions <= period
    ensures period > 0 ==> (deletions % period == 0 <==> deletions == period)
  {
    if 0 < period && deletions < period {
      assert deletions / period == 0;
    }
  }

  /** The \Seen flag does not matter for the numbering. */
  lemma SyncSeen(mailbox: seq<Msg>, orig: seq<Msg>, num: nat, expunged: nat, deletions: nat,
                 i: nat)
    requires InSync(mailbox, orig, num, expunged, deletions) && num - expunged - 1 <= i < |mailbox|
    ensures InSync(mailbox[i := mailbox[i].(seen := true)], orig, num, expunged, deletions)
  {
    var mailbox' := mailbox[i := mailbox[i].(seen := true)];
    assert mailbox'[..num - 1 - expunged] == mailbox[..num - 1 - expunged];
    forall k | num <= k <= |orig| ensures SameMsg(At(mailbox', k - expunged), At(orig, k)) {
      assert SameMsg(At(mailbox, k - expunged), At(orig, k));
    }
  }
}
