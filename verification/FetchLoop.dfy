/**
  The fetch loop of driver.c over an IMAP session.  What readheaders, readbody,
  the trailers and the delivery sink do is given by an outcome for every message.
 */
module FetchLoop {
  import opened ImapMailbox
  import opened ImapSession
  import opened FetchTalk

  const MSGLEN_UNKNOWN: int := 0
  const MSGLEN_TOOLARGE: int := -2
  const MSGLEN_OLD: int := -3

  datatype Config = Config(keep: bool, flush: bool, limitflush: bool, fetchall: bool, forceRetrieval: bool,
                           softbounce: bool, limit: int, fetchsizelimit: int, maxfetch: nat)

  /** How one message fares: the replies to the commands sent for it and, in between, the results
      of readheaders, of the trailer, of readbody, of the trailer again, and of close_sink. */
  datatype Outcome = Outcome(sizes: Reply, answered: seq<int>, bogus: nat, headers: Reply, readHeaders: int,
                             trailer: int, body: Reply, readBody: int, bodyTrailer: int, sink: bool,
                             store: Reply, expunge: Reply)

  /** Read completely and accepted by the sink. */
  predicate Accepted(o: Outcome) {
    o.headers.status == PS_SUCCESS && o.readHeaders == PS_SUCCESS && o.body.status == PS_SUCCESS
    && o.readBody == PS_SUCCESS && o.sink
  }

  /** Refused by the delivery agent when it saw the headers. */
  predicate Refused(o: Outcome) {
    o.headers.status == PS_SUCCESS && o.readHeaders == PS_REFUSED && o.sink
  }

  /** When a message is deleted: old, if it is to be flushed; too large, if that is to be flushed; accepted, or
      refused for good, if mail is not to be kept.  Unless its size is known (`sized`), a message that is too
      large may also be fetched. */
  predicate MayDelete(cfg: Config, o: Outcome, judgedOld: bool, size: nat, sized: bool) {
    if judgedOld then cfg.flush
    else if 0 < cfg.limit < size && (sized || cfg.limitflush) then cfg.limitflush
    else !cfg.keep && (Accepted(o) || (Refused(o) && !cfg.softbounce))
  }

  predicate JudgedOld(cfg: Config, unseen: seq<nat>, num: nat) {
    !cfg.fetchall && !cfg.forceRetrieval && num !in unseen
  }

  // ----- What is said about one message -----

  /** A message is deleted unread if it is old or too large and such are to be flushed; or else after its headers
      and its body were fetched and it was accepted, or after its headers were fetched and it was refused for good. */
  predicate Deletes(cfg: Config, o: Outcome, judgedOld: bool, size: nat, vs: seq<Verb>) {
    || (vs == [StoreDeleted] && if judgedOld then cfg.flush else cfg.limitflush && 0 < cfg.limit < size)
    || (vs == [FetchHeaders, FetchBody, StoreDeleted] && !judgedOld && !cfg.keep && Accepted(o))
    || (vs == [FetchHeaders, StoreDeleted] && !judgedOld && !cfg.keep && Refused(o) && !cfg.softbounce)
  }

  /** Under "keep" such a message is marked as seen instead. */
  predicate Marks(cfg: Config, o: Outcome, judgedOld: bool, vs: seq<Verb>) {
    || (vs == [FetchHeaders, FetchBody, StoreSeen] && !judgedOld && cfg.keep && Accepted(o))
    || (vs == [FetchHeaders, StoreSeen] && !judgedOld && cfg.keep && Refused(o) && !cfg.softbounce)
  }

  /** A message that is not old is read: its headers, and its body if they were passed on. */
  predicate Reads(o: Outcome, vs: seq<Verb>) {
    || vs == [FetchHeaders]
    || (vs == [FetchHeaders, FetchBody] && o.headers.status == PS_SUCCESS && o.readHeaders == PS_SUCCESS)
  }

  /** What was read of a message when it came to "flagthemail": the body exactly if the headers were passed on. */
  predicate ReadBy(o: Outcome, msgcode: int, vs: seq<Verb>) {
    if msgcode < 0 then vs == []
    else Reads(o, vs) && (FetchBody in vs <==> o.headers.status == PS_SUCCESS && o.readHeaders == PS_SUCCESS)
  }

  /** The commands that may be sent about a message, wherever the run breaks off. */
  predicate Proper(cfg: Config, o: Outcome, judgedOld: bool, size: nat, sized: bool, vs: seq<Verb>) {
    && (vs == [] || (Reads(o, vs) && !judgedOld) || Deletes(cfg, o, judgedOld, size, vs) ||
      Marks(cfg, o, judgedOld, vs))
    && (sized && FetchHeaders in vs ==> !(0 < cfg.limit < size))
  }

  /** The commands that are sent about a message of known size, if no error comes in between. */
  predicate Complete(cfg: Config, o: Outcome, judgedOld: bool, size: nat, vs: seq<Verb>) {
    var wanted := !judgedOld && !(0 < cfg.limit < size);
    && (wanted ==> FetchHeaders in vs)
    && (wanted && o.headers.status == PS_SUCCESS && o.readHeaders == PS_SUCCESS ==> FetchBody in vs)
    && (wanted && cfg.keep && (Accepted(o) || (Refused(o) && !cfg.softbounce)) ==> StoreSeen in vs)
    && (MayDelete(cfg, o, judgedOld, size, true) ==> StoreDeleted in vs)
  }

  /** A message that counts towards the fetch limit: its headers were fetched, and it was not retained. */
  predicate TakesIn(o: Outcome, vs: seq<Verb>) {
    FetchHeaders in vs && o.headers.status == PS_SUCCESS && o.readHeaders != PS_RETAINED
  }

  /** How many of the first `n` messages count. */
  ghost function TakenIn(outcomes: nat -> Outcome, sent: seq<Command>, n: nat): nat {
    if n == 0 then 0 else TakenIn(outcomes, sent, n - 1) + if TakesIn(outcomes(n), About(sent, n)) then 1 else 0
  }

  lemma {:induction false} TakenInBefore(outcomes: nat -> Outcome, before: seq<Command>, after: seq<Command>, num: nat,
                                         vs: seq<Verb>, n: nat)
    requires Adds(before, after, num, vs) && n < num
    ensures TakenIn(outcomes, after, n) == TakenIn(outcomes, before, n)
    decreases n
  {
    hide About, TakesIn;
    if n > 0 {
      TakenInBefore(outcomes, before, after, num, vs, n - 1);
      assert About(after, n) == About(before, n) + [] && About(before, n) + [] == About(before, n);
    }
  }

  /** Messages that nothing was said about do not count. */
  lemma {:induction false} TakenInRest(outcomes: nat -> Outcome, sent: seq<Command>, num: nat, n: nat)
    requires num <= n && Unspoken(sent, num + 1)
    ensures TakenIn(outcomes, sent, n) == TakenIn(outcomes, sent, num)
    decreases n
  {
    hide About;
    if n > num {
      TakenInRest(outcomes, sent, num, n - 1);
      assert About(sent, n) == [];
    }
  }

  lemma TakenInNext(outcomes: nat -> Outcome, before: seq<Command>, after: seq<Command>, num: nat, vs: seq<Verb>)
    requires Adds(before, after, num, vs) && num > 0 && Unspoken(before, num)
    ensures TakenIn(outcomes, after, num) == TakenIn(outcomes, before, num - 1) + if TakesIn(outcomes(num), vs) then 1
      else 0
  {
    hide About, TakesIn;
    TakenInBefore(outcomes, before, after, num, vs, num - 1);
    assert About(after, num) == [] + vs && [] + vs == vs;
  }

  /** What was said about all messages, when those up to `done` have been handled. */
  ghost predicate Dialogue(cfg: Config, orig: seq<Msg>, outcomes: nat -> Outcome, unseen: seq<nat>, sized: bool,
                           sent: seq<Command>, done: nat) {
    forall k: nat | 1 <= k <= |orig| ::
      && Proper(cfg, outcomes(k), JudgedOld(cfg, unseen, k), At(orig, k).size, sized, About(sent, k))
      && (sized && k <= done ==> Complete(cfg, outcomes(k), JudgedOld(cfg, unseen, k), At(orig, k).size,
        About(sent, k)))
  }

  /** Nothing was said yet about the messages from `num` on. */
  ghost predicate Unspoken(sent: seq<Command>, num: nat) {
    forall k: nat | k >= num :: About(sent, k) == []
  }

  lemma DialogueNext(cfg: Config, orig: seq<Msg>, outcomes: nat -> Outcome, unseen: seq<nat>, sized: bool,
                     before: seq<Command>, after: seq<Command>, num: nat, vs: seq<Verb>)
    requires 1 <= num <= |orig| && Dialogue(cfg, orig, outcomes, unseen, sized, before, num - 1) &&
      Unspoken(before, num)
    requires Adds(before, after, num, vs)
    requires Proper(cfg, outcomes(num), JudgedOld(cfg, unseen, num), At(orig, num).size, sized, vs)
    ensures Dialogue(cfg, orig, outcomes, unseen, sized, after, num - 1) && Unspoken(after, num + 1)
    ensures (sized ==> Complete(cfg, outcomes(num), JudgedOld(cfg, unseen, num), At(orig, num).size, vs)) ==>
              Dialogue(cfg, orig, outcomes, unseen, sized, after, num)
  {
    hide Proper, Complete;
    forall k: nat
      ensures k != num ==> About(after, k) == About(before, k)
      ensures About(after, num) == vs
    {
      assert About(after, k) == About(before, k) + if k == num then vs else [];
      assert About(after, num) == About(before, num) + vs;
    }
  }

  lemma NothingSaid(cfg: Config, orig: seq<Msg>, outcomes: nat -> Outcome, unseen: seq<nat>, sized: bool)
    ensures Dialogue(cfg, orig, outcomes, unseen, sized, [], 0) && Unspoken([], 1) && Told([]) == {} &&
      OnTarget([], orig)
  {
  }

  lemma NoneDone(cfg: Config, orig: seq<Msg>, outcomes: nat -> Outcome, unseen: seq<nat>, sized: bool,
                 sent: seq<Command>, done: nat)
    requires Dialogue(cfg, orig, outcomes, unseen, sized, sent, done)
    ensures Dialogue(cfg, orig, outcomes, unseen, sized, sent, 0)
  {
    hide Proper, Complete;
  }

  /** What must have gone before a STORE \Deleted. */
  lemma ProperlyDeleted(cfg: Config, o: Outcome, judgedOld: bool, size: nat, sized: bool, vs: seq<Verb>)
    requires Proper(cfg, o, judgedOld, size, sized, vs) && StoreDeleted in vs
    ensures Deletes(cfg, o, judgedOld, size, vs) && (sized ==> MayDelete(cfg, o, judgedOld, size, true))
  {
    hide Accepted, Refused;
  }

  /** The message a STORE \Deleted was sent about. */
  lemma ToldIs(sent: seq<Command>, orig: seq<Msg>, uid: nat) returns (k: nat)
    requires uid in Told(sent) && OnTarget(sent, orig)
    ensures 1 <= k <= |orig| && At(orig, k).uid == uid && StoreDeleted in About(sent, k)
  {
    var c :| c in sent && c.verb == StoreDeleted && c.target == uid;
    SentAbout(sent, c);
    k := c.num;
  }

  /** Of the messages before `num`, those there is a reason to delete are flagged. */
  ghost predicate Marked(cfg: Config, orig: seq<Msg>, outcomes: nat -> Outcome, unseen: seq<nat>, num: nat,
    marked: set<nat>)
    requires num <= |orig| + 1
  {
    forall k | 1 <= k < num && MayDelete(cfg, outcomes(k), JudgedOld(cfg, unseen, k), At(orig, k).size, true) ::
      At(orig, k).uid in marked
  }

  lemma MarkedNext(cfg: Config, orig: seq<Msg>, outcomes: nat -> Outcome, unseen: seq<nat>, num: nat,
                   marked: set<nat>, more: set<nat>)
    requires 1 <= num <= |orig| && Marked(cfg, orig, outcomes, unseen, num, marked) && marked <= more
    requires MayDelete(cfg, outcomes(num), JudgedOld(cfg, unseen, num), At(orig, num).size, true) ==>
      At(orig, num).uid in more
    ensures Marked(cfg, orig, outcomes, unseen, num + 1, more)
  {
  }

  lemma NoneMarked(cfg: Config, orig: seq<Msg>, outcomes: nat -> Outcome, unseen: seq<nat>, marked: set<nat>)
    ensures Marked(cfg, orig, outcomes, unseen, 1, marked)
  {
  }

  /** Every command was for the message meant. */
  ghost predicate OnTarget(sent: seq<Command>, orig: seq<Msg>) {
    forall i | 0 <= i < |sent| :: 1 <= sent[i].num <= |orig| && sent[i].target == At(orig, sent[i].num).uid
  }

  /** `sizes` holds, for the messages from `first` to `last`, their sizes or 0. */
  ghost predicate Window(sizes: seq<nat>, orig: seq<Msg>, first: nat, last: nat) {
    && 1 <= first && last <= |orig| && last - first < |sizes|
    && forall i | 0 <= i <= last - first :: sizes[i] == 0 || sizes[i] == At(orig, first + i).size
  }

  lemma OnTargetNext(sent: seq<Command>, orig: seq<Msg>, c: Command)
    requires OnTarget(sent, orig) && 1 <= c.num <= |orig| && c.target == At(orig, c.num).uid
    ensures OnTarget(sent + [c], orig)
  {
  }

  lemma ReadyMore(s: Session, orig: seq<Msg>, num: nat, mine: set<nat>, more: set<nat>)
    requires s.Ready(orig, num, mine) && mine <= more
    ensures s.Ready(orig, num, more)
  {
  }

  lemma NextMessage(s: Session, orig: seq<Msg>, num: nat, mine: set<nat>)
    requires s.Ready(orig, num, mine) && num <= |orig|
    ensures s.Ready(orig, num + 1, mine)
  {
    SyncNext(s.mailbox, orig, num, s.expunged, s.deletions);
  }

  /** What happened to a message before "flagthemail". */
  datatype Handling = Handling(err: int, skipped: bool, suppressForward: bool, suppressDelete: bool, retained: bool,
                               dispatched: bool, transient: nat)

  /** Nothing goes wrong with the message. */
  predicate Smooth(o: Outcome) {
    && o.sizes.status == PS_SUCCESS && o.headers.status == PS_SUCCESS && o.readHeaders == PS_SUCCESS
    && o.trailer == PS_SUCCESS && o.body.status == PS_SUCCESS && o.readBody == PS_SUCCESS
    && o.bodyTrailer == PS_SUCCESS && o.store.status == PS_SUCCESS
  }

  /** Something fails with the code that stands for the fetch limit. */
  predicate SaysLimit(o: Outcome) {
    || o.sizes.status == PS_MAXFETCH || o.headers.status == PS_MAXFETCH || o.readHeaders == PS_MAXFETCH
    || o.trailer == PS_MAXFETCH || o.body.status == PS_MAXFETCH || o.readBody == PS_MAXFETCH
    || o.bodyTrailer == PS_MAXFETCH || o.store.status == PS_MAXFETCH || o.expunge.status == PS_MAXFETCH
  }

  ghost predicate NoneSaysLimit(outcomes: nat -> Outcome, count: nat) {
    forall k: nat | 1 <= k <= count :: !SaysLimit(outcomes(k))
  }

  ghost predicate AllSmooth(outcomes: nat -> Outcome, count: nat) {
    forall k: nat | 1 <= k <= count :: Smooth(outcomes(k))
  }

  /** The delivery part of fetch_messages for a message that is neither old nor too large. */
  method Deliver(s: Session, num: nat, o: Outcome, ghost orig: seq<Msg>, ghost mine: set<nat>)
    returns (h: Handling, ghost vs: seq<Verb>)
    requires s.Ready(orig, num, mine) && num <= |orig| && OnTarget(s.sent, orig)
    modifies s`sent, s`mailbox, s`nextUid, s`count, s`recentcount, s`oldcount, s`actualDeletions
    ensures s.Ready(orig, num, mine) && OnTarget(s.sent, orig)
    ensures Adds(old(s.sent), s.sent, num, vs) && Told(s.sent) == Told(old(s.sent)) && Reads(o, vs)
    ensures h.err == PS_SUCCESS ==> (FetchBody in vs <==> o.headers.status == PS_SUCCESS && o.readHeaders == PS_SUCCESS)
    ensures h.err == PS_SUCCESS && !h.skipped ==> (!h.suppressDelete <==> Accepted(o) || Refused(o))
    ensures h.err == PS_SUCCESS && !h.skipped && !h.suppressDelete ==>
      !h.retained && (h.suppressForward <==> Refused(o))
    ensures h.skipped ==> h.err == PS_SUCCESS && !Accepted(o) && !Refused(o) && o.headers.status != PS_SUCCESS
    ensures h.err == PS_SUCCESS && !h.skipped ==>
              o.headers.status == PS_SUCCESS && (h.retained <==> o.readHeaders == PS_RETAINED)
    ensures Smooth(o) ==> h.err == PS_SUCCESS && !h.skipped
    ensures h.err == PS_MAXFETCH ==> SaysLimit(o)
    ensures h.err == PS_SUCCESS && !h.skipped && !h.suppressForward ==>
              o.headers.status == PS_SUCCESS && o.readHeaders == PS_SUCCESS && o.readBody == PS_SUCCESS
  {
    hide Evolved, Safe, Told, Adds;
    var suppressForward, suppressDelete, retained, transient := false, false, false, 0;
    vs := [FetchHeaders];
    AddsOne(s.sent, Command(FetchHeaders, num, num - s.expunged, At(orig, num).uid));
    var err := s.Fetch(FetchHeaders, num, o.headers, orig, mine);
    if err == PS_TRANSIENT {
      return Handling(PS_SUCCESS, true, false, false, false, false, 1), vs;
    } else if err != PS_SUCCESS {
      return Handling(err, false, false, false, false, false, transient), vs;
    }
    err := o.readHeaders;
    if err == PS_RETAINED {
      suppressForward, suppressDelete, retained := true, true, true;
    } else if err == PS_TRANSIENT {
      suppressForward, suppressDelete := true, true;
      transient := transient + 1;
    } else if err == PS_REFUSED {
      suppressForward := true;
    } else if err != PS_SUCCESS {
      return Handling(err, false, false, false, false, false, transient), vs;
    }
    if o.trailer != PS_SUCCESS {
      return Handling(o.trailer, false, false, false, false, false, transient), vs;
    }
    if !suppressForward {
      ghost var asked := s.sent;
      AddsOne(s.sent, Command(FetchBody, num, num - s.expunged, At(orig, num).uid));
      err := s.Fetch(FetchBody, num, o.body, orig, mine);
      AddsMore(old(s.sent), asked, s.sent, num, [FetchHeaders], [FetchBody]);
      vs := [FetchHeaders, FetchBody];
      assert [FetchHeaders] + [FetchBody] == vs;
      if err != PS_SUCCESS {
        return Handling(err, false, false, false, false, false, transient), vs;
      }
      err := o.readBody;
      if err == PS_TRANSIENT {
        suppressDelete, suppressForward := true, true;
        transient := transient + 1;
      } else if err != PS_SUCCESS {
        return Handling(err, false, false, false, false, false, transient), vs;
      }
      if o.bodyTrailer != PS_SUCCESS {
        return Handling(o.bodyTrailer, false, false, false, false, false, transient), vs;
      }
    }
    var dispatched := !suppressForward;
    if !o.sink {
      suppressDelete := true;
    }
    h := Handling(PS_SUCCESS, false, suppressForward, suppressDelete, retained, dispatched, transient);
  }

  /** What is known about message `num` at "flagthemail". */
  ghost predicate Decided(cfg: Config, o: Outcome, judgedOld: bool, size: nat, sized: bool, msgcode: int,
                          suppressForward: bool, suppressDelete: bool, retained: bool) {
    if msgcode == MSGLEN_OLD then judgedOld && !suppressForward && !suppressDelete && !retained
    else if msgcode == MSGLEN_TOOLARGE then
      && !judgedOld && 0 < cfg.limit < size
      && !suppressForward && (suppressDelete <==> !cfg.limitflush) && !retained
    else
      && msgcode >= 0 && !judgedOld && (sized ==> !(0 < cfg.limit < size))
      && (!suppressDelete <==> Accepted(o) || Refused(o))
      && (!suppressDelete ==> !retained && (suppressForward <==> Refused(o)))
  }

  /** A message that has only been read. */
  lemma ReadOnly(cfg: Config, o: Outcome, size: nat, sized: bool, vs: seq<Verb>, skipped: bool)
    requires vs == [] || (Reads(o, vs) && (sized ==> !(0 < cfg.limit < size)))
    requires skipped ==> vs != [] && !Accepted(o) && !Refused(o) && ReadBy(o, MSGLEN_UNKNOWN, vs)
    ensures Proper(cfg, o, false, size, sized, vs) && StoreDeleted !in vs
    ensures skipped && sized ==> Complete(cfg, o, false, size, vs)
  {
  }

  /** What the fetch loop keeps: `deletions` messages were deleted successfully so far, and only what the server
      was told to delete may go. */
  ghost predicate Going(s: Session, orig: seq<Msg>, num: nat, deletions: nat)
    reads s
  {
    && s.Ready(orig, num, Told(s.sent)) && OnTarget(s.sent, orig) && s.expunged + s.deletions == deletions
    && (s.expungePeriod > 0 ==> s.deletions < s.expungePeriod) && (deletions == 0 ==> s.log.marked == {})
  }

  /** delete_msg */
  method DeleteMessage(s: Session, num: nat, o: Outcome, ghost orig: seq<Msg>, ghost deletions: nat) returns (err: int)
    requires Going(s, orig, num, deletions) && num <= |orig|
    modifies s`sent, s`mailbox, s`nextUid, s`count, s`recentcount, s`oldcount, s`actualDeletions
    modifies s`deletions, s`expunged, s`log
    ensures s.Tracks() && Safe(s.mailbox, orig, Told(s.sent) + Flagged(orig)) && OnTarget(s.sent, orig) &&
      s.log.start == orig
    ensures err == PS_SUCCESS ==> Going(s, orig, num + 1, deletions + 1) && At(orig, num).uid in s.log.marked
    ensures Adds(old(s.sent), s.sent, num, [StoreDeleted]) && old(s.log).marked <= s.log.marked
    ensures o.store.status == PS_SUCCESS && s.expungePeriod <= 0 ==> err == PS_SUCCESS
    ensures err == PS_MAXFETCH ==> SaysLimit(o)
  {
    assert num > 0;
    hide InSync, Safe, Evolved, Told, Adds, OnTarget, Flagged;
    ghost var mine, c := Told(s.sent), Command(StoreDeleted, num, num - s.expunged, At(orig, num).uid);
    ReadyMore(s, orig, num, mine, mine + {At(orig, num).uid});
    OnTargetNext(s.sent, orig, c);
    AddsOne(s.sent, c);
    err := s.Delete(num, o.store, o.expunge, orig, mine + {At(orig, num).uid});
  }

  /** mark_seen */
  method MarkMessage(s: Session, num: nat, o: Outcome, ghost orig: seq<Msg>, ghost deletions: nat) returns (err: int)
    requires Going(s, orig, num, deletions) && num <= |orig|
    modifies s`sent, s`mailbox, s`nextUid, s`count, s`recentcount, s`oldcount, s`actualDeletions
    ensures Going(s, orig, num + 1, deletions) && Adds(old(s.sent), s.sent, num, [StoreSeen]) && err == o.store.status
  {
    assert num > 0;
    hide InSync, Safe, Evolved, Told, Adds, OnTarget, Flagged;
    ghost var c := Command(StoreSeen, num, num - s.expunged, At(orig, num).uid);
    OnTargetNext(s.sent, orig, c);
    AddsOne(s.sent, c);
    err := s.MarkSeen(num, o.store, orig, Told(s.sent));
    NextMessage(s, orig, num, Told(s.sent));
  }

  /** The end of the loop body, from "flagthemail" on: what is sent last about the message. */
  method FlagTheMail(s: Session, cfg: Config, num: nat, o: Outcome, msgcode: int, suppressForward: bool,
                     suppressed: bool, retained: bool, ghost orig: seq<Msg>, ghost judgedOld: bool, ghost sized: bool,
                     before: nat)
    returns (err: int, deletions: nat, ghost ws: seq<Verb>)
    requires Going(s, orig, num, before) && num <= |orig|
    requires Decided(cfg, o, judgedOld, At(orig, num).size, sized, msgcode, suppressForward, suppressed, retained)
    modifies s`sent, s`mailbox, s`nextUid, s`count, s`recentcount, s`oldcount, s`actualDeletions
    modifies s`deletions, s`expunged, s`log
    ensures s.Tracks() && Safe(s.mailbox, orig, Told(s.sent) + Flagged(orig)) && OnTarget(s.sent, orig) &&
      s.log.start == orig
    ensures err == PS_SUCCESS ==> Going(s, orig, num + 1, deletions)
    ensures Adds(old(s.sent), s.sent, num, ws) && (ws == [] || ws == [StoreDeleted] || ws == [StoreSeen])
    ensures deletions == before + if ws == [StoreDeleted] then 1 else 0
    ensures ws == [StoreDeleted] <==>
              if msgcode == MSGLEN_OLD then cfg.flush
              else if msgcode == MSGLEN_TOOLARGE then cfg.limitflush
              else !cfg.keep && (Accepted(o) || (Refused(o) && !cfg.softbounce))
    ensures ws == [StoreSeen] <==> msgcode >= 0 && cfg.keep && (Accepted(o) || (Refused(o) && !cfg.softbounce))
    ensures err == PS_SUCCESS && deletions != before ==> At(orig, num).uid in s.log.marked
    ensures old(s.log).marked <= s.log.marked
    ensures o.store.status == PS_SUCCESS && s.expungePeriod <= 0 ==> err == PS_SUCCESS
    ensures err == PS_MAXFETCH ==> SaysLimit(o)
  {
    assert num > 0;
    hide InSync, Safe, Evolved, Told, Adds, OnTarget, Flagged;
    err, deletions, ws := PS_SUCCESS, before, [];
    AddsNone(s.sent, num);
    var suppressDelete := suppressed;
    if suppressForward {
      suppressDelete := suppressDelete || cfg.softbounce;
    }
    if retained {
      NextMessage(s, orig, num, Told(s.sent));
    } else if !suppressDelete
              && ((msgcode >= 0 && !cfg.keep)
                  || (msgcode == MSGLEN_OLD && cfg.flush)
                  || (msgcode == MSGLEN_TOOLARGE && cfg.limitflush)) {
      deletions, ws := deletions + 1, [StoreDeleted];
      err := DeleteMessage(s, num, o, orig, before);
    } else {
      if !suppressDelete && msgcode >= 0 && cfg.keep {
        ws := [StoreSeen];
        err := MarkMessage(s, num, o, orig, before);
      } else {
        NextMessage(s, orig, num, Told(s.sent));
      }
    }
  }

  /** Gets the sizes of the next messages, at most `fetchsizelimit` of them. */
  method Refill(s: Session, cfg: Config, num: nat, count: nat, o: Outcome, msgsizes: array<nat>,
                ghost orig: seq<Msg>, ghost deletions: nat)
    returns (err: int, lastnum: nat)
    requires Going(s, orig, num, deletions) && num <= count == |orig|
    requires 0 < cfg.fetchsizelimit == msgsizes.Length
    modifies s`mailbox, s`nextUid, s`count, s`recentcount, s`oldcount, s`actualDeletions, msgsizes
    ensures Going(s, orig, num, deletions)
    ensures num <= lastnum <= count && Window(msgsizes[..], orig, num, lastnum) && err == o.sizes.status
  {
    lastnum := num + cfg.fetchsizelimit - 1;
    if lastnum > count {
      lastnum := count;
    }
    for i := 0 to cfg.fetchsizelimit
      invariant forall j | 0 <= j < i :: msgsizes[j] == 0
      modifies msgsizes
    {
      msgsizes[i] := 0;
    }
    err := s.GetPartialSizes(num, lastnum, msgsizes, o.answered, o.bogus, o.sizes, orig, Told(s.sent));
  }

  /** Every size is known. */
  ghost predicate AllSizes(sizes: seq<nat>, orig: seq<Msg>) {
    |sizes| >= |orig| && forall k | 1 <= k <= |orig| :: sizes[k - 1] == At(orig, k).size
  }

  /** The server answers for every message. */
  ghost predicate Answers(answered: seq<int>, count: nat) {
    forall k: nat | 1 <= k <= count :: k in answered
  }

  /** The state of the window of known sizes. */
  ghost predicate Windowed(cfg: Config, msgsizes: array<nat>, orig: seq<Msg>, num: nat, firstnum: nat, lastnum: nat)
    reads msgsizes
  {
    && (cfg.fetchsizelimit > 0 ==> msgsizes.Length == cfg.fetchsizelimit)
    && (cfg.fetchsizelimit <= 0 ==> lastnum == |orig|)
    && (lastnum > 0 ==> firstnum <= num && Window(msgsizes[..], orig, firstnum, lastnum))
  }

  lemma FromWindow(sizes: seq<nat>, orig: seq<Msg>, first: nat, last: nat, num: nat)
    requires Window(sizes, orig, first, last) && first <= num <= last
    ensures num - first < |sizes| && (sizes[num - first] == 0 || sizes[num - first] == At(orig, num).size)
    ensures first == 1 && AllSizes(sizes, orig) ==> sizes[num - first] == At(orig, num).size
  {
  }

  /** The size of message `num`, as far as it is known, from the window or from a new one. */
  method SizeOf(s: Session, cfg: Config, num: nat, count: nat, o: Outcome, msgsizes: array<nat>, first: nat, last: nat,
                ghost orig: seq<Msg>, ghost deletions: nat)
    returns (err: int, firstnum: nat, lastnum: nat, msgsize: nat)
    requires Going(s, orig, num, deletions) && num <= count == |orig|
    requires Windowed(cfg, msgsizes, orig, num, first, last)
    modifies s`mailbox, s`nextUid, s`count, s`recentcount, s`oldcount, s`actualDeletions, msgsizes
    ensures Going(s, orig, num, deletions)
    ensures err == PS_SUCCESS ==> Windowed(cfg, msgsizes, orig, num, firstnum, lastnum)
    ensures err == PS_SUCCESS ==> msgsize == 0 || msgsize == At(orig, num).size
    ensures err == PS_SUCCESS || err == o.sizes.status
    ensures cfg.fetchsizelimit <= 0 ==> firstnum == first && msgsizes[..] == old(msgsizes[..])
    ensures cfg.fetchsizelimit <= 0 && first == 1 && AllSizes(old(msgsizes[..]), orig) ==> msgsize == At(orig, num).size
  {
    assert num > 0;
    hide Going, Answers, Told, Window, AllSizes, OnTarget, InSync, Safe, Evolved;
    err, firstnum, lastnum, msgsize := PS_SUCCESS, first, last, 0;
    if cfg.fetchsizelimit > 0 && lastnum < num {
      firstnum := num;
      err, lastnum := Refill(s, cfg, num, count, o, msgsizes, orig, deletions);
    }
    if err == PS_SUCCESS {
      FromWindow(msgsizes[..], orig, firstnum, lastnum, num);
      msgsize := msgsizes[num - firstnum];
    }
  }

  /** Allocates msgsizes; without a limit on the window it gets all sizes at once. */
  method InitSizes(s: Session, cfg: Config, allSizes: Reply, allAnswered: seq<int>, ghost orig: seq<Msg>, count: nat)
    returns (err: int, msgsizes: array<nat>, lastnum: nat)
    requires Going(s, orig, 1, 0) && count == |orig|
    modifies s`mailbox, s`nextUid, s`count, s`recentcount, s`oldcount, s`actualDeletions
    ensures Going(s, orig, 1, 0) && fresh(msgsizes)
    ensures err == PS_SUCCESS ==> Windowed(cfg, msgsizes, orig, 1, 1, lastnum)
    ensures err == PS_SUCCESS || err == allSizes.status
    ensures cfg.fetchsizelimit <= 0 && Answers(allAnswered, count) ==> AllSizes(msgsizes[..], orig)
  {
    err, lastnum := PS_SUCCESS, 0;
    if cfg.fetchsizelimit > 0 {
      msgsizes := new nat[cfg.fetchsizelimit];
    } else {
      msgsizes := new nat[count](_ => 0);
      err := s.GetPartialSizes(1, count, msgsizes, allAnswered, 0, allSizes, orig, Told(s.sent));
      lastnum := count;
    }
  }

  /** The size check and, if the message passes it, the delivery. */
  method Process(s: Session, cfg: Config, num: nat, o: Outcome, msgsize: nat,
                 ghost orig: seq<Msg>, ghost deletions: nat, ghost sized: bool)
    returns (msgcode: int, h: Handling, ghost vs: seq<Verb>)
    requires Going(s, orig, num, deletions) && num <= |orig|
    requires msgsize == 0 || msgsize == At(orig, num).size
    requires sized ==> msgsize == At(orig, num).size
    modifies s`sent, s`mailbox, s`nextUid, s`count, s`recentcount, s`oldcount, s`actualDeletions
    ensures if h.err == PS_SUCCESS && h.skipped then Going(s, orig, num + 1, deletions)
            else Going(s, orig, num, deletions)
    ensures h.err == PS_SUCCESS && !h.skipped ==>
              Decided(cfg, o, false, At(orig, num).size, sized, msgcode, h.suppressForward, h.suppressDelete,
                h.retained)
    ensures h.skipped ==> h.err == PS_SUCCESS && !Accepted(o) && !Refused(o) && vs != [] && msgcode == MSGLEN_UNKNOWN
    ensures h.err == PS_SUCCESS ==> TakesIn(o, vs) == (msgcode >= 0 && !h.skipped && !h.retained)
    ensures Adds(old(s.sent), s.sent, num, vs) && Told(s.sent) == Told(old(s.sent))
    ensures vs == [] || (Reads(o, vs) && (sized ==> !(0 < cfg.limit < At(orig, num).size)))
    ensures h.err == PS_SUCCESS ==> ReadBy(o, msgcode, vs)
    ensures Smooth(o) ==> h.err == PS_SUCCESS && !h.skipped
    ensures h.err == PS_MAXFETCH ==> SaysLimit(o)
  {
    hide InSync, Safe, Evolved, Told, Adds;
    msgcode, vs := MSGLEN_UNKNOWN, [];
    AddsNone(s.sent, num);
    if cfg.limit > 0 && msgsize > cfg.limit {
      msgcode := MSGLEN_TOOLARGE;
    }
    if msgcode < 0 {
      h := Handling(PS_SUCCESS, false, false, !cfg.limitflush, false, false, 0);
    } else {
      h, vs := Deliver(s, num, o, orig, Told(s.sent));
      if h.skipped {
        NextMessage(s, orig, num, Told(s.sent));
      }
    }
  }

  lemma SmoothSizes(o: Outcome)
    ensures Smooth(o) ==> o.sizes.status == PS_SUCCESS
    ensures o.sizes.status == PS_MAXFETCH ==> SaysLimit(o)
  {
  }

  /** What is known of a message when it comes to "flagthemail", or is done with before. */
  ghost predicate Inspected(cfg: Config, o: Outcome, judgedOld: bool, size: nat, sized: bool, msgcode: int, h: Handling,
                            vs: seq<Verb>) {
    && StoreDeleted !in vs
    && (h.err == PS_SUCCESS && !h.skipped ==>
          Decided(cfg, o, judgedOld, size, sized, msgcode, h.suppressForward, h.suppressDelete, h.retained) &&
            ReadBy(o, msgcode, vs))
    && (h.err != PS_SUCCESS || h.skipped ==> Proper(cfg, o, judgedOld, size, sized, vs))
    && (h.err == PS_SUCCESS && h.skipped && sized ==> Complete(cfg, o, judgedOld, size, vs))
    && (h.err == PS_SUCCESS ==> TakesIn(o, vs) == (msgcode >= 0 && !h.skipped && !h.retained))
  }

  /** An old message. */
  lemma OldInspected(cfg: Config, o: Outcome, size: nat, sized: bool, h: Handling)
    requires h == Handling(PS_SUCCESS, false, false, false, false, false, 0)
    ensures Inspected(cfg, o, true, size, sized, MSGLEN_OLD, h, [])
  {
  }

  /** One that is not. */
  lemma NewInspected(cfg: Config, o: Outcome, size: nat, sized: bool, msgcode: int, h: Handling, vs: seq<Verb>)
    requires vs == [] || (Reads(o, vs) && (sized ==> !(0 < cfg.limit < size)))
    requires h.err == PS_SUCCESS ==> ReadBy(o, msgcode, vs) && TakesIn(o, vs) == (msgcode >= 0 && !h.skipped && !h.retained)
    requires h.err == PS_SUCCESS && !h.skipped ==>
               Decided(cfg, o, false, size, sized, msgcode, h.suppressForward, h.suppressDelete, h.retained)
    requires h.skipped ==> h.err == PS_SUCCESS && !Accepted(o) && !Refused(o) && vs != [] && msgcode == MSGLEN_UNKNOWN
    ensures Inspected(cfg, o, false, size, sized, msgcode, h, vs)
  {
    hide Decided, TakesIn;
    ReadOnly(cfg, o, size, sized, vs, h.err == PS_SUCCESS && h.skipped);
  }

  /** One that came to "flagthemail". */
  lemma InTheEnd(cfg: Config, o: Outcome, judgedOld: bool, size: nat, sized: bool, msgcode: int, h: Handling,
                 vs: seq<Verb>, ws: seq<Verb>)
    requires Inspected(cfg, o, judgedOld, size, sized, msgcode, h, vs) && h.err == PS_SUCCESS && !h.skipped
    requires ws == [] || ws == [StoreDeleted] || ws == [StoreSeen]
    requires ws == [StoreDeleted] <==>
               if msgcode == MSGLEN_OLD then cfg.flush
               else if msgcode == MSGLEN_TOOLARGE then cfg.limitflush
               else !cfg.keep && (Accepted(o) || (Refused(o) && !cfg.softbounce))
    requires ws == [StoreSeen] <==> msgcode >= 0 && cfg.keep && (Accepted(o) || (Refused(o) && !cfg.softbounce))
    ensures Proper(cfg, o, judgedOld, size, sized, vs + ws)
    ensures sized ==> Complete(cfg, o, judgedOld, size, vs + ws)
    ensures StoreDeleted in vs + ws ==> ws == [StoreDeleted]
    ensures TakesIn(o, vs + ws) == TakesIn(o, vs)
  {
    assert Accepted(o) ==> vs == [] || vs == [FetchHeaders, FetchBody];
    assert [FetchHeaders, FetchBody] + ws == if ws == [] then [FetchHeaders, FetchBody]
      else [FetchHeaders, FetchBody, ws[0]];
    assert [FetchHeaders] + ws == if ws == [] then [FetchHeaders] else [FetchHeaders, ws[0]];
  }

  /** One message, up to "flagthemail". */
  method Inspect(s: Session, cfg: Config, num: nat, count: nat, o: Outcome, msgsizes: array<nat>,
                 first: nat, last: nat, ghost orig: seq<Msg>, ghost deletions: nat, ghost sized: bool)
    returns (firstnum: nat, lastnum: nat, msgcode: int, msgsize: nat, h: Handling, ghost vs: seq<Verb>)
    requires Going(s, orig, num, deletions) && num <= count == |orig|
    requires Windowed(cfg, msgsizes, orig, num, first, last)
    requires sized ==> cfg.fetchsizelimit <= 0 && first == 1 && AllSizes(msgsizes[..], orig)
    modifies s`sent, s`mailbox, s`nextUid, s`count, s`recentcount, s`oldcount, s`actualDeletions, msgsizes
    ensures Going(s, orig, if h.err == PS_SUCCESS && h.skipped then num + 1 else num, deletions)
    ensures h.err == PS_SUCCESS ==> Windowed(cfg, msgsizes, orig, num, firstnum, lastnum)
    ensures cfg.fetchsizelimit <= 0 ==> firstnum == first && msgsizes[..] == old(msgsizes[..])
    ensures msgsize == 0 || msgsize == At(orig, num).size
    ensures Adds(old(s.sent), s.sent, num, vs)
    ensures Inspected(cfg, o, JudgedOld(cfg, s.unseen, num), At(orig, num).size, sized, msgcode, h, vs)
    ensures Smooth(o) ==> h.err == PS_SUCCESS && !h.skipped
    ensures h.err == PS_MAXFETCH ==> SaysLimit(o)
  {
    assert num > 0;
    hide InSync, Safe, Evolved, Told, Adds, Accepted, Refused, MayDelete, OnTarget, Reads, TakesIn, Smooth, Decided,
      ReadBy;
    hide Inspected, Going, SaysLimit;
    SmoothSizes(o);
    firstnum, lastnum, msgsize, msgcode, vs := first, last, 0, MSGLEN_UNKNOWN, [];
    h := Handling(PS_SUCCESS, false, false, false, false, false, 0);
    AddsNone(s.sent, num);
    if !cfg.fetchall && !cfg.forceRetrieval {
      var judgedOld := s.IsOld(num);
      if judgedOld {
        msgcode := MSGLEN_OLD;
      }
    }
    if msgcode == MSGLEN_OLD {
      OldInspected(cfg, o, At(orig, num).size, sized, h);
    } else {
      var err;
      err, firstnum, lastnum, msgsize := SizeOf(s, cfg, num, count, o, msgsizes, firstnum, lastnum, orig, deletions);
      if err != PS_SUCCESS {
        h, msgsize := h.(err := err), 0;
      } else {
        msgcode, h, vs := Process(s, cfg, num, o, msgsize, orig, deletions, sized);
      }
      NewInspected(cfg, o, At(orig, num).size, sized, msgcode, h, vs);
    }
  }

  /** One message, from the check whether it is old to its deletion. */
  method HandleMessage(s: Session, cfg: Config, num: nat, count: nat, o: Outcome, msgsizes: array<nat>,
                       first: nat, last: nat, before: nat, ghost orig: seq<Msg>, ghost sized: bool)
    returns (err: int, firstnum: nat, lastnum: nat, deletions: nat, msgcode: int, msgsize: nat, h: Handling,
             ghost vs: seq<Verb>)
    requires Going(s, orig, num, before) && num <= count == |orig|
    requires Windowed(cfg, msgsizes, orig, num, first, last)
    requires sized ==> cfg.fetchsizelimit <= 0 && first == 1 && AllSizes(msgsizes[..], orig)
    modifies s`sent, s`mailbox, s`nextUid, s`count, s`recentcount, s`oldcount, s`actualDeletions
    modifies s`deletions, s`expunged, s`log, msgsizes
    ensures s.Tracks() && Safe(s.mailbox, orig, Told(s.sent) + Flagged(orig)) && OnTarget(s.sent, orig) &&
      s.log.start == orig
    ensures err == PS_SUCCESS ==> Going(s, orig, num + 1, deletions)
    ensures err == PS_SUCCESS ==> Windowed(cfg, msgsizes, orig, num + 1, firstnum, lastnum)
    ensures Adds(old(s.sent), s.sent, num, vs)
    ensures Proper(cfg, o, JudgedOld(cfg, s.unseen, num), At(orig, num).size, sized, vs)
    ensures err == PS_SUCCESS && sized ==> Complete(cfg, o, JudgedOld(cfg, s.unseen, num), At(orig, num).size, vs)
    ensures err == PS_SUCCESS && StoreDeleted in vs ==> At(orig, num).uid in s.log.marked
    ensures err == PS_SUCCESS ==> TakesIn(o, vs) == (msgcode >= 0 && !h.skipped && !h.retained)
    ensures msgsize == 0 || msgsize == At(orig, num).size
    ensures Smooth(o) && s.expungePeriod <= 0 ==> err == PS_SUCCESS
    ensures err == PS_MAXFETCH ==> SaysLimit(o)
    ensures cfg.fetchsizelimit <= 0 ==> firstnum == first && msgsizes[..] == old(msgsizes[..])
    ensures old(s.log).marked <= s.log.marked && deletions >= before
  {
    assert num > 0;
    hide InSync, Safe, Evolved, Told, Adds, Proper, Complete, Accepted, Refused, MayDelete, OnTarget, ReadBy, TakesIn;
    hide SaysLimit;
    deletions := before;
    firstnum, lastnum, msgcode, msgsize, h, vs :=
      Inspect(s, cfg, num, count, o, msgsizes, first, last, orig, deletions, sized);
    err := h.err;
    if err == PS_SUCCESS && !h.skipped {
      ghost var read, ws := s.sent, [];
      err, deletions, ws := FlagTheMail(s, cfg, num, o, msgcode, h.suppressForward, h.suppressDelete, h.retained, orig,
                                        JudgedOld(cfg, s.unseen, num), sized, deletions);
      AddsMore(old(s.sent), read, s.sent, num, vs, ws);
      InTheEnd(cfg, o, JudgedOld(cfg, s.unseen, num), At(orig, num).size, sized, msgcode, h, vs, ws);
      vs := vs + ws;
    }
  }

  /** The client is sure to know all sizes. */
  ghost predicate Sized(cfg: Config, answered: seq<int>, count: nat) {
    cfg.fetchsizelimit <= 0 && Answers(answered, count)
  }

  /** Every size compared was that of the message, or unknown. */
  ghost predicate Compared(compared: seq<(nat, nat)>, orig: seq<Msg>) {
    forall i | 0 <= i < |compared| :: 1 <= compared[i].0 <= |orig| &&
      (compared[i].1 == 0 || compared[i].1 == At(orig, compared[i].0).size)
  }

  lemma ComparedNext(compared: seq<(nat, nat)>, orig: seq<Msg>, num: nat, size: nat)
    requires Compared(compared, orig) && 1 <= num <= |orig| && (size == 0 || size == At(orig, num).size)
    ensures Compared(compared + [(num, size)], orig)
  {
  }

  lemma NoneCompared(orig: seq<Msg>)
    ensures Compared([], orig)
  {
  }

  lemma StartGoing(s: Session, orig: seq<Msg>)
    requires s.Ready(orig, 1, {}) && s.sent == [] && s.expunged == 0 && s.deletions == 0 && s.log.marked == {}
    ensures Going(s, orig, 1, 0)
  {
    hide InSync, Safe, Evolved;
    assert Told([]) == {};
  }

  /** What the loop keeps before message `num`. */
  ghost predicate Midway(s: Session, cfg: Config, orig: seq<Msg>, outcomes: nat -> Outcome, sized: bool, num: nat,
                         deletions: nat, fetched: nat, fetches: nat)
    requires 0 < num <= |orig| + 1
    reads s
  {
    && Going(s, orig, num, deletions)
    && Dialogue(cfg, orig, outcomes, s.unseen, sized, s.sent, num - 1) && Unspoken(s.sent, num)
    && fetches == fetched + TakenIn(outcomes, s.sent, num - 1)
    && (sized ==> Marked(cfg, orig, outcomes, s.unseen, num, s.log.marked))
  }

  lemma MidwayFirst(s: Session, cfg: Config, orig: seq<Msg>, outcomes: nat -> Outcome, sized: bool, fetched: nat)
    requires Going(s, orig, 1, 0) && s.sent == []
    ensures Midway(s, cfg, orig, outcomes, sized, 1, 0, fetched, fetched)
  {
    hide Going, Dialogue, Unspoken, Marked;
    NothingSaid(cfg, orig, outcomes, s.unseen, sized);
    NoneMarked(cfg, orig, outcomes, s.unseen, s.log.marked);
  }

  lemma MidwayMeans(s: Session, cfg: Config, orig: seq<Msg>, outcomes: nat -> Outcome, sized: bool, num: nat,
                    deletions: nat, fetched: nat, fetches: nat)
    requires 0 < num <= |orig| + 1 && Midway(s, cfg, orig, outcomes, sized, num, deletions, fetched, fetches)
    ensures Going(s, orig, num, deletions)
    ensures Dialogue(cfg, orig, outcomes, s.unseen, sized, s.sent, num - 1) && Unspoken(s.sent, num)
    ensures fetches == fetched + TakenIn(outcomes, s.sent, num - 1)
    ensures sized ==> Marked(cfg, orig, outcomes, s.unseen, num, s.log.marked)
  {
  }

  lemma GoingMeans(s: Session, orig: seq<Msg>, num: nat, deletions: nat)
    requires Going(s, orig, num, deletions)
    ensures s.Tracks() && Safe(s.mailbox, orig, Told(s.sent) + Flagged(orig)) && OnTarget(s.sent, orig) &&
      s.log.start == orig
  {
  }

  /** One more message handled. */
  lemma MidwayNext(s: Session, cfg: Config, orig: seq<Msg>, outcomes: nat -> Outcome, sized: bool, num: nat,
                   deletions: nat, fetched: nat, fetches: nat, sent: seq<Command>, marked: set<nat>, vs: seq<Verb>,
                   now: nat)
    requires 0 < num <= |orig| && Going(s, orig, num + 1, deletions)
    requires Dialogue(cfg, orig, outcomes, s.unseen, sized, sent, num - 1) && Unspoken(sent, num) &&
      Adds(sent, s.sent, num, vs)
    requires fetches == fetched + TakenIn(outcomes, sent, num - 1)
    requires sized ==> Marked(cfg, orig, outcomes, s.unseen, num, marked) && marked <= s.log.marked
    requires Proper(cfg, outcomes(num), JudgedOld(cfg, s.unseen, num), At(orig, num).size, sized, vs)
    requires sized ==> Complete(cfg, outcomes(num), JudgedOld(cfg, s.unseen, num), At(orig, num).size, vs)
    requires StoreDeleted in vs ==> At(orig, num).uid in s.log.marked
    requires now == fetches + if TakesIn(outcomes(num), vs) then 1 else 0
    ensures Midway(s, cfg, orig, outcomes, sized, num + 1, deletions, fetched, now)
  {
    hide Going, Dialogue, Unspoken, Marked, Adds, MayDelete, JudgedOld, Proper, TakesIn;
    DialogueNext(cfg, orig, outcomes, s.unseen, sized, sent, s.sent, num, vs);
    TakenInNext(outcomes, sent, s.sent, num, vs);
    if sized {
      MarkedNext(cfg, orig, outcomes, s.unseen, num, marked, s.log.marked);
    }
  }

  /** One message, and whether it counts. */
  method FetchOne(s: Session, cfg: Config, num: nat, count: nat, outcomes: nat -> Outcome, msgsizes: array<nat>,
                  first: nat, last: nat, before: nat, counted: nat, ghost fetched: nat, ghost orig: seq<Msg>,
                  ghost sized: bool)
    returns (err: int, firstnum: nat, lastnum: nat, deletions: nat, msgcode: int, msgsize: nat, h: Handling,
      fetches: nat)
    requires 0 < num <= count == |orig| && Midway(s, cfg, orig, outcomes, sized, num, before, fetched, counted)
    requires Windowed(cfg, msgsizes, orig, num, first, last)
    requires sized ==> cfg.fetchsizelimit <= 0 && first == 1 && AllSizes(msgsizes[..], orig)
    modifies s`sent, s`mailbox, s`nextUid, s`count, s`recentcount, s`oldcount, s`actualDeletions
    modifies s`deletions, s`expunged, s`log, msgsizes
    ensures err == PS_SUCCESS ==> Midway(s, cfg, orig, outcomes, sized, num + 1, deletions, fetched, fetches)
    ensures err != PS_SUCCESS ==> Dialogue(cfg, orig, outcomes, s.unseen, sized, s.sent, 0) && fetches == counted
    ensures err != PS_SUCCESS ==> fetched + TakenIn(outcomes, s.sent, count) <= counted + 1
    ensures s.Tracks() && Safe(s.mailbox, orig, Told(s.sent) + Flagged(orig)) && OnTarget(s.sent, orig) &&
      s.log.start == orig
    ensures err == PS_SUCCESS ==> Windowed(cfg, msgsizes, orig, num + 1, firstnum, lastnum)
    ensures counted <= fetches <= counted + 1 && (h.skipped ==> fetches == counted) &&
      (msgsize == 0 || msgsize == At(orig, num).size)
    ensures Smooth(outcomes(num)) && s.expungePeriod <= 0 ==> err == PS_SUCCESS
    ensures err == PS_MAXFETCH ==> SaysLimit(outcomes(num))
    ensures cfg.fetchsizelimit <= 0 ==> firstnum == first && msgsizes[..] == old(msgsizes[..])
  {
    hide InSync, Safe, Evolved, MayDelete, AllSizes, Marked, Dialogue, Proper, Unspoken, Told, Adds, TakesIn, Smooth;
    hide Windowed, OnTarget, TakenIn, Complete, JudgedOld, Going, Midway, SaysLimit;
    MidwayMeans(s, cfg, orig, outcomes, sized, num, before, fetched, counted);
    ghost var marked, sent, vs := s.log.marked, s.sent, [];
    err, firstnum, lastnum, deletions, msgcode, msgsize, h, vs :=
      HandleMessage(s, cfg, num, count, outcomes(num), msgsizes, first, last, before, orig, sized);
    fetches := counted;
    if err != PS_SUCCESS {
      DialogueNext(cfg, orig, outcomes, s.unseen, sized, sent, s.sent, num, vs);
      NoneDone(cfg, orig, outcomes, s.unseen, sized, s.sent, num - 1);
      TakenInNext(outcomes, sent, s.sent, num, vs);
      TakenInRest(outcomes, s.sent, num, count);
    } else {
      if msgcode >= 0 && !h.skipped && !h.retained {
        fetches := fetches + 1;
      }
      MidwayNext(s, cfg, orig, outcomes, sized, num, deletions, fetched, counted, sent, marked, vs, fetches);
    }
  }

  /** fetch_messages.  `compared` lists the sizes compared with the limit; `fetches` goes on from the passes before.
      If no error ended it, it went through the first `handled` messages: all, or as far as the fetch limit. */
  method FetchMessages(s: Session, cfg: Config, count: nat, outcomes: nat -> Outcome, allSizes: Reply,
                       answered: seq<int>, fetched: nat, ghost orig: seq<Msg>)
    returns (err: int, fetches: nat, dispatches: nat, deletions: nat, errcount: nat, transient: nat,
             compared: seq<(nat, nat)>, ghost handled: nat, ghost whole: bool)
    requires count == |orig| && s.expunged == 0 && s.deletions == 0 && s.log.marked == {} && s.sent == []
    requires s.Ready(orig, 1, {})
    modifies s
    ensures s.unseen == old(s.unseen) && s.Tracks() && s.log.start == orig
    ensures Safe(s.mailbox, orig, Told(s.sent) + Flagged(orig)) && OnTarget(s.sent, orig)
    ensures Compared(compared, orig)
    ensures handled <= count && (err == PS_SUCCESS ==> whole && handled == count)
    ensures whole ==> fetches == fetched + TakenIn(outcomes, s.sent, count)
    ensures whole && handled < count ==> 0 < cfg.maxfetch <= fetches
    ensures err == PS_MAXFETCH && allSizes.status != PS_MAXFETCH && NoneSaysLimit(outcomes, count) ==>
              whole && handled < count
    ensures 0 < cfg.maxfetch && fetched < cfg.maxfetch ==>
              fetches <= cfg.maxfetch && fetched + TakenIn(outcomes, s.sent, count) <= cfg.maxfetch
    ensures whole ==> Going(s, orig, handled + 1, deletions)
    ensures Dialogue(cfg, orig, outcomes, s.unseen, Sized(cfg, answered, count), s.sent, if whole then handled else 0)
    ensures allSizes.status == PS_SUCCESS && AllSmooth(outcomes, count) && s.expungePeriod <= 0 && cfg.maxfetch == 0 ==>
              err == PS_SUCCESS
    ensures whole && Sized(cfg, answered, count) ==>
              Marked(cfg, orig, outcomes, s.unseen, handled + 1, s.log.marked)
  {
    hide InSync, Safe, Evolved, MayDelete, AllSizes, Answers, Marked, Dialogue, Proper, Unspoken, Told, Adds, TakesIn,
      Smooth;
    hide Windowed, Compared, OnTarget, TakenIn, Complete, JudgedOld, Going, Midway, SaysLimit;
    fetches, dispatches, deletions, errcount, transient, compared, handled, whole := fetched, 0, 0, 0, 0, [], 0, false;
    ghost var sized := Sized(cfg, answered, count);
    NothingSaid(cfg, orig, outcomes, s.unseen, sized);
    NoneCompared(orig);
    var firstnum: nat, lastnum: nat := 1, 0;
    var msgsizes;
    StartGoing(s, orig);
    err, msgsizes, lastnum := InitSizes(s, cfg, allSizes, answered, orig, count);
    MidwayFirst(s, cfg, orig, outcomes, sized, fetched);
    GoingMeans(s, orig, 1, 0);
    TakenInRest(outcomes, s.sent, 0, count);
    MidwayMeans(s, cfg, orig, outcomes, sized, 1, 0, fetched, fetched);
    if err != PS_SUCCESS {
      return;
    }
    var num := 1;
    while num <= count
      invariant err == PS_SUCCESS && 1 <= num <= count + 1 && s.unseen == old(s.unseen)
      invariant Midway(s, cfg, orig, outcomes, sized, num, deletions, fetched, fetches)
      invariant Compared(compared, orig)
      invariant 0 < cfg.maxfetch && fetched < cfg.maxfetch ==>
                  fetches <= cfg.maxfetch && (num <= count ==> fetches < cfg.maxfetch)
      invariant sized ==> firstnum == 1 && AllSizes(msgsizes[..], orig)
      invariant Windowed(cfg, msgsizes, orig, num, firstnum, lastnum) && fresh(msgsizes)
      decreases count - num
    {
      var o := outcomes(num);
      var msgcode, msgsize, h;
      assert AllSmooth(outcomes, count) ==> Smooth(o);
      assert NoneSaysLimit(outcomes, count) ==> !SaysLimit(o);
      err, firstnum, lastnum, deletions, msgcode, msgsize, h, fetches :=
        FetchOne(s, cfg, num, count, outcomes, msgsizes, firstnum, lastnum, deletions, fetches, fetched, orig, sized);
      if msgcode != MSGLEN_OLD {
        ComparedNext(compared, orig, num, msgsize);
        compared := compared + [(num, msgsize)];
      }
      if err != PS_SUCCESS {
        return;
      }
      transient := transient + h.transient;
      if msgcode >= 0 && !h.skipped {
        dispatches := dispatches + if h.dispatched then 1 else 0;
        errcount := errcount + if o.sink then 0 else 1;
      }
      if !h.skipped && cfg.maxfetch > 0 && cfg.maxfetch <= fetches && num < count {
        err := PS_MAXFETCH;
        handled, whole := num, true;
        MidwayMeans(s, cfg, orig, outcomes, sized, num + 1, deletions, fetched, fetches);
        TakenInRest(outcomes, s.sent, num, count);
        return;
      }
      num := num + 1;
    }
    MidwayMeans(s, cfg, orig, outcomes, sized, num, deletions, fetched, fetches);
    GoingMeans(s, orig, num, deletions);
    handled, whole := count, true;
  }
}
