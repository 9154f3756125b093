/**
  Whole IMAP sessions (do_session in driver.c): passes over a folder until no mail is left,
  and the logout, with errors anywhere.
 */
module FetchRuns {
  import opened ImapMailbox
  import opened ImapSession
  import opened FetchTalk
  import opened FetchLoop

  /** What happens in one pass: the result of the search, the replies to the size commands, the
      fate of every message, and the reply to the expunge at its end. */
  datatype Pass = Pass(search: int, sizes: Reply, answered: seq<int>, outcomes: nat -> Outcome, expunge: Reply)

  /** One pass over the mailbox as `orig`: what was unseen in it and how its messages fared; whether all sizes
      were known; the commands sent about messages; whether an EXPUNGE was completed, and whether one broke off;
      and, if no error ended the pass, how many messages it went through. */
  datatype Visit = Visit(orig: seq<Msg>, unseen: seq<nat>, outcomes: nat -> Outcome, sized: bool, sent: seq<Command>,
                         swept: bool, torn: bool, finished: bool, handled: nat)

  /** The messages that the server was told to delete in some visit. */
  ghost function Deletions(visits: seq<Visit>): set<nat>
    decreases |visits|
  {
    if visits == [] then {} else Deletions(visits[..|visits| - 1]) + Told(visits[|visits| - 1].sent)
  }

  lemma {:induction false} DeletionFound(visits: seq<Visit>, uid: nat) returns (i: nat, k: nat)
    requires uid in Deletions(visits) && forall j | 0 <= j < |visits| :: OnTarget(visits[j].sent, visits[j].orig)
    ensures i < |visits| && 1 <= k <= |visits[i].orig| && At(visits[i].orig, k).uid == uid
    ensures StoreDeleted in About(visits[i].sent, k)
    decreases |visits|
  {
    var n := |visits| - 1;
    if uid in Told(visits[n].sent) {
      i := n;
      k := ToldIs(visits[n].sent, visits[n].orig, uid);
    } else {
      i, k := DeletionFound(visits[..n], uid);
    }
  }

  // ----- One pass -----

  /** Message `k` of the visit has left the mailbox. */
  predicate Gone(v: Visit, after: seq<Msg>, k: nat)
    requires 1 <= k <= |v.orig|
  {
    !Present(after, At(v.orig, k).uid)
  }

  /** Message `k` of the visit, which the server was not told to delete: it is gone if it had been flagged before and an
      EXPUNGE was completed, and only then, unless an EXPUNGE broke off. */
  predicate LostExactly(v: Visit, after: seq<Msg>, k: nat)
    requires 1 <= k <= |v.orig|
  {
    && (At(v.orig, k).deleted && v.swept ==> Gone(v, after, k))
    && (Gone(v, after, k) ==> At(v.orig, k).deleted && (v.swept || v.torn))
  }

  /** The messages that the visit went through and had a reason to delete are gone. */
  ghost predicate Emptied(cfg: Config, v: Visit, after: seq<Msg>) {
    forall k | 1 <= k <= v.handled && k <= |v.orig|
               && MayDelete(cfg, v.outcomes(k), JudgedOld(cfg, v.unseen, k), At(v.orig, k).size, true) :: Gone(v,
                 after, k)
  }

  /** What a visit makes of the mailbox.  Every command was for the message meant, and about each message only the
      commands were sent that its outcome calls for, in their order.  What is gone the server was told to delete, or
      it was flagged before; and if no error came in between, what there was a reason to delete is gone. */
  ghost predicate Visited(cfg: Config, v: Visit, after: seq<Msg>) {
    && OnTarget(v.sent, v.orig)
    && Dialogue(cfg, v.orig, v.outcomes, v.unseen, v.sized, v.sent, if v.finished then v.handled else 0)
    && Safe(after, v.orig, Told(v.sent) + Flagged(v.orig))
    && (forall k | 1 <= k <= |v.orig| && Gone(v, after, k) :: v.swept || v.torn)
    && (forall k | 1 <= k <= |v.orig| && At(v.orig, k).uid !in Told(v.sent) :: LostExactly(v, after, k))
    && (v.finished ==> !v.torn && v.handled <= |v.orig|)
    && (v.finished && v.sized ==> Emptied(cfg, v, after))
  }

  lemma DeletedInVisit(cfg: Config, v: Visit, after: seq<Msg>, k: nat)
    requires Visited(cfg, v, after) && 1 <= k <= |v.orig| && StoreDeleted in About(v.sent, k)
    ensures Deletes(cfg, v.outcomes(k), JudgedOld(cfg, v.unseen, k), At(v.orig, k).size, About(v.sent, k))
    ensures v.sized ==> MayDelete(cfg, v.outcomes(k), JudgedOld(cfg, v.unseen, k), At(v.orig, k).size, true)
  {
    hide Proper, Complete, Deletes, MayDelete, Safe, OnTarget, LostExactly, Emptied, Told, JudgedOld;
    ProperlyDeleted(cfg, v.outcomes(k), JudgedOld(cfg, v.unseen, k), At(v.orig, k).size, v.sized, About(v.sent, k));
  }

  /** So, of a pass that came to its end, exactly this is gone: what the server was told to delete, and what had been
      flagged before if it deleted anything. */
  lemma GoneExactly(cfg: Config, v: Visit, after: seq<Msg>, k: nat)
    requires Visited(cfg, v, after) && v.finished && v.sized && v.handled == |v.orig| && 1 <= k <= |v.orig|
    ensures Gone(v, after, k) <==> At(v.orig, k).uid in Told(v.sent) || (At(v.orig, k).deleted && v.swept)
  {
    hide Safe, Dialogue, MayDelete, Told;
    if At(v.orig, k).uid in Told(v.sent) {
      var i := ToldIs(v.sent, v.orig, At(v.orig, k).uid);
      DeletedInVisit(cfg, v, after, i);
      assert Gone(v, after, i);
    } else {
      assert LostExactly(v, after, k);
    }
  }

  /** The log of the session says what the visit has done. */
  lemma VisitedByLog(cfg: Config, v: Visit, l: Log, after: seq<Msg>, nextUid: nat, pending: bool)
    requires Evolved(l, after, nextUid, pending) && l.start == v.orig && l.swept == v.swept && l.torn == v.torn
    requires OnTarget(v.sent, v.orig) && Safe(after, v.orig, Told(v.sent) + Flagged(v.orig)) && Ascending(v.orig, 0)
    requires Dialogue(cfg, v.orig, v.outcomes, v.unseen, v.sized, v.sent, if v.finished then v.handled else 0)
    requires v.finished ==> !v.torn && !pending && v.handled <= |v.orig|
    requires v.finished && v.sized ==> Marked(cfg, v.orig, v.outcomes, v.unseen, v.handled + 1, l.marked)
    ensures Visited(cfg, v, after)
  {
    hide MayDelete, Ascending, Below, Dialogue;
    forall k | 1 <= k <= |v.orig|
      ensures Gone(v, after, k) ==> v.swept || v.torn
      ensures At(v.orig, k).uid !in Told(v.sent) ==> LostExactly(v, after, k)
    {
      var o := At(v.orig, k);
      assert o in v.orig;
      PresentAt(v.orig, o);
      if o.deleted {
        HasFlaggedAt(v.orig, o);
      } else if o.uid in Flagged(v.orig) {
        var m :| m in v.orig && m.deleted && m.uid == o.uid;
        OnePerUid(v.orig, 0, m, o);
      }
    }
  }

  /** A pass begins with the client in step. */
  lemma StartVisit(s: Session, mine: set<nat>)
    requires s.Tracks() && s.expunged == 0 && s.deletions == 0 && s.log == Begun(s.mailbox)
    ensures s.Ready(s.mailbox, 1, mine)
  {
    hide Evolved;
    SafeSelf(s.mailbox, mine + Flagged(s.mailbox));
  }

  /** The replies under which a pass comes to its end. */
  ghost predicate AllWell(cfg: Config, period: int, p: Pass, count: nat) {
    p.sizes.status == PS_SUCCESS && AllSmooth(p.outcomes, count) && period <= 0 && cfg.maxfetch == 0
    && p.expunge.status == PS_SUCCESS
  }

  /** Nothing in the pass fails with the code that stands for the fetch limit. */
  ghost predicate KeepsToCodes(p: Pass, count: nat) {
    p.sizes.status != PS_MAXFETCH && NoneSaysLimit(p.outcomes, count)
  }

  /** `unseen` lists the messages that are not seen (and not flagged either, if mail is kept). */
  ghost predicate Listed(cfg: Config, mailbox: seq<Msg>, unseen: seq<nat>) {
    !cfg.fetchall ==>
      forall k | 1 <= k <= |mailbox| :: k in unseen <==> !At(mailbox, k).seen && !(cfg.keep && At(mailbox, k).deleted)
  }

  /** The visit is one with what happens in the pass; `unseen` is what the server has as such. */
  ghost predicate Ran(cfg: Config, period: int, p: Pass, v: Visit) {
    && v.outcomes == p.outcomes && v.sized == Sized(cfg, p.answered, |v.orig|)
    && Listed(cfg, v.orig, v.unseen)
    && (AllWell(cfg, period, p, |v.orig|) ==> v.finished && v.handled == |v.orig|)
  }

  lemma RanKept(cfg: Config, period: int, p: Pass, v: Visit, l: Log)
    requires Ran(cfg, period, p, v)
    ensures Ran(cfg, period, p, v.(swept := l.swept, torn := l.torn))
  {
  }

  /** fetch_messages and the end of the pass.  If it fails, the session logs out at once, with a
      last expunge unless the connection is lost. */
  method RunPass(s: Session, cfg: Config, p: Pass, fetched: nat, logout: Reply, connected: bool, ghost orig: seq<Msg>)
    returns (err: int, dispatches: nat, errcount: nat, fetches: nat, deletions: nat, ghost handled: nat,
      ghost finished: bool)
    requires s.expunged == 0 && s.deletions == 0 && s.log.marked == {} && s.mailbox == orig && s.sent == []
    requires s.Ready(orig, 1, {})
    modifies s
    ensures s.Tracks() && s.log.start == orig && OnTarget(s.sent, orig)
    ensures Safe(s.mailbox, orig, Told(s.sent) + Flagged(orig))
    ensures Dialogue(cfg, orig, p.outcomes, old(s.unseen), Sized(cfg, p.answered, |orig|), s.sent,
                     if finished then handled else 0)
    ensures finished ==> !s.log.torn && s.deletions == 0 && (s.log.swept <==> deletions > 0) && handled <= |orig|
    ensures finished && Sized(cfg, p.answered, |orig|) ==>
              Marked(cfg, orig, p.outcomes, old(s.unseen), handled + 1, s.log.marked)
    ensures err == PS_SUCCESS && p.expunge.status == PS_SUCCESS ==> finished && handled == |orig|
    ensures AllWell(cfg, s.expungePeriod, p, |orig|) ==> err == PS_SUCCESS
    ensures err == PS_SUCCESS ==> fetches == fetched + TakenIn(p.outcomes, s.sent, |orig|)
    ensures err == PS_MAXFETCH && KeepsToCodes(p, |orig|) ==> 0 < cfg.maxfetch <= fetches
    ensures 0 < cfg.maxfetch && fetched < cfg.maxfetch ==> fetched + TakenIn(p.outcomes, s.sent, |orig|) <= cfg.maxfetch
  {
    hide Safe, InSync, AllSmooth, Answers, Evolved, Marked, Ascending, MayDelete, Dialogue, Told, TakenIn;
    hide NoneSaysLimit;
    var transient, compared;
    ghost var whole;
    err, fetches, dispatches, deletions, errcount, transient, compared, handled, whole :=
      FetchMessages(s, cfg, |s.mailbox|, p.outcomes, p.sizes, p.answered, fetched, s.mailbox);
    finished := whole && (err == PS_SUCCESS || err == PS_MAXFETCH) && p.expunge.status == PS_SUCCESS;
    NoneDone(cfg, orig, p.outcomes, s.unseen, Sized(cfg, p.answered, |orig|), s.sent, if whole then handled else 0);
    if err != PS_SUCCESS && err != PS_MAXFETCH {
      if connected {
        s.EndMailbox(logout, orig, Told(s.sent) + Flagged(orig));
      }
    } else {
      s.EndMailbox(p.expunge, orig, Told(s.sent) + Flagged(orig));
    }
  }

  method VisitMailbox(s: Session, cfg: Config, p: Pass, fetched: nat, logout: Reply, connected: bool)
    returns (err: int, dispatches: nat, errcount: nat, fetches: nat, deletions: nat, ghost v: Visit)
    requires s.Tracks() && s.expunged == 0 && s.deletions == 0 && s.log == Begun(s.mailbox)
    requires Listed(cfg, s.mailbox, s.unseen)
    modifies s
    ensures s.Tracks() && v.orig == old(s.mailbox) && v.sent == s.sent
    ensures s.log.start == v.orig && s.log.swept == v.swept && s.log.torn == v.torn
    ensures Ran(cfg, s.expungePeriod, p, v) && Visited(cfg, v, s.mailbox)
    ensures v.finished ==> s.deletions == 0 && (v.swept <==> deletions > 0)
    ensures err == PS_SUCCESS && p.expunge.status == PS_SUCCESS ==> v.finished && v.handled == |v.orig|
    ensures AllWell(cfg, s.expungePeriod, p, |v.orig|) ==> err == PS_SUCCESS
    ensures err == PS_SUCCESS ==> fetches == fetched + TakenIn(p.outcomes, v.sent, |v.orig|)
    ensures err == PS_MAXFETCH && KeepsToCodes(p, |v.orig|) ==> 0 < cfg.maxfetch <= fetches
    ensures 0 < cfg.maxfetch && fetched < cfg.maxfetch ==> fetched + TakenIn(p.outcomes, v.sent, |v.orig|) <= cfg.maxfetch
  {
    hide Safe, InSync, AllSmooth, Answers, Evolved, Marked, Visited, Ascending, MayDelete, OnTarget, Listed, Dialogue,
      Told, TakenIn, KeepsToCodes;
    s.sent := [];
    ghost var orig, unseen := s.mailbox, s.unseen;
    ghost var sized := Sized(cfg, p.answered, |orig|);
    StartVisit(s, {});
    ghost var handled, finished;
    err, dispatches, errcount, fetches, deletions, handled, finished := RunPass(s, cfg, p, fetched, logout, connected,
      orig);
    v := Visit(orig, unseen, p.outcomes, sized, s.sent, s.log.swept, s.log.torn, finished, handled);
    VisitedByLog(cfg, v, s.log, s.mailbox, s.nextUid, s.deletions > 0);
  }

  lemma VisitedSafe(cfg: Config, v: Visit, after: seq<Msg>)
    requires Visited(cfg, v, after)
    ensures Safe(after, v.orig, Told(v.sent) + Flagged(v.orig)) && OnTarget(v.sent, v.orig)
  {
  }

  lemma PassOf(cfg: Config, period: int, p: Pass, v: Visit)
    requires Ran(cfg, period, p, v)
    ensures v.outcomes == p.outcomes
  {
  }

  /** The logout: deletions still pending are expunged as part of the last visit. */
  method LogOut(s: Session, cfg: Config, p: Pass, logout: Reply, ghost last: Visit) returns (ghost v: Visit)
    requires Ran(cfg, s.expungePeriod, p, last) && Visited(cfg, last, s.mailbox) && Ascending(last.orig, 0)
    requires s.deletions > 0 ==>
               s.Tracks() && s.log.start == last.orig && s.log.swept == last.swept && s.log.torn == last.torn &&
                 !last.finished
    modifies s
    ensures Ran(cfg, s.expungePeriod, p, v) && Visited(cfg, v, s.mailbox)
    ensures v.orig == last.orig && v.sent == last.sent && v.outcomes == last.outcomes
  {
    VisitedSafe(cfg, last, s.mailbox);
    hide Visited, Ran, Evolved, Safe, Ascending, Marked;
    v := last;
    ghost var pending := s.deletions > 0;
    s.EndMailbox(logout, v.orig, Told(v.sent) + Flagged(v.orig));
    if pending {
      RanKept(cfg, s.expungePeriod, p, v, s.log);
      v := v.(swept := s.log.swept, torn := s.log.torn);
      VisitedByLog(cfg, v, s.log, s.mailbox, s.nextUid, s.deletions > 0);
    }
  }

  // ----- All passes -----

  /** Messages of `base` are there, or the server was told to delete them in some visit, or they were flagged from the
      start; and the same goes for what is flagged. */
  ghost predicate Accounted(visits: seq<Visit>, base: seq<Msg>, mailbox: seq<Msg>) {
    Safe(mailbox, base, Deletions(visits) + Flagged(base))
  }

  /** One more visit: what it found flagged is accounted for by those before. */
  lemma AccountedNext(cfg: Config, visits: seq<Visit>, base: seq<Msg>, v: Visit, mailbox: seq<Msg>)
    requires Accounted(visits, base, v.orig) && Visited(cfg, v, mailbox)
    ensures Accounted(visits + [v], base, mailbox)
  {
    hide LostExactly, Emptied, OnTarget, Gone, Dialogue;
    var was, now := Deletions(visits) + Flagged(base), Deletions(visits + [v]) + Flagged(base);
    assert (visits + [v])[..|visits|] == visits;
    assert now == was + Told(v.sent);
    assert Flagged(v.orig) <= was;
    forall o | o in base && o.uid !in now ensures Present(mailbox, o.uid) {
      var m := PresentIs(v.orig, o.uid);
    }
  }

  /** Every message of `base` is there, or the server was told to delete it, or it was flagged from the start. */
  ghost predicate NothingLost(visits: seq<Visit>, base: seq<Msg>, mailbox: seq<Msg>) {
    forall k | 1 <= k <= |base| && !Present(mailbox, At(base, k).uid) ::
      At(base, k).uid in Deletions(visits) || At(base, k).deleted
  }

  lemma AccountedLosesNothing(visits: seq<Visit>, base: seq<Msg>, mailbox: seq<Msg>)
    requires Accounted(visits, base, mailbox) && Ascending(base, 0)
    ensures NothingLost(visits, base, mailbox)
  {
    forall k | 1 <= k <= |base| && !Present(mailbox, At(base, k).uid)
      ensures At(base, k).uid in Deletions(visits) || At(base, k).deleted
    {
      var o := At(base, k);
      assert o in base;
      if o.uid in Flagged(base) {
        var m :| m in base && m.deleted && m.uid == o.uid;
        OnePerUid(base, 0, m, o);
      }
    }
  }

  /** The mailbox that visit `i` left: what the next one found, or what is there at the end. */
  function Left(visits: seq<Visit>, i: nat, mailbox: seq<Msg>): seq<Msg>
    requires i < |visits|
  {
    if i + 1 < |visits| then visits[i + 1].orig else mailbox
  }

  /** The visits are those of the passes, each begins with what the one before left, and what each finds is
      accounted for by those before. */
  ghost predicate Chain(cfg: Config, period: int, passes: seq<Pass>, visits: seq<Visit>, base: seq<Msg>,
    mailbox: seq<Msg>) {
    && |visits| <= |passes|
    && (forall i | 0 <= i < |visits| :: Ran(cfg, period, passes[i], visits[i]))
    && (forall i | 0 <= i < |visits| :: Visited(cfg, visits[i], Left(visits, i, mailbox)))
    && (forall i | 0 <= i < |visits| :: Accounted(visits[..i], base, visits[i].orig))
  }

  lemma ChainNext(cfg: Config, period: int, passes: seq<Pass>, visits: seq<Visit>, base: seq<Msg>, v: Visit,
    mailbox: seq<Msg>)
    requires Chain(cfg, period, passes, visits, base, v.orig) && |visits| < |passes|
    requires Accounted(visits, base, v.orig)
    requires Ran(cfg, period, passes[|visits|], v) && Visited(cfg, v, mailbox)
    ensures Chain(cfg, period, passes, visits + [v], base, mailbox)
    ensures Accounted(visits + [v], base, mailbox)
  {
    hide Ran, Visited, Accounted, Deletions;
    AccountedNext(cfg, visits, base, v, mailbox);
    var more := visits + [v];
    forall i | 0 <= i < |more|
      ensures Ran(cfg, period, passes[i], more[i]) && Visited(cfg, more[i], Left(more, i, mailbox))
      ensures Accounted(more[..i], base, more[i].orig)
    {
      if i < |visits| {
        assert more[..i] == visits[..i];
        assert Left(more, i, mailbox) == Left(visits, i, v.orig);
      } else {
        assert more[..i] == visits;
      }
    }
  }

  lemma NoVisits(cfg: Config, period: int, passes: seq<Pass>, base: seq<Msg>, mailbox: seq<Msg>)
    requires Safe(mailbox, base, Flagged(base))
    ensures Chain(cfg, period, passes, [], base, mailbox) && Accounted([], base, mailbox)
  {
    assert Deletions([]) + Flagged(base) == Flagged(base);
  }

  /** How many messages the visits took in. */
  ghost function TakenInAll(visits: seq<Visit>): nat
    decreases |visits|
  {
    if visits == [] then 0
    else
      var v := visits[|visits| - 1];
      TakenInAll(visits[..|visits| - 1]) + TakenIn(v.outcomes, v.sent, |v.orig|)
  }

  lemma TakenInMore(visits: seq<Visit>, v: Visit)
    ensures TakenInAll(visits + [v]) == TakenInAll(visits) + TakenIn(v.outcomes, v.sent, |v.orig|)
  {
    hide TakenIn;
    assert (visits + [v])[..|visits|] == visits;
  }

  /** Nothing in the visits of these passes fails with the code that stands for the fetch limit. */
  ghost predicate AllKeepToCodes(passes: seq<Pass>, visits: seq<Visit>) {
    forall i | 0 <= i < |visits| && i < |passes| :: KeepsToCodes(passes[i], |visits[i].orig|)
  }

  lemma CodesBefore(passes: seq<Pass>, visits: seq<Visit>, v: Visit)
    requires |visits| < |passes| && AllKeepToCodes(passes, visits + [v])
    ensures AllKeepToCodes(passes, visits) && KeepsToCodes(passes[|visits|], |v.orig|)
  {
    hide KeepsToCodes;
    var more := visits + [v];
    assert more[|visits|] == v && forall i | 0 <= i < |visits| :: more[i] == visits[i];
  }

  /** The fetch limit holds for the run as a whole. */
  ghost predicate Limited(cfg: Config, passes: seq<Pass>, visits: seq<Visit>) {
    0 < cfg.maxfetch && AllKeepToCodes(passes, visits) ==> TakenInAll(visits) <= cfg.maxfetch
  }

  /** Between two passes: the count is right and below the limit. */
  ghost predicate Counted(cfg: Config, passes: seq<Pass>, visits: seq<Visit>, fetches: nat) {
    0 < cfg.maxfetch && AllKeepToCodes(passes, visits) ==> fetches == TakenInAll(visits) < cfg.maxfetch
  }

  lemma NoneCounted(cfg: Config, passes: seq<Pass>)
    ensures Limited(cfg, passes, []) && Counted(cfg, passes, [], 0)
  {
  }

  lemma CountedNext(cfg: Config, passes: seq<Pass>, visits: seq<Visit>, v: Visit, fetched: nat, err: int, fetches: nat)
    requires |visits| < |passes| && Counted(cfg, passes, visits, fetched) && v.outcomes == passes[|visits|].outcomes
    requires err == PS_SUCCESS ==> fetches == fetched + TakenIn(v.outcomes, v.sent, |v.orig|)
    requires err == PS_MAXFETCH && KeepsToCodes(passes[|visits|], |v.orig|) ==> 0 < cfg.maxfetch <= fetches
    requires 0 < cfg.maxfetch && fetched < cfg.maxfetch ==>
               fetched + TakenIn(v.outcomes, v.sent, |v.orig|) <= cfg.maxfetch
    ensures Limited(cfg, passes, visits + [v])
    ensures (err == PS_SUCCESS || err == PS_MAXFETCH) && (cfg.maxfetch == 0 || cfg.maxfetch > fetches) ==>
              Counted(cfg, passes, visits + [v], fetches)
  {
    hide TakenInAll, TakenIn, AllKeepToCodes, KeepsToCodes;
    TakenInMore(visits, v);
    if AllKeepToCodes(passes, visits + [v]) {
      CodesBefore(passes, visits, v);
    }
  }

  /** What the logout adds to the last visit does not count. */
  lemma SameLimit(cfg: Config, passes: seq<Pass>, visits: seq<Visit>, last: Visit, v: Visit)
    requires |visits| < |passes| && Limited(cfg, passes, visits + [last])
    requires v.orig == last.orig && v.sent == last.sent && v.outcomes == last.outcomes
    ensures Limited(cfg, passes, visits + [v])
  {
    hide TakenIn, KeepsToCodes;
    TakenInMore(visits, v);
    TakenInMore(visits, last);
    if AllKeepToCodes(passes, visits + [v]) {
      CodesBefore(passes, visits, v);
      forall i | 0 <= i < |visits + [last]| && i < |passes|
        ensures KeepsToCodes(passes[i], |(visits + [last])[i].orig|)
      {
      }
    }
  }

  /** The passes of do_session over one folder, and the logout.  Unless mail is kept, the first pass finds nothing
      flagged; and there is a first pass unless the folder cannot be opened or is empty. */
  method RunFolder(s: Session, cfg: Config, select: int, expunge: Reply, search: int, passes: seq<Pass>,
                   idle: bool, logout: Reply, connected: bool)
    returns (err: int, ghost visits: seq<Visit>)
    requires s.Numbered()
    modifies s
    ensures NothingLost(visits, old(s.mailbox), s.mailbox)
    ensures Chain(cfg, s.expungePeriod, passes, visits, old(s.mailbox), s.mailbox)
    ensures Limited(cfg, passes, visits)
    ensures visits != [] ==> if cfg.keep then visits[0].orig == old(s.mailbox) else NoneDeleted(visits[0].orig)
    ensures visits == [] ==>
      || s.mailbox == [] || passes == [] || select != PS_SUCCESS || search != PS_SUCCESS
      || (!cfg.keep && (expunge.status != PS_SUCCESS || old(s.deletions) > 0))
  {
    hide Accounted, Safe, Deletions, NothingLost, Ascending, Chain, Visited, Ran, Evolved, Limited, Counted, TakenIn;
    hide KeepsToCodes;
    visits := [];
    NoneCounted(cfg, passes);
    ghost var base := s.mailbox;
    var count: int;
    err, count := s.GetRange(false, cfg.keep, cfg.fetchall, select, expunge, search, Flagged(s.mailbox));
    if err != PS_SUCCESS && connected {
      s.EndMailbox(logout, base, Flagged(base));
    }
    NoVisits(cfg, s.expungePeriod, passes, base, s.mailbox);
    AccountedLosesNothing(visits, base, s.mailbox);
    if err != PS_SUCCESS || count == 0 || passes == [] {
      return;
    }
    var pass := 0;
    var errcount, dispatches, fetches := 0, 0, 0;
    while true
      invariant 0 <= pass == |visits| < |passes|
      invariant s.Tracks() && s.expunged == 0 && s.deletions == 0 && s.log == Begun(s.mailbox)
      invariant Listed(cfg, s.mailbox, s.unseen)
      invariant Accounted(visits, base, s.mailbox) && Ascending(base, 0)
      invariant Chain(cfg, s.expungePeriod, passes, visits, base, s.mailbox)
      invariant Limited(cfg, passes, visits) && Counted(cfg, passes, visits, fetches)
      invariant
        var first := if visits == [] then s.mailbox else visits[0].orig;
        if cfg.keep then first == base else NoneDeleted(first)
      decreases |passes| - pass
    {
      ghost var v;
      var n, deletions;
      ghost var before, fetched := visits, fetches;
      err, dispatches, n, fetches, deletions, v := VisitMailbox(s, cfg, passes[pass], fetches, logout, connected);
      visits := visits + [v];
      PassOf(cfg, s.expungePeriod, passes[pass], v);
      CountedNext(cfg, passes, before, v, fetched, err, fetches);
      ChainNext(cfg, s.expungePeriod, passes, before, base, v, s.mailbox);
      AccountedLosesNothing(visits, base, s.mailbox);
      errcount := errcount + n;
      pass := pass + 1;
      if err != PS_SUCCESS && err != PS_MAXFETCH {
        return;
      }
      var again := (cfg.maxfetch == 0 || cfg.maxfetch > fetches) && (dispatches > 0 || idle) && errcount == 0;
      if again && pass < |passes| {
        err, count := s.GetRangeAgain(cfg.keep, cfg.fetchall, passes[pass].search);
        if err != PS_SUCCESS && !connected {
          return;
        }
        again := err == PS_SUCCESS && count > 0;
      }
      if !again || pass == |passes| {
        ghost var last := v;
        v := LogOut(s, cfg, passes[pass - 1], logout, v);
        visits := before + [v];
        SameLimit(cfg, passes, before, last, v);
        ChainNext(cfg, s.expungePeriod, passes, before, base, v, s.mailbox);
        AccountedLosesNothing(visits, base, s.mailbox);
        return;
      }
    }
  }

  /** Read message by message: one that was in the mailbox, not flagged, and is gone after the run was deleted in some
      pass: unread, because it was old with flush on or oversized with limitflush on; after its headers and then its
      body were fetched and the sink accepted it; or after its headers were fetched and it was refused for good. */
  lemma GoneForAReason(cfg: Config, period: int, passes: seq<Pass>, visits: seq<Visit>, base: seq<Msg>,
                       mailbox: seq<Msg>, m: nat)
      returns (i: nat, k: nat)
    requires NothingLost(visits, base, mailbox) && Chain(cfg, period, passes, visits, base, mailbox)
    requires 1 <= m <= |base| && !Present(mailbox, At(base, m).uid) && !At(base, m).deleted
    ensures i < |visits| <= |passes| && 1 <= k <= |visits[i].orig| && At(visits[i].orig, k).uid == At(base, m).uid
    ensures
      var o := At(visits[i].orig, k);
      var judgedOld := !cfg.fetchall && !cfg.forceRetrieval && (o.seen || (cfg.keep && o.deleted));
      Deletes(cfg, passes[i].outcomes(k), judgedOld, o.size, About(visits[i].sent, k))
  {
    hide Accounted, Deletes, Visited, OnTarget;
    forall j | 0 <= j < |visits| ensures OnTarget(visits[j].sent, visits[j].orig) {
      VisitedSafe(cfg, visits[j], Left(visits, j, mailbox));
    }
    i, k := DeletionFound(visits, At(base, m).uid);
    assert Ran(cfg, period, passes[i], visits[i]);
    DeletedInVisit(cfg, visits[i], Left(visits, i, mailbox), k);
  }

  lemma NotAllGone(visits: seq<Visit>, base: seq<Msg>, mailbox: seq<Msg>)
    requires NothingLost(visits, base, mailbox) && base != [] && !base[0].deleted
    ensures visits == [] ==> mailbox != []
  {
    assert visits == [] ==> At(base, 1).uid !in Deletions(visits);
  }

  lemma SecondStays(cfg: Config, v: Visit, after: seq<Msg>)
    requires Visited(cfg, v, after) && v.orig == [Msg(1, 10, false, false), Msg(2, 3, false, true)]
    requires cfg == Config(true, false, true, false, false, false, 5, 0, 0) && v.sized && v.finished && v.handled == 2
    requires Listed(cfg, v.orig, v.unseen)
    ensures 2 !in Told(v.sent) && !Present(after, 2)
  {
    hide Dialogue, Safe;
    if 2 in Told(v.sent) {
      var k := ToldIs(v.sent, v.orig, 2);
      DeletedInVisit(cfg, v, after, k);
    }
    assert At(v.orig, 2).uid == 2 && At(v.orig, 1).uid == 1;
    assert MayDelete(cfg, v.outcomes(1), JudgedOld(cfg, v.unseen, 1), 10, true);
    assert Gone(v, after, 1);
    assert LostExactly(v, after, 2);
  }

  /** The exception is real: a run with "keep" and "limitflush" in which everything goes well.  Message 1 is too
      large and is deleted; the EXPUNGE at the end of the pass also takes message 2, which another client had
      flagged before and which there is no reason to delete. */
  method FlaggedBeforeGoesToo(o: Outcome) returns (s: Session, cfg: Config, ghost v: Visit)
    requires Smooth(o)
    ensures v.orig == [Msg(1, 10, false, false), Msg(2, 3, false, true)] && cfg.keep
    ensures Visited(cfg, v, s.mailbox) && v.finished && v.outcomes == (n => o)
    ensures 2 !in Told(v.sent) && !Present(s.mailbox, 2)
  {
    hide Limited, Dialogue, Safe, Accounted, Visited, TakenInAll;
    cfg := Config(true, false, true, false, false, false, 5, 0, 0);
    var base := [Msg(1, 10, false, false), Msg(2, 3, false, true)];
    s := new Session(base, 3, 0);
    var done := Reply(PS_SUCCESS, 0, []);
    var p := Pass(PS_SUCCESS, done, [1, 2], n => o, done);
    var err, visits := RunFolder(s, cfg, PS_SUCCESS, done, PS_SUCCESS, [p], false, done, true);
    NotAllGone(visits, base, s.mailbox);
    v := visits[0];
    assert Left(visits, 0, s.mailbox) == s.mailbox;
    assert AllWell(cfg, 0, p, 2);
    SecondStays(cfg, v, s.mailbox);
  }
}
