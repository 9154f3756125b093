/**
  The UID bookkeeping of a POP3 poll (pop3.c, uid.c, fetchmail.c), on stores seen
  as lists.  The server is the mailbox (the UIDs of messages 1 to n) together with
  its replies; a missing reply stands for an error.
 */
module Pop3Uidl {
  import opened IdBits
  import opened UidList
  import opened CText

  /** The store holds the id with a status other than UNSEEN. */
  predicate Seen(s: Store, id: Id) {
    Has(s.list, id) && Mark(s.list, id) != UID_UNSEEN
  }

  predicate Unseen(s: Store, id: Id) {
    Has(s.list, id) && Mark(s.list, id) == UID_UNSEEN
  }

  /** A message that was deleted but is still there counts as seen. */
  function Refresh(status: nat): nat {
    if status == UID_DELETED || status == UID_EXPUNGED then UID_SEEN else status
  }

  /** No id is forgotten, and the ids seen are the same. */
  ghost predicate Extends(s: Store, s': Store) {
    && (forall id: Id | Has(s.list, id) :: Has(s'.list, id))
    && (forall id: Id | Unseen(s, id) :: Unseen(s', id))
    && (forall id: Id :: Seen(s, id) <==> Seen(s', id))
  }

  /** The UID of message number `k`. */
  function UidOf(mailbox: seq<Id>, k: nat): Id
    requires 1 <= k <= |mailbox|
  {
    mailbox[k - 1]
  }

  /** The replies tell the truth about the mailbox. */
  ghost predicate Truthful(replies: seq<Option<Id>>, mailbox: seq<Id>) {
    |replies| == |mailbox| && forall k | 0 <= k < |replies| :: replies[k].Some? ==> replies[k].value == mailbox[k]
  }

  /** Every number leads to the first entry of its message's id. */
  ghost predicate NumsTrue(s: Store, mailbox: seq<Id>) {
    forall k | k in s.nums :: 1 <= k <= |mailbox| && Has(s.list, UidOf(mailbox, k)) &&
      s.nums[k] == Find(s.list, UidOf(mailbox, k))
  }

  ghost predicate DistinctIds(mailbox: seq<Id>) {
    forall i, j | 1 <= i < j <= |mailbox| :: UidOf(mailbox, i) != UidOf(mailbox, j)
  }

  /** The two stores during a poll with a full listing: the new one has one entry for each
      message listed, with the same verdict as the old one, and both index the same
      numbers, among them those of all messages listed as unseen (or simply listed, if `all`). */
  ghost predicate Paired(oldStore: Store, newStore: Store, mailbox: seq<Id>, all: bool) {
    && NumsTrue(oldStore, mailbox) && NumsTrue(newStore, mailbox) && oldStore.nums.Keys == newStore.nums.Keys
    && OnceEach(newStore) && SameVerdicts(oldStore, newStore) && Indexed(newStore, mailbox, all)
  }

  ghost predicate OnceEach(s: Store) {
    forall j | 0 <= j < |s.list| :: Find(s.list, s.list[j].id) == j
  }

  ghost predicate SameVerdicts(oldStore: Store, newStore: Store) {
    forall id: Id | Has(newStore.list, id) :: Has(oldStore.list, id) && (Seen(newStore, id) <==> Seen(oldStore, id))
  }

  ghost predicate Indexed(s: Store, mailbox: seq<Id>, all: bool) {
    forall k | 1 <= k <= |mailbox| && Has(s.list, UidOf(mailbox, k)) && (all || Unseen(s, UidOf(mailbox, k))) ::
      k in s.nums
  }

  /** The lines of a UIDL reply name each message at most once, with its UID. */
  ghost predicate LinesTrue(lines: seq<Option<(nat, Id)>>, mailbox: seq<Id>) {
    && (forall i | 0 <= i < |lines| && lines[i].Some? ::
          1 <= lines[i].value.0 <= |mailbox| && UidOf(mailbox, lines[i].value.0) == lines[i].value.1)
    && (forall i, j | 0 <= i < j < |lines| && lines[i].Some? && lines[j].Some? ::
          lines[i].value.1 != lines[j].value.1)
  }

  ghost predicate ListedSoFar(s: Store, lines: seq<Option<(nat, Id)>>, i: nat)
    requires i <= |lines| && forall j | 0 <= j < i :: lines[j].Some?
  {
    |s.list| == i && forall j | 0 <= j < i :: s.list[j].id == lines[j].value.1
  }

  /** The listed entries are unseen exactly if the store before the listing had not seen them, and none counts as
      deleted. */
  ghost predicate VerdictsFrom(was: Store, s: Store) {
    forall j | 0 <= j < |s.list| ::
      (s.list[j].status == UID_UNSEEN <==> !Seen(was, s.list[j].id)) && StillThere(s.list[j].status)
  }

  predicate StillThere(status: nat) {
    status != UID_DELETED && status != UID_EXPUNGED
  }

  function CountUnseen(list: seq<Entry>): nat {
    if list == [] then 0 else (if list[0].status == UID_UNSEEN then 1 else 0) + CountUnseen(list[1..])
  }

  lemma {:induction false} CountAppend(list: seq<Entry>, e: Entry)
    ensures CountUnseen(list + [e]) == CountUnseen(list) + if e.status == UID_UNSEEN then 1 else 0
  {
    if list != [] {
      assert (list + [e])[1..] == list[1..] + [e];
      CountAppend(list[1..], e);
    }
  }

  // ---- single changes of a list

  lemma FindAppend(list: seq<Entry>, e: Entry, id: Id)
    ensures Find(list + [e], id) ==
            if Has(list, id) then Find(list, id) else if e.id == id then |list| else |list| + 1
  {
    FindFirst(list, id);
    FindIs(list + [e], id,
           if Has(list, id) then Find(list, id) else if e.id == id then |list| else |list| + 1);
  }

  lemma FindUpdate(list: seq<Entry>, i: nat, status: nat, id: Id)
    requires i < |list|
    ensures Find(list[i := list[i].(status := status)], id) == Find(list, id)
  {
    FindFirst(list, id);
    FindIs(list[i := list[i].(status := status)], id, Find(list, id));
  }

  /** Adding an unknown id as unseen changes no verdict. */
  lemma AppendUnseen(s: Store, id: Id, mailbox: seq<Id>)
    requires !Has(s.list, id) && NumsTrue(s, mailbox)
    ensures Extends(s, Append(s, id, UID_UNSEEN)) && NumsTrue(Append(s, id, UID_UNSEEN), mailbox)
    ensures Unseen(Append(s, id, UID_UNSEEN), id)
    ensures forall x: Id | Has(Append(s, id, UID_UNSEEN).list, x) :: x == id || Has(s.list, x)
  {
    forall x: Id
      ensures Find(Append(s, id, UID_UNSEEN).list, x) ==
              if Has(s.list, x) then Find(s.list, x) else if id == x then |s.list| else |s.list| + 1
    {
      FindAppend(s.list, Entry(id, UID_UNSEEN), x);
    }
  }

  /** Giving the first entry of an id another status changes only the verdict on that id. */
  lemma SetFirst(s: Store, id: Id, status: nat, mailbox: seq<Id>)
    requires Has(s.list, id) && NumsTrue(s, mailbox)
    ensures var s' := SetMark(s, Find(s.list, id), status);
            && NumsTrue(s', mailbox) && Has(s'.list, id) && Mark(s'.list, id) == status
            && (forall x: Id :: Has(s'.list, x) == Has(s.list, x))
            && (forall x: Id | Has(s.list, x) && x != id :: Mark(s'.list, x) == Mark(s.list, x))
  {
    var i := Find(s.list, id);
    FindFirst(s.list, id);
    forall x: Id
      ensures Find(SetMark(s, i, status).list, x) == Find(s.list, x)
      ensures Has(s.list, x) && x != id ==> Find(s.list, x) != i
    {
      FindFirst(s.list, x);
      FindUpdate(s.list, i, status, x);
    }
  }

  /** The store after a UID of the server was looked up: a message that was deleted but is still there is now
      seen, and an unknown one is entered as unseen. */
  function Entered(s: Store, id: Id): Store {
    if !Has(s.list, id) then Append(s, id, UID_UNSEEN)
    else SetMark(s, Find(s.list, id), Refresh(Mark(s.list, id)))
  }

  lemma EnteredFacts(s: Store, id: Id, mailbox: seq<Id>)
    requires NumsTrue(s, mailbox)
    ensures
      var t := Entered(s, id);
      && NumsTrue(t, mailbox) && Extends(s, t) && t.nums == s.nums && Has(t.list, id)
      && Mark(t.list, id) == (if Has(s.list, id) then Refresh(Mark(s.list, id)) else UID_UNSEEN)
      && Find(t.list, id) == Find(s.list, id) && (forall x: Id | Has(t.list, x) :: x == id || Has(s.list, x))
  {
    if Has(s.list, id) {
      SetFirst(s, id, Refresh(Mark(s.list, id)), mailbox);
      FindUpdate(s.list, Find(s.list, id), Refresh(Mark(s.list, id)), id);
    } else {
      AppendUnseen(s, id, mailbox);
      FindAppend(s.list, Entry(id, UID_UNSEEN), id);
      FindFirst(s.list, id);
    }
  }

  lemma EnteredFinds(s: Store, id: Id)
    ensures Find(Entered(s, id).list, id) == Find(s.list, id) && Has(Entered(s, id).list, id)
    ensures s.nums == Entered(s, id).nums && |s.list| <= |Entered(s, id).list|
  {
    EnteredFacts(s.(nums := map[]), id, []);
  }

  /** The least k with n <= 2^k, for n > 0. */
  function Log2Ceil(n: nat): (k: nat)
    requires n > 0
  {
    if n == 1 then 0 else 1 + Log2Ceil((n + 1) / 2)
  }

  lemma {:induction false} Log2CeilMonotone(m: nat, n: nat)
    requires 0 < m <= n
    ensures Log2Ceil(m) <= Log2Ceil(n)
  {
    if m > 1 {
      Log2CeilMonotone((m + 1) / 2, (n + 1) / 2);
    }
  }

  function Pow2(k: nat): nat {
    if k == 0 then 1 else 2 * Pow2(k - 1)
  }

  /** Log2Ceil is the rounded-up logarithm. */
  lemma {:induction false} Log2CeilIs(n: nat)
    requires n > 0
    ensures n <= Pow2(Log2Ceil(n)) && (n > 1 ==> Pow2(Log2Ceil(n) - 1) < n)
  {
    if n > 1 {
      Log2CeilIs((n + 1) / 2);
    }
  }

  /** The per-host UID state: ctl->oldsaved and ctl->newsaved, the `last` of pop3.c and dofastuidl. */
  class Pop3 {
    var oldsaved: Store
    var newsaved: Store
    var last: nat
    var highest: nat
    var dofastuidl: bool
    // what was sent about messages in this poll
    var sent: seq<Command>

    constructor (oldsaved: Store)
      ensures this.oldsaved == oldsaved && newsaved == Store([], map[]) && last == 0 && highest == 0 && !dofastuidl
      ensures sent == []
    {
      this.oldsaved, newsaved, last, highest, dofastuidl, sent := oldsaved, Store([], map[]), 0, 0, false, [];
    }

    /** Looks a UID of the server up in the old store. */
    method FindOrEnter(id: Id, ghost mailbox: seq<Id>) returns (rec: nat, mark: nat)
      requires NumsTrue(oldsaved, mailbox)
      modifies `oldsaved
      ensures oldsaved == Entered(old(oldsaved), id)
      ensures NumsTrue(oldsaved, mailbox) && Extends(old(oldsaved), oldsaved)
      ensures oldsaved.nums == old(oldsaved).nums
      ensures Has(oldsaved.list, id) && rec == Find(oldsaved.list, id) && mark == Mark(oldsaved.list, id)
      ensures mark == if Has(old(oldsaved).list, id) then Refresh(Mark(old(oldsaved).list, id)) else UID_UNSEEN
      ensures forall x: Id | Has(oldsaved.list, x) :: x == id || Has(old(oldsaved).list, x)
    {
      EnteredFacts(oldsaved, id, mailbox);
      rec := Find(oldsaved.list, id);
      if rec < |oldsaved.list| {
        mark := oldsaved.list[rec].status;
        if mark == UID_DELETED || mark == UID_EXPUNGED {
          mark := UID_SEEN;
          oldsaved := SetMark(oldsaved, rec, UID_SEEN);
        }
      } else {
        mark := UID_UNSEEN;
        oldsaved := Append(oldsaved, id, UID_UNSEEN);
      }
    }

    /** What pop3_fastuidl does with the reply to a probe. */
    method Probe(num: nat, id: Id, ghost mailbox: seq<Id>) returns (unseen: bool)
      requires 1 <= num <= |mailbox| && UidOf(mailbox, num) == id
      requires NumsTrue(oldsaved, mailbox)
      modifies `oldsaved
      ensures NumsTrue(oldsaved, mailbox) && Extends(old(oldsaved), oldsaved)
      ensures oldsaved.nums.Keys == old(oldsaved).nums.Keys + {num}
      ensures if unseen then Unseen(oldsaved, id) else Seen(oldsaved, id)
    {
      var rec, mark := FindOrEnter(id, mailbox);
      unseen := mark == UID_UNSEEN;
      oldsaved := SetNum(oldsaved, rec, num);
    }

    /** pop3_fastuidl: binary search for the first unseen message. */
    method FastUidl(count: nat, replies: seq<Option<Id>>, ghost mailbox: seq<Id>)
      returns (ok: bool, newp: nat, probed: seq<nat>)
      requires count == |mailbox| && Truthful(replies, mailbox) && NumsTrue(oldsaved, mailbox)
      modifies `oldsaved, `last
      ensures NumsTrue(oldsaved, mailbox) && Extends(old(oldsaved), oldsaved)
      ensures |probed| <= Log2Ceil(count + 1)
      ensures old(oldsaved).nums.Keys <= oldsaved.nums.Keys && forall k | k in probed :: k in oldsaved.nums
      ensures !ok ==> last == old(last)
      ensures (forall i | 0 <= i < |replies| :: replies[i].Some?) ==> ok
      ensures ok ==> last <= count && newp == count - last
      ensures ok && last > 0 ==> last in oldsaved.nums && Seen(oldsaved, UidOf(mailbox, last))
      ensures ok && last < count ==> last + 1 in oldsaved.nums && Unseen(oldsaved, UidOf(mailbox, last + 1))
    {
      hide NumsTrue;
      var firstNr, lastNr := 0, count + 1;
      probed, newp := [], 0;
      while firstNr < lastNr - 1
        invariant 0 <= firstNr < lastNr <= count + 1
        invariant NumsTrue(oldsaved, mailbox) && Extends(old(oldsaved), oldsaved)
        invariant old(oldsaved).nums.Keys <= oldsaved.nums.Keys && forall k | k in probed :: k in oldsaved.nums
        invariant last == old(last)
        invariant firstNr > 0 ==> firstNr in oldsaved.nums && Seen(oldsaved, UidOf(mailbox, firstNr))
        invariant lastNr <= count ==> lastNr in oldsaved.nums && Unseen(oldsaved, UidOf(mailbox, lastNr))
        invariant |probed| + Log2Ceil(lastNr - firstNr) <= Log2Ceil(count + 1)
        decreases lastNr - firstNr
      {
        var tryNr := (firstNr + lastNr) / 2;
        if replies[tryNr - 1].None? {
          return false, 0, probed;
        }
        probed := probed + [tryNr];
        ghost var before := lastNr - firstNr;
        var unseen := Probe(tryNr, replies[tryNr - 1].value, mailbox);
        if unseen {
          lastNr := tryNr;
        } else {
          firstNr := tryNr;
        }
        Log2CeilMonotone(lastNr - firstNr, (before + 1) / 2);
      }
      ok := true;
      newp := count - firstNr;
      last := firstNr;
    }

    /** One line of the UIDL reply in pop3_getrange. */
    method ListLine(unum: nat, id: Id, flush: bool, ghost mailbox: seq<Id>) returns (isNew: bool)
      requires DistinctIds(mailbox) && 1 <= unum <= |mailbox| && UidOf(mailbox, unum) == id
      requires Paired(oldsaved, newsaved, mailbox, flush) && !Has(newsaved.list, id)
      modifies `oldsaved, `newsaved
      ensures Paired(oldsaved, newsaved, mailbox, flush)
      ensures Extends(old(oldsaved), oldsaved)
      ensures |newsaved.list| == |old(newsaved).list| + 1
      ensures newsaved.list == old(newsaved).list + [Entry(id, newsaved.list[|old(newsaved).list|].status)]
      ensures isNew <==> !Seen(old(oldsaved), id)
      ensures isNew <==> newsaved.list[|old(newsaved).list|].status == UID_UNSEEN
      ensures StillThere(newsaved.list[|old(newsaved).list|].status)
    {
      var newRec := |newsaved.list|;
      newsaved := Append(newsaved, id, UID_UNSEEN);
      var oldRec, mark := FindOrEnter(id, mailbox);
      newsaved := SetMark(newsaved, newRec, mark);
      isNew := mark == UID_UNSEEN;
      assert newsaved == Append(old(newsaved), id, mark);
      PairedLine(old(oldsaved), oldsaved, old(newsaved), unum, id, mark, mailbox, flush);
      if mark == UID_UNSEEN || flush {
        oldsaved := SetNum(oldsaved, oldRec, unum);
        newsaved := SetNum(newsaved, newRec, unum);
      }
    }

    /** The full UIDL listing of pop3_getrange.  It ends at the first line that cannot be
        parsed, with an error, or when there are no more lines, for whatever reason. */
    method ListAll(lines: seq<Option<(nat, Id)>>, flush: bool, ghost mailbox: seq<Id>) returns (ok: bool, newp: nat)
      requires DistinctIds(mailbox) && LinesTrue(lines, mailbox)
      requires newsaved == Store([], map[]) && oldsaved.nums == map[]
      modifies `oldsaved, `newsaved
      ensures Paired(oldsaved, newsaved, mailbox, flush) && Extends(old(oldsaved), oldsaved)
      ensures ok <==> forall i | 0 <= i < |lines| :: lines[i].Some?
      ensures ok ==> ListedSoFar(newsaved, lines, |lines|) && VerdictsFrom(old(oldsaved), newsaved)
      ensures ok ==> newp == CountUnseen(newsaved.list)
    {
      NothingListed(oldsaved, lines, mailbox, flush);
      hide Paired, Extends, ListedSoFar, VerdictsFrom, Seen, Unseen, CountUnseen, Has;
      newp := 0;
      var i := 0;
      while i < |lines|
        invariant i <= |lines| && (forall j | 0 <= j < i :: lines[j].Some?)
        invariant Paired(oldsaved, newsaved, mailbox, flush) && Extends(old(oldsaved), oldsaved)
        invariant ListedSoFar(newsaved, lines, i) && VerdictsFrom(old(oldsaved), newsaved)
        invariant newp == CountUnseen(newsaved.list)
      {
        if lines[i].None? {
          return false, newp;
        }
        var (unum, id) := lines[i].value;
        NotYetListed(newsaved, lines, i, mailbox);
        ghost var was, listed := oldsaved, newsaved;
        var isNew := ListLine(unum, id, flush, mailbox);
        OneMoreListed(old(oldsaved), was, oldsaved, listed, newsaved, lines, i);
        if isNew {
          newp := newp + 1;
        }
        i := i + 1;
      }
      ok := true;
    }

    /** What holds between the commands of a poll: in fast mode only the old store is used. */
    ghost predicate Session(mailbox: seq<Id>, flush: bool)
      reads this
    {
      && DistinctIds(mailbox)
      && if dofastuidl then NumsTrue(oldsaved, mailbox) && newsaved == Store([], map[])
         else Paired(oldsaved, newsaved, mailbox, flush)
    }

    /** The UIDL part of pop3_getrange, on a mailbox of `count` messages. */
    method GetRange(count: nat, fetchall: bool, flush: bool, fastuidl: int, fastuidlcount: int,
                    replies: seq<Option<Id>>, lines: seq<Option<(nat, Id)>>, ghost mailbox: seq<Id>)
      returns (ok: bool, newp: int)
      requires DistinctIds(mailbox) && count == |mailbox| && !dofastuidl
      requires Truthful(replies, mailbox) && LinesTrue(lines, mailbox)
      modifies this
      ensures Extends(old(oldsaved), oldsaved) && last <= count
      ensures count > 0 ==> Session(mailbox, flush)
      ensures dofastuidl <==> count > 7 && !fetchall && !flush && fastuidl > 0 && (fastuidl == 1 || fastuidlcount != 0)
      ensures ok && dofastuidl && last > 0 ==> Seen(old(oldsaved), UidOf(mailbox, last))
      ensures ok && dofastuidl && last < count ==> !Seen(old(oldsaved), UidOf(mailbox, last + 1))
      ensures ok && dofastuidl ==> oldsaved.list != []
      ensures !dofastuidl ==> last == 0
      ensures dofastuidl && (forall i | 0 <= i < |replies| :: replies[i].Some?) ==> ok
      ensures !dofastuidl && (forall i | 0 <= i < |lines| :: lines[i].Some?) ==> ok
      ensures ok && count > 0 && !dofastuidl ==>
                (forall i | 0 <= i < |lines| :: lines[i].Some?) && ListedSoFar(newsaved, lines, |lines|)
      ensures ok && count > 0 && !dofastuidl ==> VerdictsFrom(old(oldsaved), newsaved)
      ensures count == 0 ==> ok && newsaved == Store([], map[]) && oldsaved == old(oldsaved)
      ensures sent == old(sent)
    {
      newsaved := Store([], map[]);
      last := 0;
      newp := -1;
      ok := true;
      if count > 0 {
        highest := count;
        oldsaved := oldsaved.(nums := map[]);
        assert Extends(old(oldsaved), oldsaved);
        dofastuidl := count > 7 && !fetchall && !flush && fastuidl > 0
                      && (fastuidl == 1 || fastuidlcount != 0);
        if dofastuidl {
          var probed;
          ok, newp, probed := FastUidl(count, replies, mailbox);
        } else {
          ok, newp := ListAll(lines, flush, mailbox);
        }
      }
    }

    /** pop3_is_old.  The answer is wrong only in fast mode, and there only if it is `yes` because
        of the position of the message or because the server would not tell its UID. */
    method IsOld(num: nat, replies: seq<Option<Id>>, ghost flush: bool, ghost mailbox: seq<Id>) returns (r: bool)
      requires Session(mailbox, flush) && Truthful(replies, mailbox) && 1 <= num <= |mailbox|
      modifies `oldsaved
      ensures Session(mailbox, flush) && Extends(old(oldsaved), oldsaved) && |oldsaved.list| >= |old(oldsaved).list|
      ensures old(oldsaved).list == [] ==> oldsaved == old(oldsaved) && r == (num <= last)
      ensures old(oldsaved).list != [] && dofastuidl ==>
                (r <==> num <= last || (num !in old(oldsaved).nums && replies[num - 1].None?)
                        || Seen(old(oldsaved), UidOf(mailbox, num)))
      ensures !dofastuidl ==> oldsaved == old(oldsaved)
      ensures old(oldsaved).list != [] && !dofastuidl && Has(newsaved.list, UidOf(mailbox, num)) ==>
                (r <==> Seen(oldsaved, UidOf(mailbox, num)))
      ensures old(oldsaved).list != [] && !dofastuidl && !Has(newsaved.list, UidOf(mailbox, num)) ==> r
      ensures old(oldsaved).list != [] && !r ==> num in (if dofastuidl then oldsaved else newsaved).nums
      ensures OthersKept(old(oldsaved), oldsaved, UidOf(mailbox, num))
    {
      hide OthersKept;
      KeptAlike(oldsaved, UidOf(mailbox, num));
      if oldsaved.list == [] {
        return num <= last;
      } else if dofastuidl {
        if num <= last {
          return true;
        }
        if num in oldsaved.nums {
          return oldsaved.list[oldsaved.nums[num]].status != UID_UNSEEN;
        }
        if replies[num - 1].None? {
          return true;
        }
        var id := replies[num - 1].value;
        var rec := Find(oldsaved.list, id);
        if rec < |oldsaved.list| {
          oldsaved := SetNum(oldsaved, rec, num);
          return oldsaved.list[rec].status != UID_UNSEEN;
        }
        AppendUnseen(oldsaved, id, mailbox);
        FindAppend(oldsaved.list, Entry(id, UID_UNSEEN), id);
        AppendKeeps(oldsaved, id, UID_UNSEEN, num);
        rec := |oldsaved.list|;
        oldsaved := Append(oldsaved, id, UID_UNSEEN);
        oldsaved := SetNum(oldsaved, rec, num);
        return false;
      } else {
        r := num !in newsaved.nums || newsaved.list[newsaved.nums[num]].status != UID_UNSEEN;
      }
    }

    /** RETR or TOP, in pop3_fetch. */
    method FetchMessage(num: nat)
      modifies `sent
      ensures sent == old(sent) + [Retr(num)]
    {
      sent := sent + [Retr(num)];
    }

    /** mark_uid_seen */
    method MarkUidSeen(num: nat, ghost flush: bool, ghost mailbox: seq<Id>)
      requires Session(mailbox, flush) && 1 <= num <= |mailbox|
      modifies `oldsaved, `newsaved
      ensures Session(mailbox, flush)
      ensures oldsaved.nums == old(oldsaved).nums && newsaved.nums == old(newsaved).nums
      ensures num in oldsaved.nums ==>
                OnlyNowSeen(old(oldsaved), oldsaved, UidOf(mailbox, num))
                && Mark(oldsaved.list, UidOf(mailbox, num)) == UID_SEEN
      ensures num !in oldsaved.nums ==> oldsaved == old(oldsaved)
      ensures num in newsaved.nums ==>
                OnlyNowSeen(old(newsaved), newsaved, UidOf(mailbox, num))
                && Mark(newsaved.list, UidOf(mailbox, num)) == UID_SEEN
      ensures num !in newsaved.nums ==> newsaved == old(newsaved)
    {
      ghost var id := UidOf(mailbox, num);
      if num in newsaved.nums {
        PairedMarks(oldsaved, newsaved, id, UID_SEEN, UID_SEEN, mailbox, flush);
        NowSeen(newsaved, id, UID_SEEN);
        newsaved := SetMark(newsaved, newsaved.nums[num], UID_SEEN);
      }
      if num in oldsaved.nums {
        SetFirst(oldsaved, id, UID_SEEN, mailbox);
        NowSeen(oldsaved, id, UID_SEEN);
        oldsaved := SetMark(oldsaved, oldsaved.nums[num], UID_SEEN);
      }
    }

    /** pop3_delete.  The source dereferences the record it finds, so there must be one. */
    method Delete(num: nat, dele: bool, ghost flush: bool, ghost mailbox: seq<Id>) returns (ok: bool)
      requires Session(mailbox, flush) && 1 <= num <= |mailbox|
      requires num in (if dofastuidl then oldsaved else newsaved).nums
      modifies `oldsaved, `newsaved, `sent
      ensures Session(mailbox, flush) && ok == dele && sent == old(sent) + [Dele(num)]
      ensures oldsaved.nums == old(oldsaved).nums && newsaved.nums == old(newsaved).nums
      ensures SeenGrows(old(oldsaved), oldsaved, UidOf(mailbox, num))
      ensures !dofastuidl ==> SeenGrows(old(newsaved), newsaved, UidOf(mailbox, num))
      ensures |newsaved.list| == |old(newsaved).list|
      ensures Mark((if dofastuidl then oldsaved else newsaved).list, UidOf(mailbox, num)) ==
              if dele then UID_DELETED else UID_SEEN
      ensures !dofastuidl ==> Mark(oldsaved.list, UidOf(mailbox, num)) == UID_SEEN
    {
      hide SeenGrows, Paired, NumsTrue, DistinctIds;
      ghost var id := UidOf(mailbox, num);
      if !dofastuidl {
        PairedLeads(oldsaved, newsaved, num, mailbox, flush);
      }
      MarkUidSeen(num, flush, mailbox);
      sent := sent + [Dele(num)];
      ghost var was, listed := oldsaved, newsaved;
      if dele {
        if dofastuidl {
          NumberLeads(oldsaved, num, mailbox);
          SetFirst(oldsaved, id, UID_DELETED, mailbox);
          NowSeen(oldsaved, id, UID_DELETED);
          oldsaved := SetMark(oldsaved, oldsaved.nums[num], UID_DELETED);
          GrowsTwice(old(oldsaved), was, oldsaved, id);
        } else {
          PairedLeads(oldsaved, newsaved, num, mailbox, flush);
          PairedDeleted(oldsaved, newsaved, id, UID_DELETED, mailbox, flush);
          NowSeen(newsaved, id, UID_DELETED);
          newsaved := SetMark(newsaved, newsaved.nums[num], UID_DELETED);
          GrowsTwice(old(newsaved), listed, newsaved, id);
        }
      }
      if !dofastuidl {
        GrowsSize(old(newsaved), newsaved, id);
      }
      ok := dele;
    }

    /** expunge_uids: what was deleted is now gone from the server. */
    method ExpungeUids(ghost flush: bool, ghost mailbox: seq<Id>)
      requires Session(mailbox, flush)
      modifies `oldsaved, `newsaved
      ensures Session(mailbox, flush)
      ensures AllExpunged(old(if dofastuidl then oldsaved else newsaved), if dofastuidl then oldsaved else newsaved)
      ensures if dofastuidl then newsaved == old(newsaved) else oldsaved == old(oldsaved)
      ensures SameSeen(old(oldsaved), oldsaved) && SameSeen(old(newsaved), newsaved)
    {
      hide Paired, NumsTrue, Expunged, SameSeen, DistinctIds;
      var list := if dofastuidl then oldsaved.list else newsaved.list;
      var marked := MarkExpunged(list);
      AllSame(oldsaved);
      AllSame(newsaved);
      if dofastuidl {
        ExpungedNums(oldsaved, oldsaved.(list := marked), mailbox);
        oldsaved := oldsaved.(list := marked);
      } else {
        ExpungedPaired(oldsaved, newsaved, newsaved.(list := marked), mailbox, flush);
        newsaved := newsaved.(list := marked);
      }
    }

    static method MarkExpunged(list: seq<Entry>) returns (marked: seq<Entry>)
      ensures |marked| == |list| && forall j | 0 <= j < |list| :: marked[j] == Expunged(list[j])
    {
      marked := list;
      var ndx := 0;
      while ndx < |list|
        invariant ndx <= |list| == |marked|
        invariant forall j | 0 <= j < |list| :: marked[j] == if j < ndx then Expunged(list[j]) else list[j]
      {
        if marked[ndx].status == UID_DELETED {
          marked := marked[ndx := marked[ndx].(status := UID_EXPUNGED)];
        }
        ndx := ndx + 1;
      }
    }

    /** uid_swap_lists and uid_discard_new_list, by the status of the query; then
        uid_reset_num, which clears the numbers of the old store if there is one below the highest. */
    method FinishQuery(success: bool)
      modifies `oldsaved, `newsaved, `dofastuidl
      ensures newsaved == if old(newsaved).list != [] then Store([], map[]) else old(newsaved)
      ensures oldsaved == WithoutNums(if success && old(newsaved).list != [] then old(newsaved)
        else old(oldsaved), highest)
      ensures !dofastuidl
    {
      if newsaved.list != [] {
        if success {
          oldsaved := newsaved;
        }
        newsaved := Store([], map[]);
      }
      oldsaved := WithoutNums(oldsaved, highest);
      dofastuidl := false;
    }

    /** One poll: getrange, fetch_messages, logout and the end of query_host's caller.
        `answers` are those of pop3_is_old, for messages 1, 2, ... as far as the poll came;
        `last` is then the one the listing or the search left. */
    method RunPoll(p: Poll) returns (answers: seq<bool>)
      requires PollOk(p) && !dofastuidl
      modifies this
      ensures !dofastuidl
      ensures PollContract(old(oldsaved), oldsaved, p, answers, last) && sent == Said(p, answers)
    {
      var count := |p.mailbox|;
      assert |p.outcomes| == count;
      hide Judged, PollContract, Paired, NumsTrue, SameSeen, Complete, PollOk, AllExpunged, Extends;
      hide NoneStops, Reaches, Answered, MarkedRight, AllMarked, Agreed, Fetching, Full;
      answers, sent := [], [];
      ghost var start := oldsaved;
      var ok := OpenMailbox(p);
      if !ok || count == 0 {
        ghost var kept := oldsaved;
        FinishQuery(ok && p.success);
        NoAnswers(start, kept, oldsaved, p, last);
        return;
      }
      answers, ok := FetchMessages(p, start);
      EndPoll(p, start, answers, ok);
    }

    /** The logout after fetch_messages, and the end of the query. */
    method EndPoll(p: Poll, ghost start: Store, ghost answers: seq<bool>, ok: bool)
      requires PollOk(p) && p.mailbox != [] && (Full(p) ==> Answered(p))
      requires Fetching(start, p, answers) && Reaches(p, answers) && (ok <==> Agreed(p, answers))
      modifies `oldsaved, `newsaved, `dofastuidl
      ensures !dofastuidl && PollContract(start, oldsaved, p, answers, last)
    {
      hide Judged, PollContract, Paired, NumsTrue, SameSeen, Complete, PollOk, AllExpunged, Extends, Full;
      hide NoneStops, Reaches, Answered, MarkedRight, AllMarked, Said, Agreed;
      ghost var before, listed := oldsaved, newsaved;
      if p.quit {
        ExpungeUids(p.flush, p.mailbox);
        JudgedSame(start, before, oldsaved, listed, newsaved, p, answers, last);
      }
      ghost var oldEnd, newEnd := oldsaved, newsaved;
      FinishQuery(ok && p.success);
      CompleteList(newEnd, p.mailbox);
      MarkedAtEnd(p, before, oldEnd, listed, newEnd, oldsaved, answers);
      PollEnd(start, oldEnd, newEnd, oldsaved, p, answers, last);
    }

    /** fetch_messages, as far as UIDs are concerned. */
    method FetchMessages(p: Poll, ghost start: Store) returns (answers: seq<bool>, ok: bool)
      requires PollOk(p) && Fetching(start, p, [])
      modifies `oldsaved, `newsaved, `sent
      ensures Fetching(start, p, answers) && Reaches(p, answers) && (ok <==> Agreed(p, answers))
    {
      var count := |p.mailbox|;
      assert |p.outcomes| == count;
      hide Fetching, NoneStops, Reaches, PollOk, Agreed, Removes;
      answers, ok := [], true;
      var num := 1;
      NothingStopped(p);
      while num <= count
        invariant 1 <= num <= count + 1 && |answers| == num - 1 && ok
        invariant Fetching(start, p, answers) && NoneStops(p, answers) && Agreed(p, answers)
      {
        var judgedOld;
        judgedOld, ok := HandleMessage(num, p, start, answers);
        StopsNext(p, answers, judgedOld);
        AgreedNext(p, answers, judgedOld);
        answers := answers + [judgedOld];
        num := num + 1;
        if !ok || p.outcomes[num - 2].stop {
          return;
        }
      }
      ReachesEnd(p, answers);
    }

    method OpenMailbox(p: Poll) returns (ok: bool)
      requires PollOk(p) && !dofastuidl
      modifies this
      ensures Extends(old(oldsaved), oldsaved)
      requires sent == []
      ensures ok && p.mailbox != [] ==> Fetching(old(oldsaved), p, [])
      ensures Answered(p) ==> ok
      ensures ok && p.mailbox != [] && Full(p) ==> Answered(p)
      ensures p.mailbox == [] ==> newsaved == Store([], map[])
      ensures sent == []
    {
      hide AllMarked, Extends, Seen, VerdictsFrom, Judged, Paired, NumsTrue, Has, Mark;
      ghost var start := oldsaved;
      var newp;
      ok, newp := GetRange(|p.mailbox|, false, p.flush, p.fastuidl, p.fastuidlcount, p.replies, p.lines, p.mailbox);
      if ok && p.mailbox != [] {
        if !dofastuidl {
          ListingComplete(newsaved, p);
          CompleteList(newsaved, p.mailbox);
          OldToo(oldsaved, newsaved, p);
        }
        JudgedFirst(start, oldsaved, p, last);
        NothingMarked(p, start, if dofastuidl then oldsaved else newsaved, oldsaved);
      }
    }

    /** What the loop of fetch_messages keeps. */
    ghost predicate Fetching(start: Store, p: Poll, answers: seq<bool>)
      reads this
    {
      && Session(p.mailbox, p.flush) && oldsaved.list != [] && (dofastuidl <==> !Full(p))
      && (!dofastuidl ==> Complete(newsaved, p.mailbox))
      && Judged(start, oldsaved, p, answers, last)
      && AllMarked(p, if dofastuidl then oldsaved else newsaved, oldsaved, answers) && sent == Said(p, answers)
    }

    /** The part of fetch_messages that concerns UIDs, for one message. */
    method HandleMessage(num: nat, p: Poll, ghost start: Store, ghost answers: seq<bool>) returns (judgedOld: bool,
      ok: bool)
      requires PollOk(p) && 1 <= num <= |p.mailbox| && |answers| == num - 1
      requires Fetching(start, p, answers)
      modifies `oldsaved, `newsaved, `sent
      ensures Fetching(start, p, answers + [judgedOld])
      ensures ok <==> (Removes(p, num, judgedOld) ==> p.outcomes[num - 1].dele)
    {
      hide NumsTrue, OnceEach, SameVerdicts, Boundary, AnswersFor, SeenExactly, AllMarked, Said, Saying, OthersKept;
      hide MarkedSoFar, MarkedHere, Removes, Settles;
      ghost var was, listed := oldsaved, newsaved;
      judgedOld := IsOld(num, p.replies, p.flush, p.mailbox);
      JudgedExtends(start, was, oldsaved, p, answers, last);
      JudgedHere(start, was, p, answers, last);
      JudgedHere(start, oldsaved, p, answers, last);
      MustHave(p, num, judgedOld);
      ghost var before := oldsaved;
      ok := SettleMessage(num, p, judgedOld);
      JudgedNext(start, before, oldsaved, p, answers, judgedOld, last);
      SaidNext(p, answers, judgedOld);
      KeptTwice(was, before, oldsaved, UidOf(p.mailbox, num));
      KeptAlike(listed, UidOf(p.mailbox, num));
      KeptTwice(listed, listed, newsaved, UidOf(p.mailbox, num));
      MarkedNow(p, if dofastuidl then was else listed, if dofastuidl then oldsaved
        else newsaved, was, oldsaved, answers,
                judgedOld);
      MarkedNext(p, if dofastuidl then was else listed, if dofastuidl then oldsaved
        else newsaved, was, oldsaved, answers,
                 judgedOld);
    }

    /** Reads the message unless it is old or too large, and deletes it or marks it as seen. */
    method SettleMessage(num: nat, p: Poll, judgedOld: bool) returns (ok: bool)
      requires Session(p.mailbox, p.flush) && 1 <= num <= |p.mailbox| == |p.outcomes|
      requires Removes(p, num, judgedOld) || Settles(p, num, judgedOld) ==>
                 num in (if dofastuidl then oldsaved else newsaved).nums
      modifies `oldsaved, `newsaved, `sent
      ensures Session(p.mailbox, p.flush)
      ensures sent == old(sent) + Saying(p, num, judgedOld)
      ensures ok <==> (Removes(p, num, judgedOld) ==> p.outcomes[num - 1].dele)
      ensures if Removes(p, num, judgedOld) || Settles(p, num, judgedOld) then
                && SeenGrows(old(oldsaved), oldsaved, UidOf(p.mailbox, num))
                && (!dofastuidl ==> SeenGrows(old(newsaved), newsaved, UidOf(p.mailbox, num)))
              else oldsaved == old(oldsaved) && newsaved == old(newsaved)
      ensures MarkedHere(p, if dofastuidl then oldsaved else newsaved, oldsaved, num, judgedOld, !dofastuidl)
    {
      hide NumsTrue, OnceEach, SameVerdicts, OthersKept;
      ok := true;
      var o := p.outcomes[num - 1];
      if !judgedOld && !o.oversized {
        FetchMessage(num);
      }
      if if judgedOld then p.flush else if o.oversized then p.limitflush else o.accepted && !p.keep {
        ok := Delete(num, o.dele, p.flush, p.mailbox);
      } else if !judgedOld && !o.oversized && o.accepted {
        MarkUidSeen(num, p.flush, p.mailbox);
      }
    }
  }

  /** A command about message `num`: RETR (or TOP), and DELE. */
  datatype Command = Retr(num: nat) | Dele(num: nat)

  /** What happens to a message that is not old: `oversized` says that it is larger than the limit; if it is not, it
      is read, and `accepted` says that it was delivered.  `dele` is the reply to DELE, and `stop` says that the poll
      ends here. */
  datatype Outcome = Outcome(oversized: bool, accepted: bool, dele: bool, stop: bool)

  datatype Poll = Poll(mailbox: seq<Id>, keep: bool, flush: bool, limitflush: bool, fastuidl: int, fastuidlcount: int,
                       replies: seq<Option<Id>>, lines: seq<Option<(nat, Id)>>, outcomes: seq<Outcome>,
                       quit: bool, success: bool)

  /** A poll of a server that gives each message its own UID and tells the truth about it.  A
      listing that can be parsed to its end is complete. */
  ghost predicate PollOk(p: Poll) {
    && DistinctIds(p.mailbox) && Truthful(p.replies, p.mailbox) && LinesTrue(p.lines, p.mailbox)
    && |p.outcomes| == |p.mailbox|
    && ((forall i | 0 <= i < |p.lines| :: p.lines[i].Some?) ==>
          forall k | 1 <= k <= |p.mailbox| :: exists i | 0 <= i < |p.lines| :: p.lines[i].value.1 == UidOf(p.mailbox,
            k))
  }

  /** The poll lists all UIDs. */
  predicate Full(p: Poll) {
    !(|p.mailbox| > 7 && !p.flush && p.fastuidl > 0 && (p.fastuidl == 1 || p.fastuidlcount != 0))
  }

  /** The server answers all that the listing or the search asks for. */
  ghost predicate Answered(p: Poll) {
    if Full(p) then forall i | 0 <= i < |p.lines| :: p.lines[i].Some?
    else forall i | 0 <= i < |p.replies| :: p.replies[i].Some?
  }

  /** Message `k` is to be deleted. */
  predicate Removes(p: Poll, k: nat, judgedOld: bool)
    requires 1 <= k <= |p.outcomes|
  {
    var o := p.outcomes[k - 1];
    if judgedOld then p.flush else if o.oversized then p.limitflush else o.accepted && !p.keep
  }

  /** Message `k` is new, and is dealt with: delivered, or flushed because it is too large. */
  predicate Settles(p: Poll, k: nat, judgedOld: bool)
    requires 1 <= k <= |p.outcomes|
  {
    var o := p.outcomes[k - 1];
    !judgedOld && if o.oversized then p.limitflush else o.accepted
  }

  /** The poll ends with message `k`: for a reason of its own, or because the server does not delete. */
  predicate Stops(p: Poll, k: nat, judgedOld: bool)
    requires 1 <= k <= |p.outcomes|
  {
    p.outcomes[k - 1].stop || (Removes(p, k, judgedOld) && !p.outcomes[k - 1].dele)
  }

  ghost predicate NoneStops(p: Poll, answers: seq<bool>) {
    |answers| <= |p.outcomes| && forall k | 1 <= k <= |answers| :: !Stops(p, k, Answer(answers, k))
  }

  /** The poll went on to the end of the mailbox or to the first message that ends it. */
  ghost predicate Reaches(p: Poll, answers: seq<bool>) {
    var n := |answers|;
    && n <= |p.outcomes| == |p.mailbox|
    && (forall k | 1 <= k < n :: !Stops(p, k, Answer(answers, k)))
    && (n < |p.mailbox| ==> n > 0 && Stops(p, n, Answer(answers, n)))
  }

  /** What is listed is in the old store. */
  lemma OldToo(oldStore: Store, newStore: Store, p: Poll)
    requires Paired(oldStore, newStore, p.mailbox, p.flush) && Complete(newStore, p.mailbox) && p.mailbox != []
    ensures oldStore.list != []
  {
    assert Has(newStore.list, UidOf(p.mailbox, 1));
  }

  /** Before the first message. */
  lemma JudgedFirst(start: Store, s: Store, p: Poll, last: nat)
    requires PollOk(p) && Extends(start, s) && last <= |p.mailbox| && (Full(p) ==> last == 0)
    requires !Full(p) && last > 0 ==> Seen(start, UidOf(p.mailbox, last))
    requires !Full(p) && last < |p.mailbox| ==> !Seen(start, UidOf(p.mailbox, last + 1))
    ensures Judged(start, s, p, [], last)
  {
  }

  lemma CompleteList(s: Store, mailbox: seq<Id>)
    requires mailbox != []
    ensures Complete(s, mailbox) ==> s.list != []
  {
    assert Complete(s, mailbox) ==> Has(s.list, UidOf(mailbox, 1));
  }

  lemma NothingStopped(p: Poll)
    ensures NoneStops(p, [])
  {
  }

  lemma ReachesEnd(p: Poll, answers: seq<bool>)
    requires |p.outcomes| == |p.mailbox| == |answers| && NoneStops(p, answers)
    ensures Reaches(p, answers)
  {
  }

  lemma StopsNext(p: Poll, answers: seq<bool>, answer: bool)
    requires NoneStops(p, answers) && |answers| < |p.outcomes| == |p.mailbox|
    ensures Stops(p, |answers| + 1, answer) ==> Reaches(p, answers + [answer])
    ensures !Stops(p, |answers| + 1, answer) ==> NoneStops(p, answers + [answer])
  {
    var more := answers + [answer];
    assert forall k | 1 <= k <= |answers| :: Answer(more, k) == Answer(answers, k);
    assert Answer(more, |more|) == answer;
  }

  ghost predicate Complete(s: Store, mailbox: seq<Id>) {
    forall k | 1 <= k <= |mailbox| :: Has(s.list, UidOf(mailbox, k))
  }

  function Answer(answers: seq<bool>, k: nat): bool
    requires 1 <= k <= |answers|
  {
    answers[k - 1]
  }

  /** Every answer is right about the store `s` the poll began with, except that in fast mode
      messages up to `last` and those whose UID the server would not tell are said to be old. */
  ghost predicate AnswersFor(s: Store, p: Poll, answers: seq<bool>, last: nat)
    requires |answers| <= |p.mailbox| == |p.replies|
  {
    forall k | 1 <= k <= |answers| ::
      && (Seen(s, UidOf(p.mailbox, k)) ==> Answer(answers, k))
      && (Full(p) || (k > last && p.replies[k - 1].Some?) ==> (Answer(answers, k) <==> Seen(s, UidOf(p.mailbox, k))))
      && (!Full(p) && k <= last ==> Answer(answers, k))
  }

  /** `last` is the last message of a run of messages that ends with a seen one, and the next is unseen. */
  ghost predicate Boundary(s: Store, mailbox: seq<Id>, last: nat) {
    && last <= |mailbox|
    && (last > 0 ==> Seen(s, UidOf(mailbox, last)))
    && (last < |mailbox| ==> !Seen(s, UidOf(mailbox, last + 1)))
  }

  /** Message `k` was judged new, and dealt with. */
  predicate Taken(p: Poll, answers: seq<bool>, k: nat) {
    1 <= k <= |answers| && k <= |p.outcomes| && Settles(p, k, Answer(answers, k))
  }

  /** Of the messages on the server exactly those are seen that were before or are now judged new and dealt with. */
  ghost predicate SeenExactly(start: Store, s: Store, p: Poll, answers: seq<bool>) {
    forall k | 1 <= k <= |p.mailbox| ::
      Seen(s, UidOf(p.mailbox, k)) <==> Seen(start, UidOf(p.mailbox, k)) || Taken(p, answers, k)
  }

  /** Between two messages of a poll that began with `start`. */
  ghost predicate Judged(start: Store, s: Store, p: Poll, answers: seq<bool>, last: nat) {
    && |answers| <= |p.mailbox| == |p.replies| == |p.outcomes|
    && (!Full(p) ==> Boundary(start, p.mailbox, last)) && (Full(p) ==> last == 0)
    && AnswersFor(start, p, answers, last) && SeenExactly(start, s, p, answers)
    && (forall x: Id | Seen(start, x) :: Seen(s, x))
  }

  /** What a poll that finds the old store `s` and leaves `s'` guarantees. */
  ghost predicate PollContract(s: Store, s': Store, p: Poll, answers: seq<bool>, last: nat) {
    && |answers| <= |p.mailbox| == |p.replies| == |p.outcomes|
    && (Answered(p) ==> Reaches(p, answers))
    && SeenExactly(s, s', p, answers)
    && (!Full(p) || !p.success ==> forall x: Id | Seen(s, x) :: Seen(s', x))
    && (answers != [] ==> AnswersFor(s, p, answers, last) && (!Full(p) ==> Boundary(s, p.mailbox, last)))
    && MarkedRight(p, s', answers)
  }

  /** One more message judged. */
  lemma JudgedNext(start: Store, before: Store, after: Store, p: Poll, answers: seq<bool>, answer: bool, last: nat)
    requires PollOk(p) && |answers| < |p.mailbox| && Judged(start, before, p, answers, last)
    requires var k := |answers| + 1;
             && (Seen(start, UidOf(p.mailbox, k)) ==> answer)
             && (Full(p) || (k > last && p.replies[k - 1].Some?) ==> (answer <==> Seen(start, UidOf(p.mailbox, k))))
             && (!Full(p) && k <= last ==> answer)
    requires var id := UidOf(p.mailbox, |answers| + 1);
             if Seen(start, id) || Settles(p, |answers| + 1, answer) then after == before ||
               SeenGrows(before, after, id)
             else after == before
    requires Settles(p, |answers| + 1, answer) ==> Seen(after, UidOf(p.mailbox, |answers| + 1))
    ensures Judged(start, after, p, answers + [answer], last)
  {
    var more := answers + [answer];
    forall k | 1 <= k <= |more| ensures Answer(more, k) == if k <= |answers| then Answer(answers, k) else answer {
    }
    forall k | 1 <= k <= |p.mailbox|
      ensures Seen(after, UidOf(p.mailbox, k)) <==> Seen(start, UidOf(p.mailbox, k)) || Taken(p, more, k)
    {
      var id, now := UidOf(p.mailbox, k), UidOf(p.mailbox, |more|);
      assert Seen(before, id) <==> Seen(start, id) || Taken(p, answers, k);
      assert k != |more| ==> id != now;
      assert k != |more| ==> (Taken(p, answers, k) <==> Taken(p, more, k));
    }
  }

  lemma JudgedSame(start: Store, s: Store, s': Store, listed: Store, listed': Store, p: Poll, answers: seq<bool>,
    last: nat)
    requires PollOk(p) && Judged(start, s, p, answers, last) && SameSeen(s, s') && SameSeen(listed, listed')
    ensures Judged(start, s', p, answers, last)
    ensures Complete(listed, p.mailbox) ==> Complete(listed', p.mailbox)
  {
    hide Boundary, AnswersFor;
  }

  lemma JudgedExtends(start: Store, s: Store, s': Store, p: Poll, answers: seq<bool>, last: nat)
    requires PollOk(p) && Judged(start, s, p, answers, last) && Extends(s, s')
    ensures Judged(start, s', p, answers, last)
  {
    hide Boundary, AnswersFor;
  }

  /** The next message is as the poll found it. */
  lemma JudgedHere(start: Store, s: Store, p: Poll, answers: seq<bool>, last: nat)
    requires Judged(start, s, p, answers, last) && |answers| < |p.mailbox|
    ensures Seen(s, UidOf(p.mailbox, |answers| + 1)) <==> Seen(start, UidOf(p.mailbox, |answers| + 1))
  {
  }

  lemma NoAnswers(start: Store, kept: Store, s': Store, p: Poll, last: nat)
    requires PollOk(p) && Extends(start, kept) && s'.list == kept.list && (p.mailbox == [] || !Answered(p))
    ensures PollContract(start, s', p, [], last)
  {
    assert forall x: Id :: Seen(s', x) <==> Seen(kept, x);
  }

  /** The end of a poll, by swapping the stores or keeping the old one. */
  lemma PollEnd(start: Store, oldEnd: Store, newEnd: Store, s': Store, p: Poll, answers: seq<bool>, last: nat)
    requires PollOk(p) && Judged(start, oldEnd, p, answers, last)
    requires if Full(p) then Paired(oldEnd, newEnd, p.mailbox, p.flush) && Complete(newEnd, p.mailbox)
      else newEnd.list == []
    requires Reaches(p, answers) && MarkedRight(p, s', answers)
    requires s'.list == oldEnd.list || (p.success && newEnd.list != [] && s'.list == newEnd.list)
    ensures PollContract(start, s', p, answers, last)
  {
    forall k | 1 <= k <= |p.mailbox| ensures Seen(s', UidOf(p.mailbox, k)) <==> Seen(oldEnd, UidOf(p.mailbox, k)) {
      assert Full(p) ==> Has(newEnd.list, UidOf(p.mailbox, k));
    }
    assert s'.list == oldEnd.list ==> forall x: Id :: Seen(s', x) <==> Seen(oldEnd, x);
  }

  lemma ListingComplete(s: Store, p: Poll)
    requires PollOk(p) && (forall i | 0 <= i < |p.lines| :: p.lines[i].Some?) && ListedSoFar(s, p.lines, |p.lines|)
    ensures Complete(s, p.mailbox)
  {
    forall k | 1 <= k <= |p.mailbox| ensures Has(s.list, UidOf(p.mailbox, k)) {
      var i :| 0 <= i < |p.lines| && p.lines[i].value.1 == UidOf(p.mailbox, k);
      assert s.list[i].id == UidOf(p.mailbox, k);
      FindFirst(s.list, UidOf(p.mailbox, k));
    }
  }

  function Expunged(e: Entry): Entry {
    if e.status == UID_DELETED then e.(status := UID_EXPUNGED) else e
  }

  /** The same ids are known, and the same are seen. */
  ghost predicate SameSeen(s: Store, s': Store) {
    && |s.list| == |s'.list| && s.nums == s'.nums
    && (forall x: Id :: Has(s.list, x) <==> Has(s'.list, x))
    && (forall x: Id :: Seen(s, x) <==> Seen(s', x))
  }

  /** `id` is seen, and nothing else has changed, as far as seen or not goes. */
  ghost predicate SeenGrows(s: Store, s': Store, id: Id) {
    && |s.list| == |s'.list| && Seen(s', id)
    && (forall x: Id :: Has(s.list, x) <==> Has(s'.list, x))
    && (forall x: Id | x != id :: Seen(s, x) <==> Seen(s', x))
    && OthersKept(s, s', id)
  }

  /** Of all other ids the same are known, with the same marks. */
  ghost predicate OthersKept(s: Store, s': Store, id: Id) {
    forall x: Id | x != id ::
      (Has(s.list, x) <==> Has(s'.list, x)) && (Has(s.list, x) ==> Mark(s'.list, x) == Mark(s.list, x))
  }

  lemma GrowsTwice(a: Store, b: Store, c: Store, id: Id)
    requires SeenGrows(a, b, id) && SeenGrows(b, c, id)
    ensures SeenGrows(a, c, id)
  {
    hide Seen, Mark, Has;
  }

  lemma GrowsSize(a: Store, c: Store, id: Id)
    requires SeenGrows(a, c, id)
    ensures |a.list| == |c.list|
  {
  }

  lemma NumberLeads(s: Store, num: nat, mailbox: seq<Id>)
    requires NumsTrue(s, mailbox) && num in s.nums
    ensures 1 <= num <= |mailbox| && Has(s.list, UidOf(mailbox, num)) &&
      s.nums[num] == Find(s.list, UidOf(mailbox, num))
  {
  }

  lemma PairedLeads(oldStore: Store, newStore: Store, num: nat, mailbox: seq<Id>, all: bool)
    requires Paired(oldStore, newStore, mailbox, all) && num in newStore.nums
    ensures num in oldStore.nums && 1 <= num <= |mailbox| && Has(oldStore.list, UidOf(mailbox, num))
    ensures Has(newStore.list, UidOf(mailbox, num)) && newStore.nums[num] == Find(newStore.list, UidOf(mailbox, num))
  {
  }

  lemma KeptAlike(s: Store, id: Id)
    ensures forall s': Store | s'.list == s.list :: OthersKept(s, s', id)
  {
  }

  lemma AppendKeeps(s: Store, id: Id, status: nat, num: nat)
    requires !Has(s.list, id)
    ensures OthersKept(s, SetNum(Append(s, id, status), |s.list|, num), id)
  {
    AppendedFinds(s, id, status);
    forall x: Id ensures Find(Append(s, id, status).list, x) ==
                         if Has(s.list, x) then Find(s.list, x) else if id == x then |s.list| else |s.list| + 1 {
      FindAppend(s.list, Entry(id, status), x);
    }
  }

  /** Every entry marked as deleted is marked as expunged, and no other is touched. */
  ghost predicate AllExpunged(s: Store, s': Store) {
    s'.nums == s.nums && |s'.list| == |s.list| && forall j | 0 <= j < |s.list| :: s'.list[j] == Expunged(s.list[j])
  }

  lemma ExpungedSame(s: Store, s': Store)
    requires AllExpunged(s, s')
    ensures forall x: Id :: Find(s'.list, x) == Find(s.list, x)
    ensures SameSeen(s, s')
  {
    forall x: Id ensures Find(s'.list, x) == Find(s.list, x) {
      FindFirst(s.list, x);
      FindIs(s'.list, x, Find(s.list, x));
    }
  }

  lemma AllSame(s: Store)
    ensures SameSeen(s, s)
  {
  }

  lemma ExpungedNums(s: Store, s': Store, mailbox: seq<Id>)
    requires AllExpunged(s, s') && NumsTrue(s, mailbox)
    ensures NumsTrue(s', mailbox) && SameSeen(s, s')
  {
    ExpungedSame(s, s');
  }

  lemma ExpungedPaired(oldStore: Store, s: Store, s': Store, mailbox: seq<Id>, all: bool)
    requires AllExpunged(s, s') && Paired(oldStore, s, mailbox, all)
    ensures Paired(oldStore, s', mailbox, all) && SameSeen(s, s')
  {
    ExpungedSame(s, s');
    hide Find, DistinctIds;
    assert NumsTrue(s', mailbox) && OnceEach(s') by {
      hide Indexed, SameVerdicts, SameSeen, Seen, Unseen;
    }
    assert SameVerdicts(oldStore, s') && Indexed(s', mailbox, all);
  }

  lemma PairedDeleted(oldStore: Store, newStore: Store, id: Id, n: nat, mailbox: seq<Id>, all: bool)
    requires Paired(oldStore, newStore, mailbox, all) && Seen(oldStore, id) && Has(newStore.list, id) && n != UID_UNSEEN
    ensures Paired(oldStore, SetMark(newStore, Find(newStore.list, id), n), mailbox, all)
  {
    SetFirst(newStore, id, n, mailbox);
    var s := SetMark(newStore, Find(newStore.list, id), n);
    forall j | 0 <= j < |s.list| ensures Find(s.list, s.list[j].id) == j {
      FindUpdate(newStore.list, Find(newStore.list, id), n, s.list[j].id);
    }
  }

  /** `id` has become seen, and no other entry has changed. */
  ghost predicate OnlyNowSeen(s: Store, s': Store, id: Id) {
    && SeenGrows(s, s', id)
    && (forall j | 0 <= j < |s.list| :: s'.list[j].id == s.list[j].id)
    && (forall j | 0 <= j < |s.list| && s.list[j].id != id :: s'.list[j] == s.list[j])
  }

  lemma NowSeen(s: Store, id: Id, status: nat)
    requires Has(s.list, id) && status != UID_UNSEEN
    ensures OnlyNowSeen(s, SetMark(s, Find(s.list, id), status), id)
    ensures Mark(SetMark(s, Find(s.list, id), status).list, id) == status
  {
    var s' := s.(nums := map[]);
    SetFirst(s', id, status, []);
    FindFirst(s.list, id);
  }

  /** The commands sent about a message: it is read unless it is old or too large, and then deleted if it is to go. */
  function Saying(p: Poll, k: nat, judgedOld: bool): seq<Command>
    requires 1 <= k <= |p.outcomes|
  {
    (if judgedOld || p.outcomes[k - 1].oversized then [] else [Retr(k)]) + if Removes(p, k, judgedOld) then [Dele(k)]
      else []
  }

  /** The commands of a poll, in order. */
  function Said(p: Poll, answers: seq<bool>): seq<Command>
    requires |answers| <= |p.outcomes|
    decreases |answers|
  {
    var n := |answers|;
    if n == 0 then [] else Said(p, answers[..n - 1]) + Saying(p, n, answers[n - 1])
  }

  lemma SaidNext(p: Poll, answers: seq<bool>, answer: bool)
    requires |answers| < |p.outcomes|
    ensures Said(p, answers + [answer]) == Said(p, answers) + Saying(p, |answers| + 1, answer)
  {
    assert (answers + [answer])[..|answers|] == answers;
  }

  /** The server has deleted all that it was told to. */
  predicate Agreed(p: Poll, answers: seq<bool>) {
    forall k | 1 <= k <= |answers| && k <= |p.outcomes| && Removes(p, k, Answer(answers, k)) :: p.outcomes[k - 1].dele
  }

  /** The mark of message `k` in the store in use, and in the old one beside a full listing. */
  ghost predicate MarkedHere(p: Poll, used: Store, oldStore: Store, k: nat, judgedOld: bool, full: bool)
    requires 1 <= k <= |p.outcomes| == |p.mailbox|
  {
    var id := UidOf(p.mailbox, k);
    Removes(p, k, judgedOld) || Settles(p, k, judgedOld) ==>
      && Has(used.list, id) && (full ==> Has(oldStore.list, id) && Mark(oldStore.list, id) == UID_SEEN)
      && Mark(used.list, id) == if Removes(p, k, judgedOld) && p.outcomes[k - 1].dele then UID_DELETED else UID_SEEN
  }

  ghost predicate MarkedSoFar(p: Poll, used: Store, oldStore: Store, k: nat, judgedOld: bool)
    requires 1 <= k <= |p.outcomes| == |p.mailbox|
  {
    && MarkedHere(p, used, oldStore, k, judgedOld, Full(p))
    && (Full(p) && Has(used.list, UidOf(p.mailbox, k)) && !StillThere(Mark(used.list, UidOf(p.mailbox, k))) ==>
          Removes(p, k, judgedOld))
  }

  ghost predicate AllMarked(p: Poll, used: Store, oldStore: Store, answers: seq<bool>) {
    && |answers| <= |p.outcomes| == |p.mailbox|
    && (forall k | 1 <= k <= |answers| :: MarkedSoFar(p, used, oldStore, k, Answer(answers, k)))
    && (Full(p) ==>
          forall k | |answers| < k <= |p.mailbox| && Has(used.list, UidOf(p.mailbox, k)) ::
            StillThere(Mark(used.list, UidOf(p.mailbox, k))))
  }

  lemma NothingMarked(p: Poll, first: Store, used: Store, oldStore: Store)
    requires |p.outcomes| == |p.mailbox| && (Full(p) ==> VerdictsFrom(first, used))
    ensures AllMarked(p, used, oldStore, [])
  {
  }

  lemma MarkedNow(p: Poll, used: Store, used': Store, oldStore: Store, oldStore': Store, answers: seq<bool>,
    answer: bool)
    requires AllMarked(p, used, oldStore, answers) && |answers| < |p.mailbox|
    requires MarkedHere(p, used', oldStore', |answers| + 1, answer, Full(p))
    requires Full(p) && !Removes(p, |answers| + 1, answer) && !Settles(p, |answers| + 1, answer) ==> used' == used
    ensures MarkedSoFar(p, used', oldStore', |answers| + 1, answer)
  {
    hide Full;
  }

  lemma KeptTwice(a: Store, b: Store, c: Store, id: Id)
    requires OthersKept(a, b, id)
    ensures b == c || SeenGrows(b, c, id) ==> OthersKept(a, c, id)
  {
  }

  lemma AgreedNext(p: Poll, answers: seq<bool>, answer: bool)
    requires Agreed(p, answers) && |answers| < |p.outcomes|
    ensures Agreed(p, answers + [answer]) <==> (Removes(p, |answers| + 1, answer) ==> p.outcomes[|answers|].dele)
  {
    hide Removes;
    var more := answers + [answer];
    assert Answer(more, |more|) == answer;
    forall k | 1 <= k <= |answers| ensures Answer(more, k) == Answer(answers, k) {
    }
  }

  /** What is deleted is new, or is old with flush. */
  lemma MustHave(p: Poll, k: nat, judgedOld: bool)
    requires 1 <= k <= |p.outcomes|
    ensures judgedOld && (Removes(p, k, judgedOld) || Settles(p, k, judgedOld)) ==> p.flush && Full(p)
    ensures !judgedOld && Removes(p, k, judgedOld) ==> Settles(p, k, judgedOld)
  {
  }

  lemma MarkedNext(p: Poll, used: Store, used': Store, oldStore: Store, oldStore': Store, answers: seq<bool>,
    answer: bool)
    requires AllMarked(p, used, oldStore, answers) && |answers| < |p.mailbox| && DistinctIds(p.mailbox)
    requires OthersKept(used, used', UidOf(p.mailbox, |answers| + 1))
    requires OthersKept(oldStore, oldStore', UidOf(p.mailbox, |answers| + 1))
    requires MarkedSoFar(p, used', oldStore', |answers| + 1, answer)
    ensures AllMarked(p, used', oldStore', answers + [answer])
  {
    hide Full, Removes, Settles;
    var more, n := answers + [answer], |answers| + 1;
    forall k | 1 <= k <= |p.mailbox| && k != n ensures UidOf(p.mailbox, k) != UidOf(p.mailbox, n) {
    }
    forall k | 1 <= k <= |more| ensures MarkedSoFar(p, used', oldStore', k, Answer(more, k)) {
      if k < n {
        assert MarkedSoFar(p, used, oldStore, k, Answer(answers, k)) && Answer(more, k) == Answer(answers, k);
      }
    }
  }

  /** The poll ends with the listing in place of the old store. */
  ghost predicate TakenOver(p: Poll, answers: seq<bool>) {
    Full(p) && p.success && Answered(p) && Agreed(p, answers)
  }

  /** The marks that a poll leaves.  A message to be deleted is marked as expunged, or as deleted if the poll ended
      without QUIT, provided that the server agreed and that its listing is not thrown away; and as seen otherwise.  A
      new message that is dealt with and kept is seen.  After a listing is taken over nothing else counts as deleted. */
  ghost predicate MarkedRight(p: Poll, s: Store, answers: seq<bool>)
    requires |answers| <= |p.outcomes| == |p.mailbox|
  {
    && (forall k | 1 <= k <= |answers| ::
          var id, gone := UidOf(p.mailbox, k), Removes(p, k, Answer(answers, k));
          gone || Settles(p, k, Answer(answers, k)) ==>
            && Has(s.list, id)
            && Mark(s.list, id) == if !gone || !p.outcomes[k - 1].dele ||
              (Full(p) && !TakenOver(p, answers)) then UID_SEEN
                                   else if p.quit then UID_EXPUNGED else UID_DELETED)
    && (TakenOver(p, answers) ==>
          forall k | 1 <= k <= |p.mailbox| && Has(s.list, UidOf(p.mailbox, k)) ::
            StillThere(Mark(s.list, UidOf(p.mailbox, k))) || (k <= |answers| && Removes(p, k, Answer(answers, k))))
  }

  /** At the end of a poll: after the QUIT, and the swap if there is something to swap. */
  lemma MarkedAtEnd(p: Poll, before: Store, oldEnd: Store, listed: Store, newEnd: Store, s: Store, answers: seq<bool>)
    requires AllMarked(p, if Full(p) then listed else before, before, answers)
    requires if Full(p) then oldEnd == before && Answered(p) && newEnd.list != [] else newEnd.list == []
    requires if !p.quit then oldEnd == before && newEnd == listed
             else if Full(p) then AllExpunged(listed, newEnd) else AllExpunged(before, oldEnd)
    requires s.list == if Agreed(p, answers) && p.success && newEnd.list != [] then newEnd.list else oldEnd.list
    ensures MarkedRight(p, s, answers)
  {
    hide Agreed, Answered, Full, Removes, Settles;
    if p.quit {
      if Full(p) {
        ExpungedSame(listed, newEnd);
      } else {
        ExpungedSame(before, oldEnd);
      }
    }
    var used := if Full(p) then listed else before;
    forall k | 1 <= k <= |answers|
      ensures MarkedSoFar(p, used, before, k, Answer(answers, k))
    {
    }
    assert TakenOver(p, answers) ==> s.list == newEnd.list;
  }

  lemma NothingListed(oldStore: Store, lines: seq<Option<(nat, Id)>>, mailbox: seq<Id>, all: bool)
    requires oldStore.nums == map[]
    ensures
      var none := Store([], map[]);
      && Paired(oldStore, none, mailbox, all) && Extends(oldStore, oldStore) && ListedSoFar(none, lines, 0)
      && VerdictsFrom(oldStore, none) && CountUnseen(none.list) == 0
  {
  }

  /** One more line listed: its entry is new exactly if the first store had not seen it. */
  lemma OneMoreListed(first: Store, was: Store, now: Store, listed: Store, s: Store, lines: seq<Option<(nat, Id)>>,
    i: nat)
    requires i < |lines| && forall j | 0 <= j <= i :: lines[j].Some?
    requires Extends(first, was) && Extends(was, now) && ListedSoFar(listed, lines, i) && VerdictsFrom(first, listed)
    requires |s.list| == i + 1 && s.list == listed.list + [s.list[i]] && s.list[i].id == lines[i].value.1
    requires (s.list[i].status == UID_UNSEEN <==> !Seen(was, lines[i].value.1)) && StillThere(s.list[i].status)
    ensures Extends(first, now) && ListedSoFar(s, lines, i + 1) && VerdictsFrom(first, s)
    ensures CountUnseen(s.list) == CountUnseen(listed.list) + if Seen(was, lines[i].value.1) then 0 else 1
  {
    CountAppend(listed.list, s.list[i]);
  }

  /** Entering a listed message in both stores keeps them paired. */
  lemma PairedLine(oldStore: Store, found: Store, newStore: Store, unum: nat, id: Id, mark: nat,
                   mailbox: seq<Id>, all: bool)
    requires DistinctIds(mailbox) && 1 <= unum <= |mailbox| && UidOf(mailbox, unum) == id
    requires Paired(oldStore, newStore, mailbox, all) && !Has(newStore.list, id)
    requires Extends(oldStore, found) && NumsTrue(found, mailbox) && found.nums == oldStore.nums
    requires Has(found.list, id) && mark == Mark(found.list, id)
    ensures var s := Append(newStore, id, mark);
            && Find(s.list, id) == |newStore.list| && Mark(s.list, id) == mark
            && Paired(if mark == UID_UNSEEN || all then SetNum(found, Find(found.list, id), unum) else found,
                      if mark == UID_UNSEEN || all then SetNum(s, |newStore.list|, unum) else s, mailbox, all)
  {
    hide Find, DistinctIds, NumsTrue, Extends;
    var s := Append(newStore, id, mark);
    AppendedFinds(newStore, id, mark);
    AppendedNums(newStore, id, mark, mailbox);
    NumberedTrue(found, id, unum, mailbox);
    NumberedTrue(s, id, unum, mailbox);
    AppendedOnce(newStore, id, mark);
    AppendedVerdicts(oldStore, found, newStore, id, mark);
    AppendedIndexed(newStore, unum, id, mark, mailbox, all);
  }

  /** Marking a message as other than unseen in both stores keeps them paired. */
  lemma PairedMarks(oldStore: Store, newStore: Store, id: Id, m: nat, n: nat, mailbox: seq<Id>, all: bool)
    requires Paired(oldStore, newStore, mailbox, all) && Has(oldStore.list, id) && Has(newStore.list, id)
    requires m != UID_UNSEEN && n != UID_UNSEEN
    ensures Paired(SetMark(oldStore, Find(oldStore.list, id), m), SetMark(newStore, Find(newStore.list, id), n),
      mailbox, all)
  {
    SetFirst(oldStore, id, m, mailbox);
    SetFirst(newStore, id, n, mailbox);
    var s := SetMark(newStore, Find(newStore.list, id), n);
    forall j | 0 <= j < |s.list| ensures Find(s.list, s.list[j].id) == j {
      FindUpdate(newStore.list, Find(newStore.list, id), n, s.list[j].id);
    }
  }

  lemma NotYetListed(s: Store, lines: seq<Option<(nat, Id)>>, i: nat, mailbox: seq<Id>)
    requires LinesTrue(lines, mailbox) && i < |lines| && lines[i].Some?
    requires (forall j | 0 <= j < i :: lines[j].Some?) && ListedSoFar(s, lines, i)
    ensures !Has(s.list, lines[i].value.1)
  {
    FindFirst(s.list, lines[i].value.1);
  }

  lemma AppendedNums(s: Store, id: Id, mark: nat, mailbox: seq<Id>)
    requires NumsTrue(s, mailbox) && !Has(s.list, id)
    ensures NumsTrue(Append(s, id, mark), mailbox)
  {
    AppendedFinds(s, id, mark);
  }

  lemma NumberedTrue(s: Store, id: Id, unum: nat, mailbox: seq<Id>)
    requires NumsTrue(s, mailbox) && Has(s.list, id) && 1 <= unum <= |mailbox| && UidOf(mailbox, unum) == id
    ensures NumsTrue(SetNum(s, Find(s.list, id), unum), mailbox)
  {
  }

  lemma AppendedOnce(s: Store, id: Id, mark: nat)
    requires OnceEach(s) && !Has(s.list, id)
    ensures OnceEach(Append(s, id, mark))
  {
    AppendedFinds(s, id, mark);
  }

  lemma AppendedVerdicts(oldStore: Store, found: Store, newStore: Store, id: Id, mark: nat)
    requires SameVerdicts(oldStore, newStore) && !Has(newStore.list, id) && Extends(oldStore, found)
    requires Has(found.list, id) && mark == Mark(found.list, id)
    ensures SameVerdicts(found, Append(newStore, id, mark))
  {
    AppendedFinds(newStore, id, mark);
  }

  lemma AppendedIndexed(s: Store, unum: nat, id: Id, mark: nat, mailbox: seq<Id>, all: bool)
    requires Indexed(s, mailbox, all) && !Has(s.list, id)
    requires DistinctIds(mailbox) && 1 <= unum <= |mailbox| && UidOf(mailbox, unum) == id
    ensures var s' := Append(s, id, mark);
            Indexed(if mark == UID_UNSEEN || all then SetNum(s', |s.list|, unum) else s', mailbox, all)
  {
    AppendedFinds(s, id, mark);
    assert forall k | 1 <= k <= |mailbox| && UidOf(mailbox, k) == id :: k == unum;
  }

  lemma AppendedFinds(s: Store, id: Id, mark: nat)
    requires !Has(s.list, id)
    ensures var s' := Append(s, id, mark);
            && Find(s'.list, id) == |s.list|
            && (forall x: Id :: Has(s'.list, x) <==> x == id || Has(s.list, x))
            && (forall x: Id | Has(s.list, x) :: Find(s'.list, x) == Find(s.list, x) && Mark(s'.list, x) == Mark(s.list, x))
            && (forall j | 0 <= j < |s.list| :: s.list[j].id != id)
  {
    FindFirst(s.list, id);
    forall x: Id
      ensures Find(Append(s, id, mark).list, x) ==
              if Has(s.list, x) then Find(s.list, x) else if id == x then |s.list| else |s.list| + 1
    {
      FindAppend(s.list, Entry(id, mark), x);
    }
    forall j | 0 <= j < |s.list| ensures s.list[j].id != id {
      FindFirst(s.list, s.list[j].id);
    }
  }
}
