/**
  The search of pop3_fastuidl on the UID store itself: trie, record array and number index.
 */
module Pop3Store {
  import opened CText
  import opened IdBits
  import opened PatriciaTrie
  import opened UidList
  import opened NumIndex
  import opened UidStore
  import opened Pop3Uidl

  /** Looks a UID of the server up in the store. */
  method FindOrEnter(db: UidDb, id: Id) returns (rec: UidRecord)
    requires db.Valid() && ValidId(id)
    modifies db.Repr()
    ensures db.Valid() && db.Abs() == Entered(old(db.Abs()), id)
    ensures rec.pos < |db.recs| && db.recs[rec.pos] == rec && rec.pos == Find(db.Abs().list, id) &&
      Has(db.Abs().list, id)
    ensures fresh(db.Repr() - old(db.Repr())) && db.numNdx == old(db.numNdx) &&
      db.numNdx.posZero == old(db.numNdx.posZero)
  {
    hide UidDb.Valid, UidDb.Abs, Entered, Find;
    ghost var was := db.Abs();
    EnteredFinds(was, id);
    var found := db.Lookup(id);
    if found != null {
      rec := found;
      db.PosIs(Find(was.list, id));
      StatusIs(db, Find(was.list, id));
      if rec.status == UID_DELETED || rec.status == UID_EXPUNGED {
        db.SetStatus(rec, UID_SEEN);
      }
      EnteredKnown(was, id, rec.pos);
    } else {
      rec := db.Insert(id, UID_UNSEEN);
      db.PosIs(|db.recs| - 1);
      EnteredNew(was, id);
    }
  }

  /** What pop3_fastuidl does with the reply to a probe. */
  method Probe(db: UidDb, num: nat, id: Id, ghost mailbox: seq<Id>) returns (unseen: bool)
    requires db.Valid() && ValidId(id) && num <= db.numNdx.posZero < UINT_MAX
    requires NumsTrue(db.Abs(), mailbox) && 1 <= num <= |mailbox| && UidOf(mailbox, num) == id
    modifies db.Repr()
    ensures db.Valid() && NumsTrue(db.Abs(), mailbox) && Extends(old(db.Abs()), db.Abs())
    ensures db.Abs().nums.Keys == old(db.Abs()).nums.Keys + {num}
    ensures if unseen then Unseen(db.Abs(), id) else Seen(db.Abs(), id)
    ensures fresh(db.Repr() - old(db.Repr())) && db.numNdx == old(db.numNdx) &&
      db.numNdx.posZero == old(db.numNdx.posZero)
  {
    hide UidDb.Valid, UidDb.Abs, Entered, Find, NumsTrue, Extends;
    EnteredFacts(db.Abs(), id, mailbox);
    var rec := FindOrEnter(db, id);
    StatusIs(db, rec.pos);
    unseen := rec.status == UID_UNSEEN;
    NumberedKeeps(db.Abs(), num, id, mailbox);
    db.SetUidDbNum(rec, num);
  }

  lemma NumberedKeeps(s: Store, num: nat, id: Id, mailbox: seq<Id>)
    requires NumsTrue(s, mailbox) && Has(s.list, id) && 1 <= num <= |mailbox| && UidOf(mailbox, num) == id
    ensures
      var t := SetNum(s, Find(s.list, id), num);
      && NumsTrue(t, mailbox) && (Seen(s, id) <==> Seen(t, id)) && (Unseen(s, id) <==> Unseen(t, id))
      && forall was: Store :: Extends(was, s) ==> Extends(was, t)
  {
    hide Find;
  }

  lemma ExtendsOn(a: Store, b: Store, c: Store)
    requires Extends(a, b) && Extends(b, c)
    ensures Extends(a, c)
  {
    hide Find;
  }

  /** pop3_fastuidl: binary search for the first unseen message. */
  method FastUidl(db: UidDb, count: nat, replies: seq<Option<Id>>, ghost mailbox: seq<Id>)
    returns (ok: bool, newp: nat, last: nat, probed: seq<nat>)
    requires db.Valid() && count == |mailbox| <= db.numNdx.posZero < UINT_MAX
    requires Truthful(replies, mailbox) && NumsTrue(db.Abs(), mailbox) &&
      forall k | 0 <= k < count :: ValidId(mailbox[k])
    modifies db.Repr()
    ensures db.Valid() && NumsTrue(db.Abs(), mailbox) && Extends(old(db.Abs()), db.Abs())
    ensures |probed| <= Log2Ceil(count + 1)
    ensures (forall i | 0 <= i < |replies| :: replies[i].Some?) ==> ok
    ensures ok ==> last <= count && newp == count - last
    ensures ok && last > 0 ==> last in db.Abs().nums && Seen(db.Abs(), UidOf(mailbox, last))
    ensures ok && last < count ==> last + 1 in db.Abs().nums && Unseen(db.Abs(), UidOf(mailbox, last + 1))
    ensures fresh(db.Repr() - old(db.Repr())) && db.numNdx == old(db.numNdx) &&
      db.numNdx.posZero == old(db.numNdx.posZero)
  {
    hide UidDb.Valid, UidDb.Abs, NumsTrue, Find, Extends, Seen, Unseen, ValidId, Log2Ceil;
    var firstNr, lastNr := 0, count + 1;
    probed, newp, last := [], 0, 0;
    ExtendsSelf(db.Abs());
    while firstNr < lastNr - 1
      invariant 0 <= firstNr < lastNr <= count + 1
      invariant db.Valid() && NumsTrue(db.Abs(), mailbox) && Extends(old(db.Abs()), db.Abs())
      invariant firstNr > 0 ==> firstNr in db.Abs().nums.Keys && Seen(db.Abs(), UidOf(mailbox, firstNr))
      invariant lastNr <= count ==> lastNr in db.Abs().nums.Keys && Unseen(db.Abs(), UidOf(mailbox, lastNr))
      invariant |probed| + Log2Ceil(lastNr - firstNr) <= Log2Ceil(count + 1)
      invariant fresh(db.Repr() - old(db.Repr())) && db.numNdx == old(db.numNdx) &&
        db.numNdx.posZero == old(db.numNdx.posZero)
      decreases lastNr - firstNr
    {
      var tryNr := (firstNr + lastNr) / 2;
      if replies[tryNr - 1].None? {
        return false, 0, 0, probed;
      }
      probed := probed + [tryNr];
      ghost var width, was := lastNr - firstNr, db.Abs();
      var unseen := Probe(db, tryNr, replies[tryNr - 1].value, mailbox);
      ExtendsOn(old(db.Abs()), was, db.Abs());
      VerdictsKept(was, db.Abs());
      if unseen {
        lastNr := tryNr;
      } else {
        firstNr := tryNr;
      }
      Halved(lastNr - firstNr, width);
    }
    ok := true;
    newp := count - firstNr;
    last := firstNr;
  }

  lemma Halved(n: nat, width: nat)
    requires 0 < n <= (width + 1) / 2 && width > 1
    ensures Log2Ceil(n) + 1 <= Log2Ceil(width)
  {
    Log2CeilMonotone(n, (width + 1) / 2);
  }

  /** The fast branch of pop3_getrange: all numbers are forgotten, then the search. */
  method SearchMailbox(db: UidDb, count: nat, replies: seq<Option<Id>>, ghost mailbox: seq<Id>)
    returns (ok: bool, newp: nat, last: nat, probed: seq<nat>)
    requires db.Valid() && count == |mailbox| < UINT_MAX && Truthful(replies, mailbox)
    requires forall k | 0 <= k < count :: ValidId(mailbox[k])
    modifies db.Repr()
    ensures db.Valid() && NumsTrue(db.Abs(), mailbox) && Extends(old(db.Abs()), db.Abs())
    ensures |probed| <= Log2Ceil(count + 1)
    ensures (forall i | 0 <= i < |replies| :: replies[i].Some?) ==> ok
    ensures ok ==> last <= count && newp == count - last
    ensures ok && last > 0 ==> Seen(old(db.Abs()), UidOf(mailbox, last))
    ensures ok && last < count ==> !Seen(old(db.Abs()), UidOf(mailbox, last + 1))
    ensures fresh(db.Repr() - old(db.Repr())) && db.numNdx == old(db.numNdx) && db.numNdx.posZero == count
  {
    hide UidDb.Valid, UidDb.Abs, Find, Log2Ceil;
    ghost var was := db.Abs();
    db.SetUidDbNumPos0(count);
    Unnumbered(was, mailbox);
    ghost var start := db.Abs();
    ok, newp, last, probed := FastUidl(db, count, replies, mailbox);
    ExtendsOn(was, start, db.Abs());
  }

  lemma Unnumbered(s: Store, mailbox: seq<Id>)
    ensures NumsTrue(s.(nums := map[]), mailbox) && Extends(s, s.(nums := map[]))
  {
  }

  method CountRecords(db: UidDb) returns (n: nat)
    requires db.Valid()
    ensures n == |db.recs|
  {
    n := db.NRecords();
  }

  /** pop3_is_old after a search: message `num` is old by its place, or because the server would not tell its UID, or
      because that was stored as other than unseen. */
  method IsOld(db: UidDb, num: nat, last: nat, reply: Option<Id>, ghost mailbox: seq<Id>) returns (r: bool)
    requires db.Valid() && 1 <= num <= |mailbox| <= db.numNdx.posZero < UINT_MAX
    requires NumsTrue(db.Abs(), mailbox) && (reply.Some? ==> reply.value == UidOf(mailbox, num) && ValidId(reply.value))
    modifies db.Repr()
    ensures db.Valid() && NumsTrue(db.Abs(), mailbox) && Extends(old(db.Abs()), db.Abs())
    ensures old(db.recs) == [] ==> (r <==> num <= last)
    ensures old(db.recs) != [] ==>
      (r <==> num <= last || (num !in old(db.Abs()).nums && reply.None?) || Seen(old(db.Abs()), UidOf(mailbox, num)))
    ensures !r && old(db.recs) != [] ==> num in db.Abs().nums
    ensures fresh(db.Repr() - old(db.Repr())) && db.numNdx == old(db.numNdx) &&
      db.numNdx.posZero == old(db.numNdx.posZero)
  {
    hide UidDb.Valid, UidDb.Abs, Find;
    var n := CountRecords(db);
    ExtendsSelf(db.Abs());
    ghost var was := db.Abs();
    if n == 0 {
      return num <= last;
    }
    if num <= last {
      return true;
    }
    var rec := db.LookupNum(num);
    if rec != null {
      StatusIs(db, was.nums[num]);
      return rec.status != UID_UNSEEN;
    }
    if reply.None? {
      return true;
    }
    r := JudgeByUid(db, num, reply.value, mailbox);
  }

  /** An unknown UID is entered as unseen; the others are taken as they are stored. */
  method JudgeByUid(db: UidDb, num: nat, id: Id, ghost mailbox: seq<Id>) returns (seen: bool)
    requires db.Valid() && 1 <= num <= |mailbox| <= db.numNdx.posZero < UINT_MAX
    requires NumsTrue(db.Abs(), mailbox) && id == UidOf(mailbox, num) && ValidId(id)
    modifies db.Repr()
    ensures db.Valid() && NumsTrue(db.Abs(), mailbox) && Extends(old(db.Abs()), db.Abs())
    ensures (seen <==> Seen(old(db.Abs()), id)) && num in db.Abs().nums
    ensures fresh(db.Repr() - old(db.Repr())) && db.numNdx == old(db.numNdx) &&
      db.numNdx.posZero == old(db.numNdx.posZero)
  {
    hide UidDb.Valid, UidDb.Abs, Find, NumsTrue, Extends;
    var rec := FindOrAppend(db, id, mailbox);
    StatusIs(db, rec.pos);
    NumberedKeeps(db.Abs(), num, id, mailbox);
    seen := rec.status != UID_UNSEEN;
    db.SetUidDbNum(rec, num);
  }

  method FindOrAppend(db: UidDb, id: Id, ghost mailbox: seq<Id>) returns (rec: UidRecord)
    requires db.Valid() && NumsTrue(db.Abs(), mailbox) && ValidId(id)
    modifies db.Repr()
    ensures db.Valid() && NumsTrue(db.Abs(), mailbox) && Extends(old(db.Abs()), db.Abs())
    ensures Seen(old(db.Abs()), id) <==> Seen(db.Abs(), id)
    ensures rec.pos < |db.recs| && db.recs[rec.pos] == rec && rec.pos == Find(db.Abs().list, id) &&
      Has(db.Abs().list, id)
    ensures fresh(db.Repr() - old(db.Repr())) && db.numNdx == old(db.numNdx) &&
      db.numNdx.posZero == old(db.numNdx.posZero)
  {
    hide UidDb.Valid, UidDb.Abs, Find, NumsTrue, Extends;
    ghost var was := db.Abs();
    ExtendsSelf(was);
    FindFirst(was.list, id);
    var found := db.Lookup(id);
    if found != null {
      rec := found;
    } else {
      AppendUnseen(was, id, mailbox);
      FindAppend(was.list, Entry(id, UID_UNSEEN), id);
      rec := db.Insert(id, UID_UNSEEN);
    }
    db.PosIs(Find(db.Abs().list, id));
  }

  /** What mark_uid_seen does with one of the stores. */
  method MarkSeen(db: UidDb, num: nat)
    requires db.Valid() && num <= db.numNdx.posZero && num < UINT_MAX
    modifies db.recs`status
    ensures db.Valid()
    ensures
      var s := old(db.Abs());
      db.Abs() == if num in s.nums then SetMark(s, s.nums[num], UID_SEEN) else s
  {
    hide UidDb.Valid, UidDb.Abs;
    ghost var s := db.Abs();
    var rec := db.LookupNum(num);
    if rec != null {
      db.PosIs(s.nums[num]);
      db.SetStatus(rec, UID_SEEN);
    }
  }

  lemma ExtendsSelf(s: Store)
    ensures Extends(s, s)
  {
  }

  lemma VerdictsKept(s: Store, t: Store)
    requires Extends(s, t)
    ensures forall id: Id :: (Seen(s, id) ==> Seen(t, id)) && (Unseen(s, id) ==> Unseen(t, id))
  {
    hide Seen, Unseen;
  }

  lemma StatusIs(db: UidDb, i: nat)
    requires db.Valid() && i < |db.recs|
    ensures db.Abs().list[i].status == db.recs[i].status
  {
  }

  lemma EnteredKnown(s: Store, id: Id, i: nat)
    requires i == Find(s.list, id) < |s.list|
    ensures
      var m := s.list[i].status;
      Entered(s, id) == if m == UID_DELETED || m == UID_EXPUNGED then SetMark(s, i, UID_SEEN) else s
  {
    assert s.list[i := s.list[i].(status := s.list[i].status)] == s.list;
  }

  lemma EnteredNew(s: Store, id: Id)
    requires Find(s.list, id) >= |s.list|
    ensures Entered(s, id) == Append(s, id, UID_UNSEEN) && Find(s.list, id) == |s.list|
  {
  }
}
