/**
  The UID store of uid_db.c and uid_db.h: a PATRICIA trie, an insertion-ordered
  record array and a message-number index that grows downwards.  All three are
  specified by the list `recs` of the records in insertion order.
 */
module UidStore {
  import opened IdBits
  import opened PatriciaTrie
  import opened TrieLinks
  import opened NumIndex
  import opened UidList

  const MIN_RECORDS := 16

  /** Position of the first record from `k` on with the given id, or |recs|. */
  ghost function NextIdx(recs: seq<UidRecord>, id: Id, k: nat): (i: nat)
    requires k <= |recs|
    ensures k <= i <= |recs|
    ensures i < |recs| ==> recs[i].id == id
    ensures forall j | k <= j < i :: recs[j].id != id
    decreases |recs| - k
  {
    if k == |recs| || recs[k].id == id then k else NextIdx(recs, id, k + 1)
  }

  ghost function RecordAt(recs: seq<UidRecord>, i: nat): UidRecord?
    requires i <= |recs|
  {
    if i < |recs| then recs[i] else null
  }

  /** The earliest record with the given id. */
  ghost function FirstWith(recs: seq<UidRecord>, id: Id): UidRecord? {
    RecordAt(recs, NextIdx(recs, id, 0))
  }

  /** The next later record with the same id. */
  ghost function NextSame(recs: seq<UidRecord>, i: nat): UidRecord?
    requires i < |recs|
  {
    RecordAt(recs, NextIdx(recs, recs[i].id, i + 1))
  }

  ghost function Ids(recs: seq<UidRecord>): set<Id> {
    set r | r in recs :: r.id
  }

  lemma {:induction false} NextIdxAppend(recs: seq<UidRecord>, r: UidRecord, id: Id, k: nat)
    requires k <= |recs|
    ensures NextIdx(recs + [r], id, k) ==
            (if NextIdx(recs, id, k) < |recs| then NextIdx(recs, id, k)
             else if r.id == id then |recs| else |recs| + 1)
    decreases |recs| - k
  {
    if k < |recs| && recs[k].id != id {
      NextIdxAppend(recs, r, id, k + 1);
    }
  }

  /** Every node holds the earliest record with its id. */
  ghost predicate HoldFirsts(nodes: set<PatNode>, rs: seq<UidRecord>) {
    forall n | n in nodes :: n.rec == FirstWith(rs, n.rec.id)
  }

  ghost predicate OnePerId(nodes: set<PatNode>) {
    forall n1, n2 | n1 in nodes && n2 in nodes :: n1.rec.id == n2.rec.id ==> n1 == n2
  }

  /** `next` leads through the records with the same id in insertion order. */
  ghost predicate Chained(rs: seq<UidRecord>)
    reads rs`next
  {
    forall i {:trigger rs[i].next} | 0 <= i < |rs| :: rs[i].next == NextSame(rs, i)
  }

  /** Where a record stands in the list. */
  ghost function IndexIn(rs: seq<UidRecord>, r: UidRecord): (i: nat)
    ensures i <= |rs| && (r in rs ==> i < |rs| && rs[i] == r)
  {
    if rs == [] || rs[0] == r then 0 else 1 + IndexIn(rs[1..], r)
  }

  ghost predicate NoDuplicates(rs: seq<UidRecord>) {
    forall i | 0 <= i < |rs| :: IndexIn(rs, rs[i]) == i
  }

  lemma LastBeforeAt(rs: seq<UidRecord>, rec: UidRecord, i: nat, k: nat)
    requires i < |rs| && k < |rs| && rs[i].id == rec.id && NextIdx(rs, rec.id, i + 1) == |rs|
    ensures NextSame(rs + [rec], k) == if k == i then rec else NextSame(rs, k)
  {
    hide NextIdx;
    var id, all := rs[k].id, rs + [rec];
    NextIdxAppend(rs, rec, id, k + 1);
    assert all[k] == rs[k];
    var n := NextIdx(rs, id, k + 1);
    assert n < |rs| ==> all[n] == rs[n];
    if id == rec.id && k < i {
      assert n <= i;
    } else if id == rec.id {
      assert k == i;
    }
  }

  /** Only the last record with the new record's id gets a new successor. */
  lemma LastBefore(rs: seq<UidRecord>, rec: UidRecord, i: nat)
    requires i < |rs| && rs[i].id == rec.id && NextIdx(rs, rec.id, i + 1) == |rs|
    requires NoDuplicates(rs)
    ensures forall k | 0 <= k < |rs| :: NextSame(rs + [rec], k) == if k == i then rec else NextSame(rs, k)
    ensures NextSame(rs + [rec], |rs|) == null
    ensures forall k | 0 <= k < |rs| && k != i :: rs[k] != rs[i]
  {
    OnlyOnce(rs, i);
    hide NoDuplicates;
    forall k | 0 <= k < |rs| ensures NextSame(rs + [rec], k) == if k == i then rec else NextSame(rs, k) {
      LastBeforeAt(rs, rec, i, k);
    }
    hide NextIdx;
    assert NextIdx(rs + [rec], rec.id, |rs| + 1) == |rs| + 1;
  }

  lemma OnlyOnce(rs: seq<UidRecord>, i: nat)
    requires i < |rs| && NoDuplicates(rs)
    ensures forall k | 0 <= k < |rs| && k != i :: rs[k] != rs[i]
  {
    hide IndexIn;
    assert IndexIn(rs, rs[i]) == i;
    assert forall k | 0 <= k < |rs| :: IndexIn(rs, rs[k]) == k;
  }

  lemma AllDistinct(rs: seq<UidRecord>)
    requires forall i, j | 0 <= i < j < |rs| :: rs[i] != rs[j]
    ensures NoDuplicates(rs)
  {
    forall i | 0 <= i < |rs| ensures IndexIn(rs, rs[i]) == i {
      assert rs[i] in rs;
    }
  }

  lemma HoldFirstsAppend(nodes: set<PatNode>, rs: seq<UidRecord>, rec: UidRecord)
    requires HoldFirsts(nodes, rs)
    ensures HoldFirsts(nodes, rs + [rec])
    ensures rec.id !in Ids(rs) ==> forall n | n in nodes :: n.rec.id != rec.id
  {
    forall n | n in nodes ensures n.rec == FirstWith(rs + [rec], n.rec.id) {
      NextIdxAppend(rs, rec, n.rec.id, 0);
    }
    assert forall n | n in nodes :: n.rec in rs;
  }

  lemma NewIdLast(rs: seq<UidRecord>, rec: UidRecord)
    requires rec.id !in Ids(rs)
    ensures forall i | 0 <= i < |rs| :: NextSame(rs + [rec], i) == NextSame(rs, i)
    ensures FirstWith(rs + [rec], rec.id) == rec
  {
    assert forall i | 0 <= i < |rs| :: rs[i].id in Ids(rs);
    forall i | 0 <= i < |rs| ensures NextSame(rs + [rec], i) == NextSame(rs, i) {
      NextIdxAppend(rs, rec, rs[i].id, i + 1);
    }
    NextIdxAppend(rs, rec, rec.id, 0);
  }

  lemma NewIdHeld(nodes: set<PatNode>, rs: seq<UidRecord>, np: PatNode)
    requires HoldFirsts(nodes, rs) && OnePerId(nodes) && np.rec.id !in Ids(rs)
    ensures HoldFirsts(nodes + {np}, rs + [np.rec]) && OnePerId(nodes + {np})
  {
    HoldFirstsAppend(nodes, rs, np.rec);
    NewIdLast(rs, np.rec);
  }

  lemma ChainedNewId(rs: seq<UidRecord>, rec: UidRecord)
    requires Chained(rs) && rec.next == null && rec.id !in Ids(rs)
    ensures Chained(rs + [rec])
  {
    NewIdLast(rs, rec);
  }

  lemma IdsAppend(rs: seq<UidRecord>, rec: UidRecord)
    ensures Ids(rs + [rec]) == Ids(rs) + {rec.id}
  {
    assert forall r | r in rs :: r in rs + [rec];
    assert rec in rs + [rec];
  }

  ghost function Entries(rs: seq<UidRecord>): (es: seq<Entry>)
    reads rs`status
    ensures |es| == |rs| && forall i | 0 <= i < |es| :: es[i] == Entry(rs[i].id, rs[i].status)
  {
    if rs == [] then [] else [Entry(rs[0].id, rs[0].status)] + Entries(rs[1..])
  }

  lemma ResetPositions(es: seq<Entry>, rs: seq<UidRecord>, view: map<nat, UidRecord>, highest: nat)
    ensures WithoutNums(Store(es, Positions(rs, view)), highest) ==
            Store(es, Positions(rs, if exists k | k in view :: k < highest then map[] else view))
  {
    assert Positions(rs, view).Keys == view.Keys;
  }

  lemma OneMoreNumber(rs: seq<UidRecord>, view: map<nat, UidRecord>, num: nat, rec: UidRecord)
    requires rec in rs && view.Values <= set r | r in rs
    ensures Positions(rs, view[num := rec]) == Positions(rs, view)[num := IndexIn(rs, rec)]
    ensures view[num := rec].Values <= set r | r in rs
  {
  }

  ghost function Positions(rs: seq<UidRecord>, view: map<nat, UidRecord>): map<nat, nat> {
    map k | k in view :: IndexIn(rs, view[k])
  }

  lemma {:induction false} IndexInAppend(rs: seq<UidRecord>, rec: UidRecord, r: UidRecord)
    requires r in rs
    ensures IndexIn(rs + [rec], r) == IndexIn(rs, r)
  {
    if rs[0] != r {
      assert (rs + [rec])[1..] == rs[1..] + [rec];
      IndexInAppend(rs[1..], rec, r);
    }
  }

  lemma IndexesKept(rs: seq<UidRecord>, rec: UidRecord, view: map<nat, UidRecord>)
    requires view.Values <= set r | r in rs
    ensures Positions(rs + [rec], view) == Positions(rs, view)
  {
    forall k | k in view ensures IndexIn(rs + [rec], view[k]) == IndexIn(rs, view[k]) {
      assert view[k] in view.Values;
      IndexInAppend(rs, rec, view[k]);
    }
  }

  class UidDb {
    var patRoot: PatNode?
    var records: array<UidRecord?>
    var recordsNext: nat
    var numNdx: NumNdx

    ghost var trie: Trie
    ghost var nodes: set<PatNode>
    ghost var recs: seq<UidRecord>

    ghost predicate RecordsValid()
      reads `records, `recordsNext, `recs, records, recs`pos
    {
      && records.Length > 0
      && recordsNext == |recs| <= records.Length
      && (forall i | 0 <= i < |recs| :: records[i] == recs[i] && recs[i].pos == i && ValidId(recs[i].id))
    }

    ghost predicate TrieValid()
      reads `patRoot, `trie, `nodes, nodes
    {
      && patRoot == Edge(trie)
      && nodes == Nodes(trie)
      && WellShaped(trie)
      && Matches(Links(nodes), trie, null)
    }

    /** The trie finds, for every id among `rs`, the head of the list of its records. */
    ghost predicate Indexes(rs: seq<UidRecord>)
      reads `trie, `nodes, rs`next
    {
      Keys(trie) == {[]} + Ids(rs) && HoldFirsts(nodes, rs) && OnePerId(nodes) && Chained(rs)
    }

    /** The message-number index holds records of this store and shares no memory with it. */
    ghost predicate NumsValid()
      reads `records, `recs, `numNdx, numNdx, numNdx.records
    {
      numNdx.Valid() && numNdx.View().Values <= (set r | r in recs) && numNdx.records != records
    }

    ghost predicate Valid()
      reads `patRoot, `records, `recordsNext, `numNdx, `trie, `nodes, `recs
      reads records, numNdx, numNdx.records, nodes, recs`pos, recs`next
    {
      RecordsValid() && TrieValid() && Indexes(recs) && NumsValid()
    }

    /** init_uid_db */
    constructor ()
      ensures Valid() && recs == [] && nodes == {} && numNdx.Unset()
      ensures fresh(records) && fresh(numNdx)
    {
      patRoot := null;
      records := new UidRecord?[MIN_RECORDS];
      recordsNext := 0;
      numNdx := new NumNdx();
      trie, nodes, recs := Up(null), {}, [];
    }

    // ---- inserting

    /** What the pointers say at the `i`-th node of the search path of `id`. */
    lemma AtPathNode(id: Id, i: nat)
      requires TrieValid() && i < PathLength(trie, id)
      ensures Descend(trie, id, i).Inner?
      ensures var n := Descend(trie, id, i).node;
              && n in nodes
              && n.parent == ParentAt(trie, id, i, null)
              && var next := if BitAt(id, n.bitNdx) then n.right else n.left;
                 if next == null || next.bitNdx <= n.bitNdx
                 then i + 1 == PathLength(trie, id) && next == Search(trie, id)
                 else i + 1 < PathLength(trie, id) && Descend(trie, id, i + 1).Inner? && next == Descend(trie, id, i + 1).node
    {
      PathLinks(Links(nodes), trie, null, id, i);
      EdgeKind(trie, {}, id, i);
      DescendStep(trie, id, i);
      if i + 1 < PathLength(trie, id) {
        DescendStep(trie, id, i + 1);
      } else {
        DescendEnd(trie, id);
      }
    }

    /** walk_down: the last node of the search path of `rec`, the side it turns to
        there, and the node the edge on that side points to. */
    method WalkDown(rec: UidRecord) returns (closest: PatNode?, parent: PatNode, right: bool, ghost depth: nat)
      requires TrieValid() && patRoot != null
      ensures PathEnd(trie, rec.id, parent, closest, right, depth)
    {
      var cur := patRoot;
      var ofs: int := -1;
      var v: Byte := 0;
      depth := 0;
      while true
        invariant depth < PathLength(trie, rec.id)
        invariant Descend(trie, rec.id, depth).Inner? && cur == Descend(trie, rec.id, depth).node
        invariant ofs >= 0 ==> v == ByteAt(rec.id, ofs)
        decreases PathLength(trie, rec.id) - depth
      {
        AtPathNode(rec.id, depth);
        var bitNdx := cur.bitNdx;
        if bitNdx / 8 != ofs {
          ofs := bitNdx / 8;
          v := ByteAt(rec.id, ofs);
        }
        right := v & BitMask(bitNdx) != 0;
        var next := if right then cur.right else cur.left;
        if next == null || next.bitNdx <= bitNdx {
          closest, parent := next, cur;
          return;
        }
        cur := next;
        depth := depth + 1;
      }
    }

    /** walk_up: the highest node of the path from `parent` to the root whose bit index
        exceeds `diffNdx`, and its parent. */
    method WalkUp(diffNdx: nat, parent: PatNode, ghost id: Id, ghost depth: nat)
      returns (np: PatNode, above: PatNode?, ghost up: nat)
      requires TrieValid() && depth < PathLength(trie, id)
      requires Descend(trie, id, depth).Inner? && parent == Descend(trie, id, depth).node
      requires parent.bitNdx > diffNdx
      ensures up <= depth && Descend(trie, id, up).Inner? && np == Descend(trie, id, up).node
      ensures above == ParentAt(trie, id, up, null)
      ensures np.bitNdx > diffNdx
      ensures above != null ==> above.bitNdx <= diffNdx
    {
      np := parent;
      up := depth;
      AtPathNode(id, up);
      while np.parent != null && np.parent.bitNdx > diffNdx
        invariant up <= depth && Descend(trie, id, up).Inner? && np == Descend(trie, id, up).node
        invariant np.parent == ParentAt(trie, id, up, null)
        invariant np.bitNdx > diffNdx
        decreases up
      {
        np := np.parent;
        ParentAtIs(trie, id, up, null);
        up := up - 1;
        AtPathNode(id, up);
      }
      above := np.parent;
    }

    /** The parent's left edge leads to the node that walk_up stopped at, or its right one does. */
    lemma SideOfChild(id: Id, i: nat)
      requires TrieValid() && i + 1 < PathLength(trie, id)
      requires Descend(trie, id, i).Inner? && Descend(trie, id, i + 1).Inner?
      ensures var parent, child := Descend(trie, id, i).node, Descend(trie, id, i + 1).node;
              parent in nodes && (parent.left == child <==> !BitAt(id, parent.bitNdx))
    {
      PathLinks(Links(nodes), trie, null, id, i);
      EdgeKind(trie, {}, id, i);
      DescendStep(trie, id, i);
      DescendDistinct(trie, id, i);
      DescendFacts(trie, id, i);
    }

    /** The pointer writes that end pat_insert: `np` goes between `parent` and `closest`. */
    method WriteLinks(np: PatNode, closest: PatNode?, parent: PatNode?, right: bool, moved: bool,
                      ghost ns: set<PatNode>, ghost all: seq<UidRecord>)
      requires np !in ns && (closest != null ==> closest in ns) && (parent != null ==> parent in ns)
      requires moved ==> closest != null
      requires Chained(all)
      modifies this`patRoot, ns`left, ns`right, ns`parent, np`left, np`right, np`parent
      ensures Chained(all)
      ensures patRoot == if parent == null then np else old(patRoot)
      ensures Cell(np.left, np.parent, np.right) ==
              if BitAt(np.rec.id, np.bitNdx) then Cell(closest, parent, np) else Cell(np, parent, closest)
      ensures forall n | n in ns ::
                && n.left == (if n == parent && !right then np else old(n.left))
                && n.right == (if n == parent && right then np else old(n.right))
                && n.parent == (if n == closest && moved then np else old(n.parent))
    {
      if moved {
        closest.parent := np;
      }
      if parent == null {
        patRoot := np;
      } else if right {
        parent.right := np;
      } else {
        parent.left := np;
      }
      np.parent := parent;
      if BitAt(np.rec.id, np.bitNdx) {
        np.right := np;
        np.left := closest;
      } else {
        np.left := np;
        np.right := closest;
      }
    }

    method LinkIn(np: PatNode, closest: PatNode?, parent: PatNode?, right: bool, moved: bool, ghost depth: nat,
                  ghost all: seq<UidRecord>)
      requires Chained(all)
      requires TrieValid() && np !in nodes && Place(trie, np, closest, parent, right, moved, depth)
      modifies this`patRoot, this`trie, this`nodes
      modifies nodes`left, nodes`right, nodes`parent, np`left, np`right, np`parent
      ensures TrieValid() && Chained(all)
      ensures nodes == old(nodes) + {np} && Keys(trie) == old(Keys(trie)) + {np.rec.id}
    {
      PlaceNodes(trie, np, depth);
      ghost var t, m, ns := trie, Links(nodes), nodes;
      trie, nodes := InsertAt(t, np, depth), ns + {np};
      WriteLinks(np, closest, parent, right, moved, ns, all);
      Relinked(t, m, Links(nodes), np, depth, closest, parent, right, moved);
    }

    /** append_to_list: hangs `rec` at the end of the list of records with its id. */
    method AppendToList(first: UidRecord, rec: UidRecord, ghost rs: seq<UidRecord>)
      requires NoDuplicates(rs) && Chained(rs)
      requires rec !in rs && first == FirstWith(rs, rec.id)
      modifies rs`next, rec`next
      ensures Chained(rs + [rec])
    {
      var cur := first;
      ghost var i := NextIdx(rs, rec.id, 0);
      while cur.next != null
        invariant i < |rs| && cur == rs[i] && rs[i].id == rec.id
        decreases |rs| - i
      {
        cur := cur.next;
        i := NextIdx(rs, rec.id, i + 1);
      }
      LastBefore(rs, rec, i);
      cur.next := rec;
      rec.next := null;
    }

    /** The second half of pat_insert's search: where the new node goes, given the place
        the search for its id ended. */
    method FindPlace(np: PatNode, last: PatNode, below: PatNode?, side: bool, ghost end: nat)
      returns (closest: PatNode?, parent: PatNode?, right: bool, moved: bool, ghost depth: nat)
      requires TrieValid() && PathEnd(trie, np.rec.id, last, below, side, end)
      requires FirstDiff(Key(below), np.rec.id, np.bitNdx)
      ensures Place(trie, np, closest, parent, right, moved, depth)
    {
      closest, parent, right, moved := below, last, side, false;
      ghost var id := np.rec.id;
      depth := end;
      PathBitAt(trie, id, end);
      if parent.bitNdx > np.bitNdx {
        closest, parent, depth := WalkUp(np.bitNdx, last, id, end);
        moved := true;
        PathBitAt(trie, id, depth);
        if depth > 0 {
          PathBitAt(trie, id, depth - 1);
          SideOfChild(id, depth - 1);
          ParentAtIs(trie, id, depth, null);
        }
        right := parent != null && parent.left != closest;
      } else {
        depth := depth + 1;
        ParentAtIs(trie, id, depth, null);
        DescendEnd(trie, id);
      }
      PlaceFound(trie, id, np.bitNdx, depth);
    }

    /** Where a walk ends: at a node with the id looked for, if there is one. */
    lemma WalkEnd(id: Id, rs: seq<UidRecord>)
      requires TrieValid() && Indexes(rs) && ValidId(id)
      ensures var n := Search(trie, id);
              if n != null then n in nodes && n.rec in rs && (n.rec.id == id <==> id in Ids(rs)) else id !in Ids(rs)
    {
      SearchFinds(trie, id);
      SearchTarget(trie, {}, id);
    }

    /** pat_insert */
    method PatInsert(rec: UidRecord, ghost rs: seq<UidRecord>)
      requires TrieValid() && Indexes(rs) && NoDuplicates(rs)
      requires forall r | r in rs :: ValidId(r.id)
      requires rec !in rs && ValidId(rec.id)
      modifies this`patRoot, this`trie, this`nodes, nodes`left, nodes`right, nodes`parent, rs`next, rec`next
      ensures TrieValid() && Indexes(rs + [rec]) && fresh(nodes - old(nodes)) && old(nodes) <= nodes
    {
      if patRoot == null {
        PutFirst(rec, rs);
      } else {
        var closest, parent, right, end := WalkDown(rec);
        WalkEnd(rec.id, rs);
        var bitNdx: int;
        if closest != null {
          bitNdx := FindFirstDiffBit(closest.rec.id, rec.id);
          if bitNdx < 0 {
            AppendSame(rec, rs, closest);
            return;
          }
        } else {
          StandaloneBit(rec.id);
          bitNdx := FirstSetBit(rec.id[0]);
        }
        PutBelow(rec, bitNdx, rs, closest, parent, right, end);
      }
    }

    method AppendSame(rec: UidRecord, ghost rs: seq<UidRecord>, closest: PatNode)
      requires TrieValid() && Indexes(rs) && NoDuplicates(rs) && rec !in rs
      requires closest in nodes && closest.rec.id == rec.id
      modifies rs`next, rec`next
      ensures TrieValid() && Indexes(rs + [rec])
    {
      HoldFirstsAppend(nodes, rs, rec);
      IdsAppend(rs, rec);
      assert closest.rec in rs;
      AppendToList(closest.rec, rec, rs);
    }

    method PutFirst(rec: UidRecord, ghost rs: seq<UidRecord>)
      requires TrieValid() && Indexes(rs) && patRoot == null && rec !in rs && ValidId(rec.id)
      modifies this`patRoot, this`trie, this`nodes, nodes`left, nodes`right, nodes`parent, rec`next
      ensures TrieValid() && Indexes(rs + [rec]) && fresh(nodes - old(nodes)) && old(nodes) <= nodes
    {
      StandaloneBit(rec.id);
      WalkEnd(rec.id, rs);
      var np := new PatNode(rec, FirstSetBit(rec.id[0]));
      IndexesNewId(rs, np);
      LinkIn(np, null, null, false, false, 0, rs + [rec]);
    }

    method PutBelow(rec: UidRecord, bitNdx: nat, ghost rs: seq<UidRecord>,
                    closest: PatNode?, parent: PatNode, right: bool, ghost end: nat)
      requires TrieValid() && Indexes(rs) && rec !in rs && ValidId(rec.id) && rec.id !in Ids(rs)
      requires PathEnd(trie, rec.id, parent, closest, right, end)
      requires FirstDiff(Key(closest), rec.id, bitNdx)
      modifies this`patRoot, this`trie, this`nodes, nodes`left, nodes`right, nodes`parent, rec`next
      ensures TrieValid() && Indexes(rs + [rec]) && fresh(nodes - old(nodes)) && old(nodes) <= nodes
    {
      var np := new PatNode(rec, bitNdx);
      IndexesNewId(rs, np);
      var child, above, side, moved, depth := FindPlace(np, parent, closest, right, end);
      LinkIn(np, child, above, side, moved, depth, rs + [rec]);
    }

    lemma IndexesNewId(rs: seq<UidRecord>, np: PatNode)
      requires Indexes(rs) && np.rec.next == null && np.rec.id !in Ids(rs)
      ensures Chained(rs + [np.rec])
      ensures HoldFirsts(nodes + {np}, rs + [np.rec]) && OnePerId(nodes + {np})
      ensures Keys(trie) + {np.rec.id} == {[]} + Ids(rs + [np.rec])
    {
      NewIdHeld(nodes, rs, np);
      ChainedNewId(rs, np.rec);
      IdsAppend(rs, np.rec);
    }

    // ---- the record array

    /** insert_into_records: the array doubles when it is full. */
    method InsertIntoRecords(rec: UidRecord)
      requires RecordsValid() && rec !in recs && ValidId(rec.id)
      modifies this`records, this`recordsNext, this`recs, records, rec`pos
      ensures RecordsValid() && recs == old(recs) + [rec]
      ensures records == old(records) || fresh(records)
    {
      var next := recordsNext;
      if next == records.Length {
        var want := records.Length * 2;
        var grown := new UidRecord?[want];
        forall i | 0 <= i < records.Length {
          grown[i] := records[i];
        }
        records := grown;
      }
      rec.pos := next;
      records[next] := rec;
      recordsNext := next + 1;
      recs := recs + [rec];
    }

    /** get_uid_db_record and insert_into_records */
    method PutInRecords(id: Id, status: nat) returns (rec: UidRecord)
      requires Valid() && ValidId(id)
      modifies this`records, this`recordsNext, this`recs, records
      ensures RecordsValid() && NumsValid() && recs == old(recs) + [rec]
      ensures TrieValid() && Indexes(old(recs))
      ensures fresh(rec) && rec.id == id && rec.status == status && rec.num == 0
      ensures records == old(records) || fresh(records)
    {
      hide TrieValid, Indexes, RecordsValid;
      rec := new UidRecord(id, status);
      InsertIntoRecords(rec);
      assert numNdx.View() == old(numNdx.View());
    }

    method PutInTrie(rec: UidRecord, ghost rs: seq<UidRecord>)
      requires RecordsValid() && NumsValid() && recs == rs + [rec]
      requires TrieValid() && Indexes(rs)
      modifies this`patRoot, this`trie, this`nodes, nodes`left, nodes`right, nodes`parent, rs`next, rec`next
      ensures Valid() && fresh(nodes - old(nodes)) && old(nodes) <= nodes
    {
      PrefixFacts(rs, rec);
      PatInsert(rec, rs);
    }

    lemma PrefixFacts(rs: seq<UidRecord>, rec: UidRecord)
      requires RecordsValid() && recs == rs + [rec]
      ensures NoDuplicates(rs) && rec !in rs && ValidId(rec.id)
      ensures forall r | r in rs :: ValidId(r.id)
    {
      assert recs[|rs|] == rec;
      assert forall i | 0 <= i < |rs| :: rs[i] == recs[i];
      AllDistinct(rs);
    }

    /** uid_db_insert */
    method UidDbInsert(id: Id, status: nat) returns (rec: UidRecord)
      requires Valid() && ValidId(id)
      modifies this`patRoot, this`records, this`recordsNext, this`trie, this`nodes, this`recs
      modifies records, nodes`left, nodes`right, nodes`parent, recs`next
      ensures Valid()
      ensures fresh(rec) && recs == old(recs) + [rec]
      ensures rec.id == id && rec.status == status && rec.num == 0
      ensures fresh(nodes - old(nodes)) && (records == old(records) || fresh(records))
    {
      ghost var rs := recs;
      rec := PutInRecords(id, status);
      PutInTrie(rec, rs);
    }

    // ---- searching

    /** find_uid_by_id: the earliest record with the id, or NULL. */
    method FindUidById(id: Id) returns (rec: UidRecord?)
      requires Valid() && CString(id)
      ensures rec == FirstWith(recs, id)
    {
      WalkResult(id);
      var np := patRoot;
      if np != null {
        np := Walk(id);
      }
      rec := if np != null && np.rec.id == id then np.rec else null;
    }

    /** find_uid_by_id's walk down the trie. */
    method Walk(id: Id) returns (np: PatNode?)
      requires TrieValid() && patRoot != null
      ensures np == Search(trie, id)
    {
      np := patRoot;
      var ofs: int := -1;
      var v: Byte := 0;
      ghost var depth := 0;
      while true
        invariant depth < PathLength(trie, id)
        invariant Descend(trie, id, depth).Inner? && np == Descend(trie, id, depth).node
        invariant ofs >= 0 ==> v == ByteAt(id, ofs)
        decreases PathLength(trie, id) - depth
      {
        AtPathNode(id, depth);
        var bitNdx := np.bitNdx;
        if bitNdx / 8 != ofs {
          ofs := bitNdx / 8;
          v := ByteAt(id, ofs);
        }
        np := if v & BitMask(bitNdx) != 0 then np.right else np.left;
        if np == null || np.bitNdx <= bitNdx {
          return;
        }
        depth := depth + 1;
      }
    }

    lemma WalkResult(id: Id)
      requires RecordsValid() && TrieValid() && Indexes(recs) && CString(id)
      ensures var n := Search(trie, id);
              FirstWith(recs, id) == if n != null && n.rec.id == id then n.rec else null
      ensures patRoot == null ==> Search(trie, id) == null
    {
      SearchFinds(trie, id);
      SearchTarget(trie, {}, id);
      var n, i := Search(trie, id), NextIdx(recs, id, 0);
      if i < |recs| {
        assert recs[i].id in Ids(recs);
        assert recs[i] in recs;
      }
    }

    /** last_uid_in_db: the latest record with the id, or NULL. */
    method LastUidInDb(id: Id) returns (rec: UidRecord?)
      requires Valid() && CString(id)
      ensures rec == null <==> id !in Ids(recs)
      ensures rec != null ==> exists i | 0 <= i < |recs| ::
                rec == recs[i] && rec.id == id && forall j | i < j < |recs| :: recs[j].id != id
    {
      rec := FindUidById(id);
      ghost var i := NextIdx(recs, id, 0);
      assert forall r | r in recs :: r.id in Ids(recs);
      if rec == null {
        return;
      }
      while rec.next != null
        invariant i < |recs| && rec == recs[i] && rec.id == id
        decreases |recs| - i
      {
        i := NextIdx(recs, id, i + 1);
        rec := rec.next;
      }
    }

    /** find_uid_by_pos */
    function FindUidByPos(pos: nat): (rec: UidRecord?)
      requires RecordsValid()
      reads this, records, recs`pos
      ensures rec == RecordAt(recs, if pos < |recs| then pos else |recs|)
      ensures rec != null ==> rec.pos == pos
    {
      if pos < recordsNext then records[pos] else null
    }

    /** uid_db_n_records */
    function NRecords(): (n: nat)
      requires RecordsValid()
      reads this, records, recs`pos
      ensures n == |recs|
    {
      recordsNext
    }

    // ---- the store seen as a list

    /** The store as a list of entries and a map from message numbers to positions. */
    ghost function Abs(): (s: Store)
      requires Valid()
      reads `patRoot, `records, `recordsNext, `numNdx, `trie, `nodes, `recs
      reads records, numNdx, numNdx.records, nodes, recs`pos, recs`next, recs`status
      ensures |s.list| == |recs| && WellFormed(s)
    {
      assert forall k | k in numNdx.View() :: numNdx.View()[k] in numNdx.View().Values;
      Store(Entries(recs), Positions(recs, numNdx.View()))
    }

    /** All that the store is made of. */
    ghost function Repr(): set<object?>
      reads this, numNdx
    {
      {this, records, numNdx, numNdx.records} + nodes + set r | r in recs
    }

    lemma PosIs(i: nat)
      requires Valid() && i < |recs|
      ensures recs[i].pos == i
    {
    }

    /** uid_db_insert on the list: the new entry comes last. */
    method Insert(id: Id, status: nat) returns (rec: UidRecord)
      requires Valid() && ValidId(id)
      modifies `patRoot, `records, `recordsNext, `trie, `nodes, `recs
      modifies records, nodes`left, nodes`right, nodes`parent, recs`next
      ensures Valid() && recs == old(recs) + [rec]
      ensures Abs() == Append(old(Abs()), id, status)
      ensures fresh(rec) && fresh(nodes - old(nodes)) && (records == old(records) || fresh(records))
    {
      ghost var rs, view := recs, numNdx.View();
      rec := InsertEntry(id, status);
      IndexesKept(rs, rec, view);
    }

    method InsertEntry(id: Id, status: nat) returns (rec: UidRecord)
      requires Valid() && ValidId(id)
      modifies `patRoot, `records, `recordsNext, `trie, `nodes, `recs
      modifies records, nodes`left, nodes`right, nodes`parent, recs`next
      ensures Valid() && recs == old(recs) + [rec]
      ensures numNdx.View() == old(numNdx.View())
      ensures Entries(recs) == old(Entries(recs)) + [Entry(id, status)]
      ensures fresh(rec) && fresh(nodes - old(nodes)) && (records == old(records) || fresh(records))
    {
      hide RecordsValid, TrieValid, Indexes, IndexIn;
      rec := UidDbInsert(id, status);
    }

    /** find_uid_by_id on the list. */
    method Lookup(id: Id) returns (rec: UidRecord?)
      requires Valid() && CString(id)
      ensures rec == RecordAt(recs, Find(Abs().list, id))
    {
      rec := FindUidById(id);
      FindIs(Entries(recs), id, NextIdx(recs, id, 0));
    }

    /** rec->status = status */
    method SetStatus(rec: UidRecord, status: nat)
      requires Valid() && rec in recs
      modifies rec`status
      ensures Valid() && Abs() == SetMark(old(Abs()), rec.pos, status)
    {
      assert rec == recs[rec.pos];
      rec.status := status;
      assert Entries(recs) == SetMark(old(Abs()), rec.pos, status).list;
    }

    /** set_uid_db_num */
    method SetUidDbNum(rec: UidRecord, num: nat)
      requires Valid() && rec in recs && num <= numNdx.posZero < UINT_MAX
      modifies numNdx, numNdx.records
      ensures Valid() && numNdx.posZero == old(numNdx.posZero)
      ensures Abs() == SetNum(old(Abs()), rec.pos, num)
      ensures numNdx.records == old(numNdx.records) || fresh(numNdx.records)
    {
      assert IndexIn(recs, rec) == rec.pos;
      hide TrieValid, RecordsValid, Indexes, IndexIn, Entries, Positions, NumNdx.View, NumNdx.Valid;
      ghost var view := numNdx.View();
      OneMoreNumber(recs, view, num, rec);
      numNdx.SetNum(rec, num);
    }

    /** set_uid_db_num_pos_0 */
    method SetUidDbNumPos0(num: nat)
      requires Valid() && num < UINT_MAX
      modifies numNdx`posZero, numNdx`endValue
      ensures Valid() && numNdx.posZero == num
      ensures Abs() == old(Abs()).(nums := map[])
    {
      numNdx.SetPos0(num);
    }

    /** reset_uid_db_nums on the list. */
    method ResetUidDbNums()
      requires Valid()
      modifies numNdx, recs`num
      ensures Valid() && numNdx.posZero == old(numNdx.posZero)
      ensures Abs() == WithoutNums(old(Abs()), numNdx.posZero)
    {
      hide TrieValid, RecordsValid, Indexes, IndexIn, Entries;
      ghost var view := numNdx.View();
      numNdx.ResetNums(set r | r in recs);
      ResetPositions(Entries(recs), recs, view, numNdx.posZero);
    }

    /** find_uid_by_num on the list. */
    method LookupNum(num: nat) returns (rec: UidRecord?)
      requires Valid() && num <= numNdx.posZero && num < UINT_MAX
      ensures rec == if num in Abs().nums then recs[Abs().nums[num]] else null
    {
      rec := numNdx.FindUidByNum(num);
      if num in numNdx.View() {
        assert numNdx.View()[num] in numNdx.View().Values;
      }
    }
  }

  /** The records with an id from position `k` on, in insertion order. */
  ghost function WithId(rs: seq<UidRecord>, id: Id, k: nat): seq<UidRecord>
    requires k <= |rs|
    decreases |rs| - k
  {
    if k == |rs| then []
    else if rs[k].id == id then [rs[k]] + WithId(rs, id, k + 1)
    else WithId(rs, id, k + 1)
  }

  lemma {:induction false} WithIdStep(rs: seq<UidRecord>, id: Id, k: nat)
    requires k <= |rs|
    ensures WithId(rs, id, k) == WithId(rs, id, NextIdx(rs, id, k))
    decreases |rs| - k
  {
    if k < |rs| && rs[k].id != id {
      WithIdStep(rs, id, k + 1);
    }
  }

  /** The list that starts at `rec` and goes on by `next` is `l`. */
  ghost predicate ListIs(rec: UidRecord?, l: seq<UidRecord>)
    reads l`next
  {
    if l == [] then rec == null else rec == l[0] && ListIs(l[0].next, l[1..])
  }

  /** Following `next` from what find_uid_by_id returns visits exactly the records with
      that id, in insertion order. */
  lemma NextListsSameId(rs: seq<UidRecord>, id: Id)
    requires Chained(rs)
    ensures ListIs(FirstWith(rs, id), WithId(rs, id, 0))
  {
    WithIdStep(rs, id, 0);
    ListFrom(rs, id, NextIdx(rs, id, 0));
  }

  lemma {:induction false} ListFrom(rs: seq<UidRecord>, id: Id, i: nat)
    requires Chained(rs) && i <= |rs| && (i < |rs| ==> rs[i].id == id)
    ensures ListIs(RecordAt(rs, i), WithId(rs, id, i))
    decreases |rs| - i
  {
    if i < |rs| {
      var n := NextIdx(rs, id, i + 1);
      WithIdStep(rs, id, i + 1);
      ListFrom(rs, id, n);
      assert rs[i].next == RecordAt(rs, n);
      assert WithId(rs, id, i)[1..] == WithId(rs, id, n);
    }
  }
}
