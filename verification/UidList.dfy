/**
  The simple thing a UID store speeds up: the list of (id, status) entries in
  insertion order, and for some message numbers the position of an entry.
 */
module UidList {
  import opened IdBits

  const UID_UNSEEN: nat := 0
  const UID_SEEN: nat := 1
  const UID_DELETED: nat := 2
  const UID_EXPUNGED: nat := 3

  datatype Entry = Entry(id: Id, status: nat)

  datatype Store = Store(list: seq<Entry>, nums: map<nat, nat>)

  /** The position of the first entry with the id, or |list|. */
  function Find(list: seq<Entry>, id: Id): (i: nat)
    ensures i <= |list|
  {
    if list == [] || list[0].id == id then 0 else 1 + Find(list[1..], id)
  }

  predicate Has(list: seq<Entry>, id: Id) {
    Find(list, id) < |list|
  }

  /** The status of the first entry with the id. */
  function Mark(list: seq<Entry>, id: Id): nat
    requires Has(list, id)
  {
    list[Find(list, id)].status
  }

  function SetMark(s: Store, i: nat, status: nat): Store
    requires i < |s.list|
  {
    s.(list := s.list[i := s.list[i].(status := status)])
  }

  function Append(s: Store, id: Id, status: nat): Store {
    s.(list := s.list + [Entry(id, status)])
  }

  function SetNum(s: Store, i: nat, num: nat): Store {
    s.(nums := s.nums[num := i])
  }

  /** The store without numbers, if it has one below the highest. */
  function WithoutNums(s: Store, highest: nat): Store {
    if exists k | k in s.nums :: k < highest then s.(nums := map[]) else s
  }

  /** Numbers lead to entries. */
  ghost predicate WellFormed(s: Store) {
    forall k | k in s.nums :: s.nums[k] < |s.list|
  }

  lemma {:induction false} FindFirst(list: seq<Entry>, id: Id)
    ensures Has(list, id) ==> list[Find(list, id)].id == id
    ensures forall j | 0 <= j < Find(list, id) :: list[j].id != id
  {
    if list != [] && list[0].id != id {
      FindFirst(list[1..], id);
    }
  }

  /** The first entry with an id is the only position Find can mean. */
  lemma FindIs(list: seq<Entry>, id: Id, i: nat)
    requires i <= |list| && (i < |list| ==> list[i].id == id)
    requires forall j | 0 <= j < i :: list[j].id != id
    ensures Find(list, id) == i
  {
    FindFirst(list, id);
  }
}
