/**
  The shape of the PATRICIA trie of uid_db.c, as a value.

  A trie node is at once an inner node (it tests one bit) and the holder of a
  record.  An edge to a node with a larger bit index goes down; any other edge
  is an up-link that ends the search at the node it points to, or is NULL.
  `Trie` unrolls this: `Up` is an edge that ends a search, `Inner` one that goes
  on.  The NULL edge counts as an up-link to a phantom node with the empty key,
  all of whose bits are 0.
 */
module PatriciaTrie {
  import opened IdBits

  /** struct uid_db_record.  The id is written once, before the record is shared. */
  class UidRecord {
    const id: Id
    var num: nat
    var status: nat
    var pos: nat
    var next: UidRecord?

    constructor (id: Id, status: nat)
      ensures this.id == id && this.status == status && num == 0 && next == null
    {
      this.id, this.status, num, pos, next := id, status, 0, 0, null;
    }
  }

  /** struct pat_node.  `bitMask` is a function of `bitNdx`, so it is not stored. */
  class PatNode {
    const rec: UidRecord
    const bitNdx: nat
    var left: PatNode?
    var parent: PatNode?
    var right: PatNode?

    /** get_pat_node, with the bit index its callers store next. */
    constructor (rec: UidRecord, bitNdx: nat)
      modifies rec`next
      ensures this.rec == rec && this.bitNdx == bitNdx
      ensures left == null && parent == null && right == null && rec.next == null
    {
      this.rec, this.bitNdx := rec, bitNdx;
      left, parent, right := null, null, null;
      new;
      rec.next := null;
    }
  }

  datatype Trie = Up(target: PatNode?) | Inner(node: PatNode, left: Trie, right: Trie)

  ghost function Key(n: PatNode?): Id {
    if n == null then [] else n.rec.id
  }

  /** The keys at which searches of `t` may end. */
  ghost function Keys(t: Trie): set<Id> {
    match t
    case Up(n) => {Key(n)}
    case Inner(_, l, r) => Keys(l) + Keys(r)
  }

  ghost function Nodes(t: Trie): set<PatNode> {
    match t
    case Up(_) => {}
    case Inner(n, l, r) => {n} + Nodes(l) + Nodes(r)
  }

  /** The node an edge leading to `t` points to. */
  ghost function Edge(t: Trie): PatNode? {
    match t
    case Up(n) => n
    case Inner(n, _, _) => n
  }

  ghost predicate Separates(bitNdx: nat, x: Id, y: Id) {
    AgreeBelow(x, y, bitNdx) && !BitAt(x, bitNdx) && BitAt(y, bitNdx)
  }

  /** The search invariant: bit indices grow downwards, and the bit a node tests is
      the first one in which any key on its left differs from any key on its right. */
  ghost predicate Patricia(t: Trie) {
    match t
    case Up(_) => true
    case Inner(n, l, r) =>
      && Patricia(l) && Patricia(r)
      && (l.Inner? ==> n.bitNdx < l.node.bitNdx)
      && (r.Inner? ==> n.bitNdx < r.node.bitNdx)
      && forall x, y | x in Keys(l) && y in Keys(r) :: Separates(n.bitNdx, x, y)
  }

  /** No node occurs twice as an inner node. */
  ghost predicate Distinct(t: Trie) {
    match t
    case Up(_) => true
    case Inner(n, l, r) =>
      && Distinct(l) && Distinct(r)
      && n !in Nodes(l) && n !in Nodes(r) && Nodes(l) !! Nodes(r)
  }

  /** Every up-link points to the node it hangs from or to one above it. */
  ghost predicate UpLinks(t: Trie, above: set<PatNode>) {
    match t
    case Up(n) => n == null || n in above
    case Inner(n, l, r) => UpLinks(l, above + {n}) && UpLinks(r, above + {n})
  }

  ghost predicate WellShaped(t: Trie) {
    Patricia(t) && Distinct(t) && UpLinks(t, {})
  }

  ghost function Child(t: Trie, id: Id): Trie
    requires t.Inner?
  {
    if BitAt(id, t.node.bitNdx) then t.right else t.left
  }

  /** Where the search for `id` ends. */
  ghost function Search(t: Trie, id: Id): PatNode? {
    match t
    case Up(n) => n
    case Inner(_, _, _) => Search(Child(t, id), id)
  }

  /** A search ends at a node with the key looked for exactly when the trie has it. */
  lemma {:induction false} SearchFinds(t: Trie, id: Id)
    requires Patricia(t)
    ensures Key(Search(t, id)) in Keys(t)
    ensures id in Keys(t) <==> Key(Search(t, id)) == id
  {
    if t.Inner? {
      SearchFinds(t.left, id);
      SearchFinds(t.right, id);
      if id in Keys(t.left) {
        SomeKey(t.right);
        var y :| y in Keys(t.right);
        assert Separates(t.node.bitNdx, id, y);
      } else if id in Keys(t.right) {
        SomeKey(t.left);
        var x :| x in Keys(t.left);
        assert Separates(t.node.bitNdx, x, id);
      }
    }
  }

  lemma {:induction false} SomeKey(t: Trie)
    ensures exists x :: x in Keys(t)
  {
    if t.Inner? {
      SomeKey(t.left);
      var x :| x in Keys(t.left);
      assert x in Keys(t);
    } else {
      assert Key(t.target) in Keys(t);
    }
  }

  /** All keys below a node agree before the bit the node tests. */
  lemma {:induction false} KeysAgree(t: Trie, x: Id, y: Id)
    requires Patricia(t) && t.Inner? && x in Keys(t) && y in Keys(t)
    ensures AgreeBelow(x, y, t.node.bitNdx)
  {
    var b := t.node.bitNdx;
    if x in Keys(t.left) && y in Keys(t.left) {
      if t.left.Inner? { KeysAgree(t.left, x, y); }
    } else if x in Keys(t.right) && y in Keys(t.right) {
      if t.right.Inner? { KeysAgree(t.right, x, y); }
    } else if x in Keys(t.left) {
      assert Separates(b, x, y);
    } else {
      assert Separates(b, y, x);
    }
  }

  /** The subtree `depth` edges down the search path of `id`. */
  ghost function Descend(t: Trie, id: Id, depth: nat): Trie
    requires depth <= PathLength(t, id)
  {
    if depth == 0 then t else Descend(Child(t, id), id, depth - 1)
  }

  /** How many inner nodes the search for `id` visits. */
  ghost function PathLength(t: Trie, id: Id): nat {
    match t
    case Up(_) => 0
    case Inner(_, _, _) => 1 + PathLength(Child(t, id), id)
  }

  lemma {:induction false} DescendStep(t: Trie, id: Id, depth: nat)
    requires depth < PathLength(t, id)
    ensures Descend(t, id, depth).Inner?
    ensures Descend(t, id, depth + 1) == Child(Descend(t, id, depth), id)
    ensures PathLength(Descend(t, id, depth), id) == PathLength(t, id) - depth
  {
    if depth > 0 {
      DescendStep(Child(t, id), id, depth - 1);
    }
  }

  lemma {:induction false} DescendEnd(t: Trie, id: Id)
    ensures Descend(t, id, PathLength(t, id)) == Up(Search(t, id))
  {
    if t.Inner? {
      DescendEnd(Child(t, id), id);
    }
  }

  lemma {:induction false} DescendFacts(t: Trie, id: Id, depth: nat)
    requires depth <= PathLength(t, id) && Patricia(t)
    ensures Patricia(Descend(t, id, depth))
    ensures Nodes(Descend(t, id, depth)) <= Nodes(t)
    ensures Keys(Descend(t, id, depth)) <= Keys(t)
    ensures Search(Descend(t, id, depth), id) == Search(t, id)
  {
    if depth > 0 {
      DescendFacts(Child(t, id), id, depth - 1);
    }
  }

  /** A node for `np` over `t`: its own key on one side by an up-link to itself. */
  ghost function Above(np: PatNode, t: Trie): Trie {
    if BitAt(np.rec.id, np.bitNdx) then Inner(np, t, Up(np)) else Inner(np, Up(np), t)
  }

  /** `t` with `np` put over the subtree `depth` edges down its own search path. */
  ghost function InsertAt(t: Trie, np: PatNode, depth: nat): Trie
    requires depth <= PathLength(t, np.rec.id)
  {
    if depth == 0 then Above(np, t)
    else
      var rest := InsertAt(Child(t, np.rec.id), np, depth - 1);
      if BitAt(np.rec.id, t.node.bitNdx) then t.(right := rest) else t.(left := rest)
  }

  /** `np`, at the bit where its id first differs from the key its search ends at,
      belongs between the last path node testing an earlier bit and the first
      testing a later one. */
  ghost predicate InsertionPoint(t: Trie, np: PatNode, depth: nat) {
    && depth <= PathLength(t, np.rec.id)
    && FirstDiff(Key(Search(t, np.rec.id)), np.rec.id, np.bitNdx)
    && (forall i: nat | i < depth :: PathBit(t, np.rec.id, i) < np.bitNdx)
    && (forall i: nat | depth <= i < PathLength(t, np.rec.id) :: np.bitNdx < PathBit(t, np.rec.id, i))
  }

  /** The bit tested at the `i`-th node of the search path. */
  ghost function PathBit(t: Trie, id: Id, i: nat): nat
    requires i < PathLength(t, id)
  {
    if i == 0 then t.node.bitNdx else PathBit(Child(t, id), id, i - 1)
  }

  lemma {:induction false} PathBitAt(t: Trie, id: Id, i: nat)
    requires i < PathLength(t, id)
    ensures Descend(t, id, i).Inner? && PathBit(t, id, i) == Descend(t, id, i).node.bitNdx
  {
    if i > 0 {
      PathBitAt(Child(t, id), id, i - 1);
    }
  }

  lemma {:induction false} PathBitsGrow(t: Trie, id: Id, i: nat, j: nat)
    requires Patricia(t) && i < j < PathLength(t, id)
    ensures PathBit(t, id, i) < PathBit(t, id, j)
    decreases j
  {
    if i > 0 {
      PathBitsGrow(Child(t, id), id, i - 1, j - 1);
    } else if j > 1 {
      PathBitsGrow(Child(t, id), id, 0, j - 1);
    }
  }

  /** The path never tests the bit at which the new id departs from it. */
  lemma {:induction false} DiffBitNotOnPath(t: Trie, id: Id, d: nat, i: nat)
    requires Patricia(t) && i < PathLength(t, id)
    requires FirstDiff(Key(Search(t, id)), id, d)
    ensures PathBit(t, id, i) != d
  {
    if i > 0 {
      DiffBitNotOnPath(Child(t, id), id, d, i - 1);
    } else {
      SearchFinds(t.left, id);
      SearchFinds(t.right, id);
      SomeKey(t.left);
      SomeKey(t.right);
      var x :| x in Keys(t.left);
      var y :| y in Keys(t.right);
      var c := Key(Search(t, id));
      assert Separates(t.node.bitNdx, c, y) || Separates(t.node.bitNdx, x, c);
    }
  }

  lemma InsertionPointBelow(t: Trie, np: PatNode, depth: nat)
    requires InsertionPoint(t, np, depth) && depth > 0
    ensures t.Inner? && t.node.bitNdx < np.bitNdx
    ensures InsertionPoint(Child(t, np.rec.id), np, depth - 1)
  {
    var c := Child(t, np.rec.id);
    assert PathBit(t, np.rec.id, 0) < np.bitNdx;
    forall i: nat | i < PathLength(c, np.rec.id)
      ensures PathBit(c, np.rec.id, i) == PathBit(t, np.rec.id, i + 1)
    {
    }
  }

  /** Insertion keeps the search invariant and adds exactly the new key. */
  lemma AboveKeepsPatricia(t: Trie, np: PatNode)
    requires Patricia(t) && InsertionPoint(t, np, 0)
    ensures Patricia(Above(np, t)) && Keys(Above(np, t)) == Keys(t) + {np.rec.id}
  {
    AllDiffer(t, np);
  }

  lemma {:induction false} InsertKeepsPatricia(t: Trie, np: PatNode, depth: nat)
    requires Patricia(t) && InsertionPoint(t, np, depth)
    ensures Patricia(InsertAt(t, np, depth))
    ensures Keys(InsertAt(t, np, depth)) == Keys(t) + {np.rec.id}
    decreases depth
  {
    if depth == 0 {
      AboveKeepsPatricia(t, np);
    } else {
      hide FirstDiff, AgreeBelow, Separates, BitAt;
      InsertionPointBelow(t, np, depth);
      SeparatedLater(t, np);
      hide InsertionPoint;
      var sub := Child(t, np.rec.id);
      InsertKeepsPatricia(sub, np, depth - 1);
      assert depth == 1 ==> InsertAt(sub, np, 0).node == np;
    }
  }

  /** Above every node that tests a later bit, the new id differs from all keys at the same bit. */
  lemma AllDiffer(t: Trie, np: PatNode)
    requires Patricia(t) && InsertionPoint(t, np, 0)
    ensures forall x | x in Keys(t) :: FirstDiff(x, np.rec.id, np.bitNdx)
    ensures t.Inner? ==> np.bitNdx < t.node.bitNdx
  {
    var c := Key(Search(t, np.rec.id));
    SearchFinds(t, np.rec.id);
    if t.Inner? {
      assert np.bitNdx < PathBit(t, np.rec.id, 0);
      forall x | x in Keys(t) ensures AgreeBelow(x, c, t.node.bitNdx) {
        KeysAgree(t, x, c);
      }
    }
  }

  /** A node that tests an earlier bit separates the new id as it does the key that the search for it finds. */
  lemma SeparatedLater(t: Trie, np: PatNode)
    requires Patricia(t) && t.Inner? && t.node.bitNdx < np.bitNdx
    requires FirstDiff(Key(Search(t, np.rec.id)), np.rec.id, np.bitNdx)
    ensures BitAt(np.rec.id, t.node.bitNdx) ==>
              forall x | x in Keys(t.left) :: Separates(t.node.bitNdx, x, np.rec.id)
    ensures !BitAt(np.rec.id, t.node.bitNdx) ==>
              forall y | y in Keys(t.right) :: Separates(t.node.bitNdx, np.rec.id, y)
  {
    var id, b := np.rec.id, t.node.bitNdx;
    var c := Key(Search(t, id));
    SearchFinds(Child(t, id), id);
    if BitAt(id, b) {
      forall x | x in Keys(t.left) ensures Separates(b, x, id) {
        assert Separates(b, x, c);
      }
    } else {
      forall y | y in Keys(t.right) ensures Separates(b, id, y) {
        assert Separates(b, c, y);
      }
    }
  }

  /** Insertion adds one inner node, and up-links still lead upwards. */
  lemma {:induction false} InsertKeepsShape(t: Trie, np: PatNode, depth: nat, above: set<PatNode>)
    requires depth <= PathLength(t, np.rec.id)
    requires Distinct(t) && UpLinks(t, above) && np !in Nodes(t)
    ensures Distinct(InsertAt(t, np, depth)) && UpLinks(InsertAt(t, np, depth), above)
    ensures Nodes(InsertAt(t, np, depth)) == Nodes(t) + {np}
    decreases depth
  {
    if depth == 0 {
      UpLinksWiden(t, above, above + {np});
    } else {
      InsertKeepsShape(Child(t, np.rec.id), np, depth - 1, above + {t.node});
    }
  }

  lemma {:induction false} UpLinksWiden(t: Trie, above: set<PatNode>, wider: set<PatNode>)
    requires UpLinks(t, above) && above <= wider
    ensures UpLinks(t, wider)
  {
    if t.Inner? {
      UpLinksWiden(t.left, above + {t.node}, wider + {t.node});
      UpLinksWiden(t.right, above + {t.node}, wider + {t.node});
    }
  }

  /** The one NULL edge of a trie that holds the phantom key is a left edge: no
      search that turns right at the last node ends at NULL. */
  lemma {:induction false} NullEdgeIsLeft(t: Trie, n: PatNode, l: Trie, r: Trie)
    requires t == Inner(n, l, r) && Patricia(t)
    ensures r != Up(null)
    ensures [] in Keys(t) ==> [] in Keys(l) && [] !in Keys(r)
  {
    SomeKey(l);
    var x :| x in Keys(l);
    assert [] in Keys(r) ==> Separates(n.bitNdx, x, []);
    assert !BitAt([], n.bitNdx);
  }
}
