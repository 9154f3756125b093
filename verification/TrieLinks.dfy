/**
  How the pointers of the pat_nodes realise a trie.  `Links` takes a picture of
  the pointers, so that the lemmas about rewiring are about values.
 */
module TrieLinks {
  import opened IdBits
  import opened PatriciaTrie

  datatype Cell = Cell(left: PatNode?, parent: PatNode?, right: PatNode?)

  ghost function Links(nodes: set<PatNode>): map<PatNode, Cell>
    reads nodes
  {
    map n | n in nodes :: Cell(n.left, n.parent, n.right)
  }

  /** The pointers in `m` realise `t`, whose root hangs from `up`. */
  ghost predicate Matches(m: map<PatNode, Cell>, t: Trie, up: PatNode?) {
    match t
    case Up(_) => true
    case Inner(n, l, r) =>
      && n in m && m[n] == Cell(Edge(l), up, Edge(r))
      && Matches(m, l, n) && Matches(m, r, n)
  }

  lemma {:induction false} MatchesElsewhere(m: map<PatNode, Cell>, m': map<PatNode, Cell>, t: Trie, up: PatNode?)
    requires Matches(m, t, up)
    requires forall n | n in Nodes(t) :: n in m' && (n in m ==> m'[n] == m[n])
    ensures Matches(m', t, up)
  {
    if t.Inner? {
      MatchesElsewhere(m, m', t.left, t.node);
      MatchesElsewhere(m, m', t.right, t.node);
    }
  }

  /** The node above the subtree `depth` edges down, or `up` at the root. */
  ghost function ParentAt(t: Trie, id: Id, depth: nat, up: PatNode?): PatNode?
    requires depth <= PathLength(t, id)
  {
    if depth == 0 then up else ParentAt(Child(t, id), id, depth - 1, t.node)
  }

  lemma {:induction false} ParentAtIs(t: Trie, id: Id, depth: nat, up: PatNode?)
    requires depth <= PathLength(t, id)
    ensures depth > 0 ==> Descend(t, id, depth - 1).Inner? && ParentAt(t, id, depth, up) == Descend(t, id, depth - 1).node
  {
    if depth > 1 {
      ParentAtIs(Child(t, id), id, depth - 1, t.node);
    }
  }

  /** What a walker sees at the `i`-th node of a search path. */
  lemma {:induction false} PathLinks(m: map<PatNode, Cell>, t: Trie, up: PatNode?, id: Id, i: nat)
    requires Matches(m, t, up) && i < PathLength(t, id)
    ensures var s := Descend(t, id, i);
            s.Inner? && s.node in Nodes(t) && s.node in m
            && m[s.node] == Cell(Edge(s.left), ParentAt(t, id, i, up), Edge(s.right))
  {
    if i > 0 {
      PathLinks(m, Child(t, id), t.node, id, i - 1);
    }
  }

  /** The comparison of bit indices tells the two kinds of edge apart. */
  lemma {:induction false} EdgeKind(t: Trie, above: set<PatNode>, id: Id, i: nat)
    requires Patricia(t) && UpLinks(t, above) && i < PathLength(t, id)
    requires forall a | a in above :: a.bitNdx < t.node.bitNdx
    ensures var s := Descend(t, id, i);
            s.Inner? && forall c | c == s.left || c == s.right ::
              c.Inner? <==> Edge(c) != null && Edge(c).bitNdx > s.node.bitNdx
  {
    if i > 0 {
      EdgeKind(Child(t, id), above + {t.node}, id, i - 1);
    }
  }

  lemma {:induction false} SearchTarget(t: Trie, above: set<PatNode>, id: Id)
    requires UpLinks(t, above)
    ensures Search(t, id) != null ==> Search(t, id) in above + Nodes(t)
  {
    if t.Inner? {
      SearchTarget(Child(t, id), above + {t.node}, id);
    }
  }

  /** The cell of `n` after `np` was linked in above the subtree `depth` edges down:
      the subtree's root gets a new parent, and its old parent a new child. */
  ghost function Rewired(m: map<PatNode, Cell>, t: Trie, np: PatNode, depth: nat, up: PatNode?, n: PatNode): Cell
    requires depth <= PathLength(t, np.rec.id) && n in m
  {
    var sub := Descend(t, np.rec.id, depth);
    if sub.Inner? && n == sub.node then m[n].(parent := np)
    else if depth > 0 && n == ParentAt(t, np.rec.id, depth, up) then
      if BitAt(np.rec.id, n.bitNdx) then m[n].(right := np) else m[n].(left := np)
    else m[n]
  }

  ghost function NewCell(t: Trie, np: PatNode, depth: nat, up: PatNode?): Cell
    requires depth <= PathLength(t, np.rec.id)
  {
    var parent, sub := ParentAt(t, np.rec.id, depth, up), Edge(Descend(t, np.rec.id, depth));
    if BitAt(np.rec.id, np.bitNdx) then Cell(sub, parent, np) else Cell(np, parent, sub)
  }

  lemma {:induction false} InsertKeepsMatches(m: map<PatNode, Cell>, m': map<PatNode, Cell>, t: Trie,
                                              np: PatNode, depth: nat, up: PatNode?)
    requires depth <= PathLength(t, np.rec.id)
    requires Matches(m, t, up) && Distinct(t) && np !in Nodes(t)
    requires up != null ==> up !in Nodes(t)
    requires np in m' && m'[np] == NewCell(t, np, depth, up)
    requires Nodes(t) <= m.Keys && Nodes(t) <= m'.Keys
    requires forall n | n in Nodes(t) :: m'[n] == Rewired(m, t, np, depth, up, n)
    ensures Matches(m', InsertAt(t, np, depth), up)
    decreases depth
  {
    var id := np.rec.id;
    if depth == 0 {
      if t.Inner? {
        MatchesElsewhere(m, m', t.left, t.node);
        MatchesElsewhere(m, m', t.right, t.node);
      }
    } else {
      var sub := Child(t, id);
      PathNodesInside(sub, id, depth - 1, t.node);
      assert Descend(t, id, depth) == Descend(sub, id, depth - 1);
      assert ParentAt(t, id, depth, up) == ParentAt(sub, id, depth - 1, t.node);
      forall n | n in Nodes(sub) ensures m'[n] == Rewired(m, sub, np, depth - 1, t.node, n) {
      }
      InsertKeepsMatches(m, m', sub, np, depth - 1, t.node);
      InsertLeavesSibling(m, m', t, np, depth, up);
      InsertedEdge(sub, np, depth - 1);
    }
  }

  lemma InsertLeavesSibling(m: map<PatNode, Cell>, m': map<PatNode, Cell>, t: Trie,
                            np: PatNode, depth: nat, up: PatNode?)
    requires 0 < depth <= PathLength(t, np.rec.id)
    requires Matches(m, t, up) && Distinct(t)
    requires Nodes(t) <= m.Keys && Nodes(t) <= m'.Keys
    requires forall n | n in Nodes(t) :: m'[n] == Rewired(m, t, np, depth, up, n)
    ensures Matches(m', if BitAt(np.rec.id, t.node.bitNdx) then t.left else t.right, t.node)
  {
    var other := if BitAt(np.rec.id, t.node.bitNdx) then t.left else t.right;
    PathNodesInside(Child(t, np.rec.id), np.rec.id, depth - 1, t.node);
    assert Matches(m, other, t.node);
    forall n | n in Nodes(other) ensures m'[n] == m[n] {
      assert n !in Nodes(Child(t, np.rec.id)) && n != t.node;
    }
    MatchesElsewhere(m, m', other, t.node);
  }

  lemma InsertedEdge(t: Trie, np: PatNode, depth: nat)
    requires depth <= PathLength(t, np.rec.id)
    ensures Edge(InsertAt(t, np, depth)) == if depth == 0 then np else Edge(t)
  {
  }

  /** The nodes at and above a point of a search path belong to the trie. */
  lemma {:induction false} PathNodesInside(t: Trie, id: Id, depth: nat, up: PatNode?)
    requires depth <= PathLength(t, id)
    ensures Nodes(Descend(t, id, depth)) <= Nodes(t)
    ensures depth > 0 ==> ParentAt(t, id, depth, up) != null && ParentAt(t, id, depth, up) in Nodes(t)
    ensures depth == 0 ==> ParentAt(t, id, depth, up) == up
  {
    if depth > 0 {
      PathNodesInside(Child(t, id), id, depth - 1, t.node);
    }
  }

  /** `np` belongs `depth` edges down its search path: below `parent`, on the side `right`,
      and above `closest`, which is a child to move if `moved`, else the end of the search. */
  ghost predicate Place(t: Trie, np: PatNode, closest: PatNode?, parent: PatNode?, right: bool, moved: bool, depth: nat)
  {
    && InsertionPoint(t, np, depth)
    && closest == Edge(Descend(t, np.rec.id, depth)) && moved == Descend(t, np.rec.id, depth).Inner?
    && parent == ParentAt(t, np.rec.id, depth, null)
    && (parent != null ==> right == BitAt(np.rec.id, parent.bitNdx))
  }

  /** Where a search path ends: at `last`, whose edge on the side `right` leads to `below`. */
  ghost predicate PathEnd(t: Trie, id: Id, last: PatNode, below: PatNode?, right: bool, depth: nat)
  {
    && depth + 1 == PathLength(t, id) && below == Search(t, id)
    && Descend(t, id, depth).Inner? && last == Descend(t, id, depth).node
    && right == BitAt(id, last.bitNdx)
  }

  lemma PlaceNodes(t: Trie, np: PatNode, depth: nat)
    requires InsertionPoint(t, np, depth) && UpLinks(t, {})
    ensures var closest := Edge(Descend(t, np.rec.id, depth)); closest == null || closest in Nodes(t)
    ensures ParentAt(t, np.rec.id, depth, null) != null ==> ParentAt(t, np.rec.id, depth, null) in Nodes(t)
  {
    DescendEnd(t, np.rec.id);
    SearchTarget(t, {}, np.rec.id);
    PathNodesInside(t, np.rec.id, depth, null);
    if depth < PathLength(t, np.rec.id) {
      DescendStep(t, np.rec.id, depth);
    }
  }

  /** Those pointer writes turn the picture of `t` into one of the t with `np`. */
  lemma Relinked(t: Trie, m: map<PatNode, Cell>, m': map<PatNode, Cell>, np: PatNode, depth: nat,
                 closest: PatNode?, parent: PatNode?, right: bool, moved: bool)
    requires WellShaped(t) && Matches(m, t, null)
    requires np !in Nodes(t) && Place(t, np, closest, parent, right, moved, depth)
    requires m.Keys == Nodes(t) && m'.Keys == Nodes(t) + {np}
    requires m'[np] == if BitAt(np.rec.id, np.bitNdx) then Cell(closest, parent, np) else Cell(np, parent, closest)
    requires forall n | n in Nodes(t) ::
               && m'[n].left == (if n == parent && !right then np else m[n].left)
               && m'[n].right == (if n == parent && right then np else m[n].right)
               && m'[n].parent == (if n == closest && moved then np else m[n].parent)
    ensures var t' := InsertAt(t, np, depth);
            && WellShaped(t') && Matches(m', t', null)
            && Nodes(t') == Nodes(t) + {np} && Keys(t') == Keys(t) + {np.rec.id} &&
              Edge(t') == if parent == null then np else Edge(t)
  {
    NotAboveItself(t, np, depth);
    PathNodesInside(t, np.rec.id, depth, null);
    forall n | n in Nodes(t) ensures m'[n] == Rewired(m, t, np, depth, null, n) {
    }
    InsertKeepsMatches(m, m', t, np, depth, null);
    InsertKeepsPatricia(t, np, depth);
    InsertKeepsShape(t, np, depth, {});
    InsertedEdge(t, np, depth);
  }

  /** The parent of an insertion point is not the node hanging from it. */
  lemma NotAboveItself(t: Trie, np: PatNode, depth: nat)
    requires InsertionPoint(t, np, depth)
    ensures depth > 0 && Descend(t, np.rec.id, depth).Inner? ==>
              ParentAt(t, np.rec.id, depth, null) != Descend(t, np.rec.id, depth).node
  {
    var id := np.rec.id;
    if depth > 0 && Descend(t, id, depth).Inner? {
      ParentAtIs(t, id, depth, null);
      PathBitAt(t, id, depth - 1);
      DescendEnd(t, id);
      PathBitAt(t, id, depth);
    }
  }

  /** The nodes above and below the place found by the walks test earlier and later bits. */
  lemma PlaceFound(t: Trie, id: Id, d: nat, up: nat)
    requires Patricia(t) && up <= PathLength(t, id)
    requires FirstDiff(Key(Search(t, id)), id, d)
    requires up > 0 ==> ParentAt(t, id, up, null) != null && ParentAt(t, id, up, null).bitNdx <= d
    requires up < PathLength(t, id) ==> PathBit(t, id, up) > d
    ensures forall i: nat | i < up :: PathBit(t, id, i) < d
    ensures forall i: nat | up <= i < PathLength(t, id) :: d < PathBit(t, id, i)
  {
    if up > 0 {
      ParentAtIs(t, id, up, null);
      PathBitAt(t, id, up - 1);
      DiffBitNotOnPath(t, id, d, up - 1);
    }
    forall i: nat | i < PathLength(t, id)
      ensures if i < up then PathBit(t, id, i) < d else d < PathBit(t, id, i)
    {
      if i + 1 < up {
        PathBitsGrow(t, id, i, up - 1);
      } else if i > up {
        PathBitsGrow(t, id, up, i);
      }
    }
  }

  lemma {:induction false} DescendDistinct(t: Trie, id: Id, i: nat)
    requires Distinct(t) && i <= PathLength(t, id)
    ensures Distinct(Descend(t, id, i))
  {
    if i > 0 {
      DescendDistinct(Child(t, id), id, i - 1);
    }
  }
}
