/**
  free_pat_trie (uid_db.c): a traversal without a stack that frees a trie while it
  uses the trie's own pointers to find its way.  Freeing is modelled by logging the
  freed object; before every dereference the object is asserted not to be in the log.
 */
module TrieFree {
  import opened IdBits
  import opened PatriciaTrie
  import opened TrieLinks
  import opened UidStore

  /** What is left to do below one edge of a node on the current path. */
  datatype Rest = Done | Todo(t: Trie)

  /** The nodes from the current one up to the root, with what is left below each. */
  datatype Path = Bottom | Frame(node: PatNode, left: Rest, right: Rest, above: Path)

  ghost function RestEdge(r: Rest): PatNode? {
    if r.Done? then null else Edge(r.t)
  }

  ghost function RestNodes(r: Rest): set<PatNode> {
    if r.Done? then {} else Nodes(r.t)
  }

  ghost function Top(p: Path): PatNode? {
    if p.Bottom? then null else p.node
  }

  ghost function OnPath(p: Path): set<PatNode> {
    if p.Bottom? then {} else {p.node} + OnPath(p.above)
  }

  /** The nodes not yet freed. */
  ghost function Pending(p: Path): set<PatNode> {
    if p.Bottom? then {} else {p.node} + RestNodes(p.left) + RestNodes(p.right) + Pending(p.above)
  }

  ghost predicate RestOk(m: map<PatNode, Cell>, r: Rest, n: PatNode, onPath: set<PatNode>) {
    r.Todo? ==>
      && Matches(m, r.t, n) && Patricia(r.t) && Distinct(r.t) && UpLinks(r.t, onPath)
      && (r.t.Inner? ==> n.bitNdx < r.t.node.bitNdx)
  }

  ghost predicate PathOk(m: map<PatNode, Cell>, p: Path) {
    match p
    case Bottom => true
    case Frame(n, l, r, above) =>
      && n in m && m[n] == Cell(RestEdge(l), Top(above), RestEdge(r))
      && RestOk(m, l, n, OnPath(p)) && RestOk(m, r, n, OnPath(p))
      && n !in RestNodes(l) && n !in RestNodes(r) && RestNodes(l) !! RestNodes(r)
      && {n} + RestNodes(l) + RestNodes(r) !! Pending(above)
      && (above.Frame? ==> above.node.bitNdx < n.bitNdx)
      && PathOk(m, above)
  }

  /** The termination measure: edges left to look at and nodes left to free. */
  ghost function Work(p: Path): nat {
    if p.Bottom? then 0 else 1 + RestWork(p.left) + RestWork(p.right) + Work(p.above)
  }

  ghost function RestWork(r: Rest): nat {
    if r.Done? then 0 else TrieWork(r.t)
  }

  ghost function TrieWork(t: Trie): nat {
    if t.Up? then 1 else 2 + TrieWork(t.left) + TrieWork(t.right)
  }

  lemma {:induction false} PathElsewhere(m: map<PatNode, Cell>, m': map<PatNode, Cell>, p: Path)
    requires PathOk(m, p)
    requires forall n | n in Pending(p) :: n in m' && (n in m ==> m'[n] == m[n])
    ensures PathOk(m', p)
  {
    if p.Frame? {
      RestElsewhere(m, m', p.left, p.node, OnPath(p));
      RestElsewhere(m, m', p.right, p.node, OnPath(p));
      PathElsewhere(m, m', p.above);
    }
  }

  lemma RestElsewhere(m: map<PatNode, Cell>, m': map<PatNode, Cell>, r: Rest, n: PatNode, onPath: set<PatNode>)
    requires RestOk(m, r, n, onPath)
    requires forall x | x in RestNodes(r) :: x in m' && (x in m ==> m'[x] == m[x])
    ensures RestOk(m', r, n, onPath)
  {
    if r.Todo? {
      MatchesElsewhere(m, m', r.t, n);
    }
  }

  /** Up-links from a node lead to the path, which has not been freed, and to nodes
      whose bit index is no larger. */
  lemma {:induction false} PathBelow(p: Path, m: map<PatNode, Cell>, x: PatNode)
    requires PathOk(m, p) && x in OnPath(p)
    ensures x in Pending(p) && x.bitNdx <= p.node.bitNdx
  {
    if x != p.node {
      PathBelow(p.above, m, x);
    }
  }

  ghost function Drop(p: Path, left: bool): Path
    requires p.Frame?
  {
    if left then p.(left := Done) else p.(right := Done)
  }

  ghost function Dropped(p: Path, left: bool): Rest
    requires p.Frame?
  {
    if left then p.left else p.right
  }

  /** Setting the left or the right pointer of the current node to NULL. */
  lemma DropEdge(m: map<PatNode, Cell>, m': map<PatNode, Cell>, p: Path, left: bool)
    requires PathOk(m, p) && p.Frame?
    requires m'.Keys == m.Keys && Pending(p) <= m.Keys
    requires m'[p.node] == if left then m[p.node].(left := null) else m[p.node].(right := null)
    requires forall n | n in Pending(p) && n != p.node :: m'[n] == m[n]
    ensures PathOk(m', Drop(p, left)) && RestOk(m', Dropped(p, left), p.node, OnPath(p))
  {
    assert OnPath(Drop(p, left)) == OnPath(p);
    RestElsewhere(m, m', p.left, p.node, OnPath(p));
    RestElsewhere(m, m', p.right, p.node, OnPath(p));
    PathElsewhere(m, m', p.above);
  }

  lemma DropSets(m: map<PatNode, Cell>, p: Path, left: bool)
    requires PathOk(m, p) && p.Frame?
    ensures Pending(Drop(p, left)) !! RestNodes(Dropped(p, left))
    ensures Pending(Drop(p, left)) + RestNodes(Dropped(p, left)) == Pending(p)
    ensures Work(Drop(p, left)) + RestWork(Dropped(p, left)) == Work(p)
  {
  }

  /** Going down to the node the dropped edge led to. */
  lemma GoDown(m: map<PatNode, Cell>, p: Path, t: Trie)
    requires PathOk(m, p) && p.Frame? && t.Inner?
    requires RestOk(m, Todo(t), p.node, OnPath(p)) && Pending(p) !! Nodes(t)
    ensures var q := Frame(t.node, Todo(t.left), Todo(t.right), p);
            PathOk(m, q) && Pending(q) == Pending(p) + Nodes(t) && Work(q) == Work(p) + TrieWork(t) - 1
  {
    assert OnPath(Frame(t.node, Todo(t.left), Todo(t.right), p)) == OnPath(p) + {t.node};
  }

  /** The kind of an edge of the current node, and that its target has not been freed. */
  lemma EdgeOfCurrent(m: map<PatNode, Cell>, p: Path, r: Rest)
    requires PathOk(m, p) && p.Frame? && (r == p.left || r == p.right)
    ensures RestEdge(r) != null ==>
              && r.Todo? && RestEdge(r) in Pending(p)
              && (r.t.Inner? <==> RestEdge(r).bitNdx > p.node.bitNdx)
  {
    if RestEdge(r) != null && r.t.Up? {
      PathBelow(p, m, r.t.target);
    }
  }

  /** The records whose node has been freed. */
  ghost predicate FreedWith(nodes: set<PatNode>, r: UidRecord) {
    exists n :: n in nodes && n.rec.id == r.id
  }

  /** free_uid_list: frees the list from its end. */
  method FreeUidList(rec: UidRecord?, ghost l: seq<UidRecord>, ghost gone: set<UidRecord>)
    returns (freed: seq<UidRecord>)
    requires ListIs(rec, l) && NoDuplicates(l)
    requires forall r | r in l :: r !in gone
    ensures NoDuplicates(freed) && (forall r | r in freed :: r in l) && (forall r | r in l :: r in freed)
    decreases |l|
  {
    if rec == null {
      return [];
    }
    freed := [];
    assert rec !in gone;
    if rec.next != null {
      freed := FreeUidList(rec.next, l[1..], gone);
    }
    assert rec !in gone && rec !in freed;
    freed := freed + [rec];
  }

  /** Membership in the list of an id's records. */
  lemma WithIdAll(rs: seq<UidRecord>, id: Id)
    requires NoDuplicates(rs)
    ensures forall r | r in WithId(rs, id, 0) :: r in rs && r.id == id
    ensures forall r | r in rs && r.id == id :: r in WithId(rs, id, 0)
    ensures NoDuplicates(WithId(rs, id, 0))
  {
    WithIdMembers(rs, id, 0);
    assert rs[0..] == rs;
  }

  lemma {:induction false} WithIdMembers(rs: seq<UidRecord>, id: Id, k: nat)
    requires k <= |rs| && NoDuplicates(rs)
    ensures forall r | r in WithId(rs, id, k) :: r in rs[k..] && r.id == id
    ensures forall r | r in rs[k..] && r.id == id :: r in WithId(rs, id, k)
    ensures NoDuplicates(WithId(rs, id, k))
    decreases |rs| - k
  {
    if k < |rs| {
      WithIdMembers(rs, id, k + 1);
      assert rs[k..] == [rs[k]] + rs[k + 1..];
    }
  }

  /** The freed and the pending nodes divide the trie's nodes; the freed records are
      those of the freed nodes; nothing was freed twice. */
  ghost predicate Progress(nodes: set<PatNode>, recs: seq<UidRecord>, pending: set<PatNode>,
                           freedNodes: seq<PatNode>, freedRecs: seq<UidRecord>) {
    var gone := set n | n in freedNodes;
    && pending !! gone && pending + gone == nodes
    && (forall i, j | 0 <= i < j < |freedNodes| :: freedNodes[i] != freedNodes[j])
    && NoDuplicates(freedRecs)
    && (forall r | r in freedRecs :: r in recs)
    && (forall r | r in recs :: r in freedRecs <==> FreedWith(gone, r))
  }

  /** What the loop of free_pat_trie keeps. */
  ghost predicate Freeing(nodes: set<PatNode>, recs: seq<UidRecord>, p: Path,
                          freedNodes: seq<PatNode>, freedRecs: seq<UidRecord>)
    reads nodes, recs`next
  {
    PathOk(Links(nodes), p) && Chained(recs) && Progress(nodes, recs, Pending(p), freedNodes, freedRecs)
  }

  /** An edge of the current node that is not NULL leads to a node not yet freed, and the
      comparison of bit indices tells whether there is work below it. */
  lemma LiveEdge(nodes: set<PatNode>, recs: seq<UidRecord>, p: Path,
                 freedNodes: seq<PatNode>, freedRecs: seq<UidRecord>)
    requires Freeing(nodes, recs, p, freedNodes, freedRecs) && p.Frame?
    ensures p.node in nodes && p.node !in freedNodes && p.node.parent == Top(p.above)
    ensures p.node.left == RestEdge(p.left) && p.node.right == RestEdge(p.right)
    ensures forall r | (r == p.left || r == p.right) && RestEdge(r) != null ::
              RestEdge(r) !in freedNodes && r.Todo? && (r.t.Inner? <==> RestEdge(r).bitNdx > p.node.bitNdx)
  {
    EdgeOfCurrent(Links(nodes), p, p.left);
    EdgeOfCurrent(Links(nodes), p, p.right);
  }

  /** Sets the left or right pointer of the current node to NULL. */
  method Unlink(np: PatNode, left: bool, ghost nodes: set<PatNode>, ghost recs: seq<UidRecord>, ghost p: Path,
                ghost freedNodes: seq<PatNode>, ghost freedRecs: seq<UidRecord>) returns (ghost q: Path)
    requires p.Frame? && np == p.node && Freeing(nodes, recs, p, freedNodes, freedRecs)
    requires np in nodes && Dropped(p, left).Todo?
    modifies np`left, np`right
    ensures Freeing(nodes, recs, q, freedNodes, freedRecs) && Work(q) < Work(p) && q.Frame?
    ensures var t := Dropped(p, left).t;
            if t.Up? then q == Drop(p, left) else Top(q) == t.node
  {
    ghost var m := Links(nodes);
    if left {
      np.left := null;
    } else {
      np.right := null;
    }
    DropSets(m, p, left);
    DropEdge(m, Links(nodes), p, left);
    ghost var t := Dropped(p, left).t;
    q := Drop(p, left);
    if t.Inner? {
      GoDown(Links(nodes), q, t);
      q := Frame(t.node, Todo(t.left), Todo(t.right), q);
    }
    assert Pending(q) == Pending(p);
  }

  /** Frees a node all of whose edges have been dealt with, and its list of records. */
  method FreeNode(np: PatNode, freedNodes: seq<PatNode>, freedRecs: seq<UidRecord>,
                  ghost nodes: set<PatNode>, ghost recs: seq<UidRecord>, ghost p: Path)
    returns (freedNodes': seq<PatNode>, freedRecs': seq<UidRecord>)
    requires HoldFirsts(nodes, recs) && OnePerId(nodes) && NoDuplicates(recs)
    requires Freeing(nodes, recs, p, freedNodes, freedRecs)
    requires p.Frame? && np == p.node && np in nodes && RestEdge(p.left) == null && RestEdge(p.right) == null
    ensures Freeing(nodes, recs, p.above, freedNodes', freedRecs') && Work(p.above) < Work(p)
  {
    ghost var l := WithId(recs, np.rec.id, 0);
    NextListsSameId(recs, np.rec.id);
    WithIdAll(recs, np.rec.id);
    hide HoldFirsts, NoDuplicates;
    NotYetFreed(nodes, recs, Pending(p), np, freedNodes, freedRecs);
    var freed := FreeUidList(np.rec, l, set r | r in freedRecs);
    freedNodes', freedRecs' := freedNodes + [np], freedRecs + freed;
    NodeFreed(nodes, recs, Pending(p), np, freedNodes, freedRecs, freed);
    NodeDone(Links(nodes), p);
  }

  lemma NotYetFreed(nodes: set<PatNode>, recs: seq<UidRecord>, pending: set<PatNode>, np: PatNode,
                    freedNodes: seq<PatNode>, freedRecs: seq<UidRecord>)
    requires np in pending && OnePerId(nodes) && Progress(nodes, recs, pending, freedNodes, freedRecs)
    ensures forall r | r in freedRecs :: r.id != np.rec.id
  {
  }

  lemma AppendDistinct(a: seq<UidRecord>, b: seq<UidRecord>)
    requires NoDuplicates(a) && NoDuplicates(b) && forall r | r in a :: r !in b
    ensures NoDuplicates(a + b)
  {
    forall i, j | 0 <= i < j < |a + b| ensures (a + b)[i] != (a + b)[j] {
      if i < |a| {
        assert a[i] in a;
      }
    }
  }

  lemma NodeFreed(nodes: set<PatNode>, recs: seq<UidRecord>, pending: set<PatNode>, np: PatNode,
                  freedNodes: seq<PatNode>, freedRecs: seq<UidRecord>, freed: seq<UidRecord>)
    requires np in pending && OnePerId(nodes) && Progress(nodes, recs, pending, freedNodes, freedRecs)
    requires NoDuplicates(freed) && (forall r | r in freed :: r in recs && r.id == np.rec.id)
    requires forall r | r in recs && r.id == np.rec.id :: r in freed
    ensures Progress(nodes, recs, pending - {np}, freedNodes + [np], freedRecs + freed)
  {
    var was, gone := set n | n in freedNodes, set n | n in freedNodes + [np];
    assert gone == was + {np};
    forall r | r in recs ensures FreedWith(gone, r) <==> FreedWith(was, r) || r.id == np.rec.id {
      if r.id == np.rec.id {
        assert np in gone;
      }
    }
    forall r | r in freedRecs ensures r !in freed {
      assert FreedWith(was, r);
    }
    AppendDistinct(freedRecs, freed);
  }

  lemma NodeDone(m: map<PatNode, Cell>, p: Path)
    requires PathOk(m, p) && p.Frame? && RestEdge(p.left) == null && RestEdge(p.right) == null
    ensures PathOk(m, p.above) && Pending(p.above) == Pending(p) - {p.node} && Work(p.above) < Work(p)
  {
  }

  lemma EveryRecordHasNode(db: UidDb)
    requires db.TrieValid() && db.Indexes(db.recs) && db.RecordsValid()
    ensures forall r | r in db.recs :: FreedWith(db.nodes, r)
  {
    forall r | r in db.recs ensures FreedWith(db.nodes, r) {
      assert r.id in Ids(db.recs);
      SearchFinds(db.trie, r.id);
      SearchTarget(db.trie, {}, r.id);
      assert Search(db.trie, r.id) in db.nodes;
    }
  }

  /** free_pat_trie: frees nodes and records, never looking at one after it was freed. */
  method FreePatTrie(root: PatNode, ghost t: Trie, ghost nodes: set<PatNode>, ghost recs: seq<UidRecord>)
    returns (freedNodes: seq<PatNode>, freedRecs: seq<UidRecord>)
    requires t.Inner? && root == t.node && Freeing(nodes, recs, WholeTrie(t), [], [])
    requires HoldFirsts(nodes, recs) && OnePerId(nodes) && NoDuplicates(recs)
    modifies nodes`left, nodes`right
    ensures Freeing(nodes, recs, Bottom, freedNodes, freedRecs)
  {
    freedNodes, freedRecs := [], [];
    var np: PatNode? := root;
    ghost var p := WholeTrie(t);
    while np != null
      invariant np == Top(p) && Freeing(nodes, recs, p, freedNodes, freedRecs)
      decreases Work(p)
    {
      LiveEdge(nodes, recs, p, freedNodes, freedRecs);
      assert np !in freedNodes;
      var next := np.left;
      if next != null {
        p := Unlink(np, true, nodes, recs, p, freedNodes, freedRecs);
        assert next !in freedNodes;
        if next.bitNdx > np.bitNdx {
          np := next;
          continue;
        }
        LiveEdge(nodes, recs, p, freedNodes, freedRecs);
      }
      next := np.right;
      if next != null {
        p := Unlink(np, false, nodes, recs, p, freedNodes, freedRecs);
        assert next !in freedNodes;
        if next.bitNdx > np.bitNdx {
          np := next;
          continue;
        }
        LiveEdge(nodes, recs, p, freedNodes, freedRecs);
      }
      next := np.parent;
      freedNodes, freedRecs := FreeNode(np, freedNodes, freedRecs, nodes, recs, p);
      np := next;
      p := p.above;
    }
  }

  /** The trie part of free_uid_db: every node and every record is freed exactly once. */
  method FreeUidDb(db: UidDb) returns (freedNodes: seq<PatNode>, freedRecs: seq<UidRecord>)
    requires db.TrieValid() && db.Indexes(db.recs) && db.RecordsValid()
    modifies db.nodes`left, db.nodes`right
    ensures forall i, j | 0 <= i < j < |freedNodes| :: freedNodes[i] != freedNodes[j]
    ensures (set n | n in freedNodes) == db.nodes
    ensures NoDuplicates(freedRecs)
    ensures (set r | r in freedRecs) == set r | r in db.recs
  {
    freedNodes, freedRecs := [], [];
    EveryRecordHasNode(db);
    if db.patRoot != null {
      StartFreeing(Links(db.nodes), db.trie);
      freedNodes, freedRecs := FreePatTrie(db.patRoot, db.trie, db.nodes, db.recs);
    }
  }

  ghost function WholeTrie(t: Trie): Path
    requires t.Inner?
  {
    Frame(t.node, Todo(t.left), Todo(t.right), Bottom)
  }

  lemma StartFreeing(m: map<PatNode, Cell>, t: Trie)
    requires t.Inner? && WellShaped(t) && Matches(m, t, null)
    ensures PathOk(m, WholeTrie(t)) && Pending(WholeTrie(t)) == Nodes(t)
  {
    assert OnPath(WholeTrie(t)) == {t.node} && {} + {t.node} == {t.node};
  }
}
