/**
 * The hierarchy tree that the resolver walks (app/hierarchyresolver.py) and its
 * read-only navigation primitives: the pre-order search by attribute and the
 * parent search by identity.
 *
 * The source stores the tree as a mapping from a node to a list of single-key
 * mappings `{child: grandchildren}`; `Tree(node, kids)` is one such mapping, so
 * "the mapping a node was found in" is the subtree rooted at that node.
 */
module Hierarchy {
  import opened Wrappers
  import opened Nodes

  datatype Tree = Tree(node: NodeRecord, kids: seq<Tree>)

  /** The two attributes the source searches by: `"id"` and `"type"`. */
  datatype Attr = Id | Type

  function AttrOf(n: NodeRecord, a: Attr): int {
    match a
    case Id => n.id
    case Type => n.nodeType
  }

  // ---------------------------------------------------------------------------
  // __find_node_by_attr

  /** The first subtree, in pre-order, whose node has attribute `a` equal to `v`. */
  function Find(t: Tree, a: Attr, v: int): (r: Option<Tree>)
    ensures r.Some? ==> AttrOf(r.value.node, a) == v
    decreases t
  {
    if AttrOf(t.node, a) == v then Some(t) else FindIn(t.kids, a, v)
  }

  /** The search over one child list, child by child. */
  function FindIn(ts: seq<Tree>, a: Attr, v: int): (r: Option<Tree>)
    ensures r.Some? ==> AttrOf(r.value.node, a) == v
    decreases ts
  {
    if ts == [] then None
    else match Find(ts[0], a, v)
      case Some(r) => Some(r)
      case None => FindIn(ts[1..], a, v)
  }

  /** Every subtree, each before its descendants, siblings in list order. */
  function PreOrder(t: Tree): seq<Tree>
    decreases t
  {
    [t] + PreOrderAll(t.kids)
  }

  function PreOrderAll(ts: seq<Tree>): seq<Tree>
    decreases ts
  {
    if ts == [] then [] else PreOrder(ts[0]) + PreOrderAll(ts[1..])
  }

  /** Reference linear search: the first element of `s` whose node has attribute `a` equal to `v`. */
  function FirstMatch(s: seq<Tree>, a: Attr, v: int): (r: Option<Tree>)
    ensures r.None? <==> forall i :: 0 <= i < |s| ==> AttrOf(s[i].node, a) != v
    ensures r.Some? ==> exists i :: 0 <= i < |s| && s[i] == r.value && AttrOf(s[i].node, a) == v &&
                          forall j :: 0 <= j < i ==> AttrOf(s[j].node, a) != v
  {
    if s == [] then None
    else if AttrOf(s[0].node, a) == v then Some(s[0])
    else
      var r := FirstMatch(s[1..], a, v);
      assert forall i :: 1 <= i < |s| ==> s[i] == s[1..][i - 1];
      r
  }

  lemma {:induction false} FirstMatchAppend(s1: seq<Tree>, s2: seq<Tree>, a: Attr, v: int)
    ensures FirstMatch(s1 + s2, a, v) ==
            if FirstMatch(s1, a, v).Some? then FirstMatch(s1, a, v) else FirstMatch(s2, a, v)
  {
    if s1 != [] {
      assert (s1 + s2)[1..] == s1[1..] + s2;
      FirstMatchAppend(s1[1..], s2, a, v);
      assert (s1 + s2)[0] == s1[0];
    } else {
      assert s1 + s2 == s2;
    }
  }

  /** The search is a first-match search over the pre-order sequence of subtrees. */
  lemma {:induction false} FindIsFirstInPreOrder(t: Tree, a: Attr, v: int)
    ensures Find(t, a, v) == FirstMatch(PreOrder(t), a, v)
    decreases t
  {
    FindInIsFirstInPreOrder(t.kids, a, v);
    assert PreOrder(t)[1..] == PreOrderAll(t.kids);
  }

  lemma {:induction false} FindInIsFirstInPreOrder(ts: seq<Tree>, a: Attr, v: int)
    ensures FindIn(ts, a, v) == FirstMatch(PreOrderAll(ts), a, v)
    decreases ts
  {
    if ts != [] {
      FindIsFirstInPreOrder(ts[0], a, v);
      FindInIsFirstInPreOrder(ts[1..], a, v);
      FirstMatchAppend(PreOrder(ts[0]), PreOrderAll(ts[1..]), a, v);
    }
  }

  /**
   * What the search returns: a subtree of `t` whose node carries the value, with
   * no earlier subtree in pre-order carrying it; `None` exactly when no node does.
   */
  lemma FindFirstMatch(t: Tree, a: Attr, v: int)
    ensures Find(t, a, v).None? <==> forall u :: u in PreOrder(t) ==> AttrOf(u.node, a) != v
    ensures Find(t, a, v).Some? ==>
              var p := PreOrder(t);
              exists i :: 0 <= i < |p| && p[i] == Find(t, a, v).value && AttrOf(p[i].node, a) == v &&
                forall j :: 0 <= j < i ==> AttrOf(p[j].node, a) != v
  {
    FindIsFirstInPreOrder(t, a, v);
  }

  /** A match is a subtree of the searched tree. */
  lemma FindInPreOrder(t: Tree, a: Attr, v: int)
    requires Find(t, a, v).Some?
    ensures Find(t, a, v).value in PreOrder(t)
    ensures AttrOf(Find(t, a, v).value.node, a) == v
  {
    FindFirstMatch(t, a, v);
  }

  lemma {:induction false} PreOrderAllMember(ts: seq<Tree>, u: Tree)
    ensures u in PreOrderAll(ts) <==> exists i :: 0 <= i < |ts| && u in PreOrder(ts[i])
  {
    if ts != [] {
      PreOrderAllMember(ts[1..], u);
      if u in PreOrderAll(ts[1..]) {
        var i :| 0 <= i < |ts[1..]| && u in PreOrder(ts[1..][i]);
        assert u in PreOrder(ts[i + 1]);
      }
      if exists i :: 0 <= i < |ts| && u in PreOrder(ts[i]) {
        var i :| 0 <= i < |ts| && u in PreOrder(ts[i]);
        if i > 0 {
          assert ts[i] == ts[1..][i - 1];
        }
      }
    }
  }

  lemma KidInPreOrder(t: Tree, i: nat)
    requires i < |t.kids|
    ensures forall u :: u in PreOrder(t.kids[i]) ==> u in PreOrder(t)
  {
    forall u | u in PreOrder(t.kids[i])
      ensures u in PreOrder(t)
    {
      PreOrderAllMember(t.kids, u);
    }
  }

  /** Being a subtree is transitive. */
  lemma {:induction false} PreOrderTransitive(x: Tree, y: Tree, z: Tree)
    requires x in PreOrder(y) && y in PreOrder(z)
    ensures x in PreOrder(z)
    decreases z
  {
    if y != z {
      PreOrderAllMember(z.kids, y);
      var i :| 0 <= i < |z.kids| && y in PreOrder(z.kids[i]);
      PreOrderTransitive(x, y, z.kids[i]);
      KidInPreOrder(z, i);
    }
  }

  // ---------------------------------------------------------------------------
  // get_parent / __get_parent

  /**
   * The owner of the first child entry, in the source's visiting order, whose
   * node has identity `x`: each child is checked before its own subtree is
   * searched, and before the next child.
   */
  function Parent(t: Tree, x: int): (r: Option<NodeRecord>)
    ensures r.Some? ==> x in IdSetAll(t.kids)
    decreases t
  {
    ParentAmong(t.node, t.kids, x)
  }

  function ParentAmong(owner: NodeRecord, ts: seq<Tree>, x: int): (r: Option<NodeRecord>)
    ensures r.Some? ==> x in IdSetAll(ts)
    decreases ts
  {
    if ts == [] then None
    else if ts[0].node.id == x then Some(owner)
    else match Parent(ts[0], x)
      case Some(p) => Some(p)
      case None => ParentAmong(owner, ts[1..], x)
  }

  /** An owner-to-child link of the tree. */
  datatype Edge = Edge(owner: NodeRecord, child: NodeRecord)

  /** Every owner-to-child link, in the order in which the parent search meets them. */
  function Edges(t: Tree): seq<Edge>
    decreases t
  {
    EdgesAmong(t.node, t.kids)
  }

  function EdgesAmong(owner: NodeRecord, ts: seq<Tree>): seq<Edge>
    decreases ts
  {
    if ts == [] then [] else [Edge(owner, ts[0].node)] + Edges(ts[0]) + EdgesAmong(owner, ts[1..])
  }

  /** Reference linear search: the owner of the first link into a node with identity `x`. */
  function FirstOwnerOf(es: seq<Edge>, x: int): (r: Option<NodeRecord>)
    ensures r.None? <==> forall i :: 0 <= i < |es| ==> es[i].child.id != x
    ensures r.Some? ==> exists i :: 0 <= i < |es| && es[i].owner == r.value && es[i].child.id == x &&
                          forall j :: 0 <= j < i ==> es[j].child.id != x
  {
    if es == [] then None
    else if es[0].child.id == x then Some(es[0].owner)
    else
      var r := FirstOwnerOf(es[1..], x);
      assert forall i :: 1 <= i < |es| ==> es[i] == es[1..][i - 1];
      r
  }

  lemma {:induction false} FirstOwnerOfAppend(e1: seq<Edge>, e2: seq<Edge>, x: int)
    ensures FirstOwnerOf(e1 + e2, x) ==
            if FirstOwnerOf(e1, x).Some? then FirstOwnerOf(e1, x) else FirstOwnerOf(e2, x)
  {
    if e1 != [] {
      assert (e1 + e2)[1..] == e1[1..] + e2;
      FirstOwnerOfAppend(e1[1..], e2, x);
      assert (e1 + e2)[0] == e1[0];
    } else {
      assert e1 + e2 == e2;
    }
  }

  /** The parent search returns the owner of the first link, in visiting order, into a node with identity `x`. */
  lemma {:induction false} ParentIsFirstOwner(t: Tree, x: int)
    ensures Parent(t, x) == FirstOwnerOf(Edges(t), x)
    decreases t
  {
    ParentAmongIsFirstOwner(t.node, t.kids, x);
  }

  lemma {:induction false} ParentAmongIsFirstOwner(owner: NodeRecord, ts: seq<Tree>, x: int)
    ensures ParentAmong(owner, ts, x) == FirstOwnerOf(EdgesAmong(owner, ts), x)
    decreases ts
  {
    if ts != [] {
      ParentIsFirstOwner(ts[0], x);
      ParentAmongIsFirstOwner(owner, ts[1..], x);
      var head := [Edge(owner, ts[0].node)];
      assert EdgesAmong(owner, ts) == head + (Edges(ts[0]) + EdgesAmong(owner, ts[1..]));
      FirstOwnerOfAppend(head, Edges(ts[0]) + EdgesAmong(owner, ts[1..]), x);
      FirstOwnerOfAppend(Edges(ts[0]), EdgesAmong(owner, ts[1..]), x);
    }
  }

  // ---------------------------------------------------------------------------
  // Identities, uniqueness and chains of subtrees

  function IdSet(t: Tree): set<int>
    decreases t
  {
    {t.node.id} + IdSetAll(t.kids)
  }

  function IdSetAll(ts: seq<Tree>): set<int>
    decreases ts
  {
    if ts == [] then {} else IdSet(ts[0]) + IdSetAll(ts[1..])
  }

  lemma {:induction false} IdSetAllMember(ts: seq<Tree>, x: int)
    ensures x in IdSetAll(ts) <==> exists i :: 0 <= i < |ts| && x in IdSet(ts[i])
  {
    if ts != [] {
      IdSetAllMember(ts[1..], x);
      if x in IdSetAll(ts[1..]) {
        var i :| 0 <= i < |ts[1..]| && x in IdSet(ts[1..][i]);
        assert x in IdSet(ts[i + 1]);
      }
      if exists i :: 0 <= i < |ts| && x in IdSet(ts[i]) {
        var i :| 0 <= i < |ts| && x in IdSet(ts[i]);
        if i > 0 {
          assert ts[i] == ts[1..][i - 1];
        }
      }
    }
  }

  /**
   * No two nodes of the tree share an identity. Python's `id()` gives this for
   * a tree built from distinct objects.
   */
  predicate UniqueIds(t: Tree)
    decreases t
  {
    && t.node.id !in IdSetAll(t.kids)
    && (forall i, j :: 0 <= i < j < |t.kids| ==> IdSet(t.kids[i]) !! IdSet(t.kids[j]))
    && (forall i :: 0 <= i < |t.kids| ==> UniqueIds(t.kids[i]))
  }

  /** `c` descends from `t` one child at a time: `c[0] == t` and each next element is a child of the previous one. */
  predicate IsChain(t: Tree, c: seq<Tree>) {
    |c| >= 1 && c[0] == t && forall i :: 0 <= i < |c| - 1 ==> c[i + 1] in c[i].kids
  }

  function Last<T>(s: seq<T>): T
    requires |s| > 0
  {
    s[|s| - 1]
  }

  /** The chain from `t` down to the first node, in pre-order, with identity `x`. */
  function ChainTo(t: Tree, x: int): (r: Option<seq<Tree>>)
    ensures r.Some? ==> IsChain(t, r.value) && Last(r.value).node.id == x
    decreases t
  {
    if t.node.id == x then Some([t])
    else match ChainAmong(t.kids, x)
      case Some(c) => Some([t] + c)
      case None => None
  }

  function ChainAmong(ts: seq<Tree>, x: int): (r: Option<seq<Tree>>)
    ensures r.Some? ==> |r.value| >= 1 && r.value[0] in ts && IsChain(r.value[0], r.value) && Last(r.value).node.id == x
    decreases ts
  {
    if ts == [] then None
    else match ChainTo(ts[0], x)
      case Some(c) => Some(c)
      case None => ChainAmong(ts[1..], x)
  }

  /** The search by identity finds the bottom of the chain to that identity, and nothing when there is none. */
  lemma {:induction false} FindIdIsChainEnd(t: Tree, x: int)
    ensures Find(t, Id, x) == (match ChainTo(t, x) case Some(c) => Some(Last(c)) case None => None)
    ensures ChainTo(t, x).None? <==> x !in IdSet(t)
    decreases t
  {
    FindInIdIsChainEnd(t.kids, x);
  }

  lemma {:induction false} FindInIdIsChainEnd(ts: seq<Tree>, x: int)
    ensures FindIn(ts, Id, x) == (match ChainAmong(ts, x) case Some(c) => Some(Last(c)) case None => None)
    ensures ChainAmong(ts, x).None? <==> x !in IdSetAll(ts)
    decreases ts
  {
    if ts != [] {
      FindIdIsChainEnd(ts[0], x);
      FindInIdIsChainEnd(ts[1..], x);
    }
  }

  lemma {:induction false} ChainEndInIdSet(t: Tree, c: seq<Tree>)
    requires IsChain(t, c)
    ensures Last(c).node.id in IdSet(t)
    decreases |c|
  {
    if |c| > 1 {
      ChainTail(t, c);
      ChainEndInIdSet(c[1], c[1..]);
      var j :| 0 <= j < |t.kids| && t.kids[j] == c[1];
      IdSetAllMember(t.kids, Last(c).node.id);
    }
  }

  lemma ChainTail(t: Tree, c: seq<Tree>)
    requires IsChain(t, c) && |c| > 1
    ensures IsChain(c[1], c[1..]) && c[1] in t.kids && Last(c[1..]) == Last(c)
  {
    forall i | 0 <= i < |c[1..]| - 1
      ensures c[1..][i + 1] in c[1..][i].kids
    {
      assert c[1..][i + 1] == c[i + 2] && c[1..][i] == c[i + 1];
    }
  }

  /** A prefix of a chain is a chain. */
  lemma ChainPrefix(t: Tree, c: seq<Tree>, k: nat)
    requires IsChain(t, c) && 1 <= k <= |c|
    ensures IsChain(t, c[..k]) && Last(c[..k]) == c[k - 1]
  {
  }

  /** Every element of a chain is a subtree of its top. */
  lemma {:induction false} ChainInPreOrder(t: Tree, c: seq<Tree>, k: nat)
    requires IsChain(t, c) && k < |c|
    ensures c[k] in PreOrder(t)
    decreases |c|
  {
    if k > 0 {
      ChainTail(t, c);
      ChainInPreOrder(c[1], c[1..], k - 1);
      var j :| 0 <= j < |t.kids| && t.kids[j] == c[1];
      KidInPreOrder(t, j);
    }
  }

  lemma {:induction false} AbsentIdNotFound(t: Tree, x: int)
    requires x !in IdSet(t)
    ensures Find(t, Id, x) == None
  {
    FindIdIsChainEnd(t, x);
  }

  /** No link leads into an identity that does not occur below the owner. */
  lemma {:induction false} ParentOfAbsent(t: Tree, x: int)
    requires x !in IdSetAll(t.kids)
    ensures Parent(t, x) == None
    decreases t
  {
    ParentAmongOfAbsent(t.node, t.kids, x);
  }

  lemma {:induction false} ParentAmongOfAbsent(owner: NodeRecord, ts: seq<Tree>, x: int)
    requires x !in IdSetAll(ts)
    ensures ParentAmong(owner, ts, x) == None
    decreases ts
  {
    if ts != [] {
      ParentOfAbsent(ts[0], x);
      ParentAmongOfAbsent(owner, ts[1..], x);
    }
  }

  lemma {:induction false} FindInSkip(ts: seq<Tree>, j: nat, x: int)
    requires j < |ts| && forall i :: 0 <= i < j ==> x !in IdSet(ts[i])
    ensures FindIn(ts, Id, x) == FindIn(ts[j..], Id, x)
  {
    if j > 0 {
      AbsentIdNotFound(ts[0], x);
      assert ts[1..][j - 1..] == ts[j..];
      FindInSkip(ts[1..], j - 1, x);
    }
  }

  lemma {:induction false} ParentAmongSkip(owner: NodeRecord, ts: seq<Tree>, j: nat, x: int)
    requires j < |ts| && forall i :: 0 <= i < j ==> x !in IdSet(ts[i])
    ensures ParentAmong(owner, ts, x) == ParentAmong(owner, ts[j..], x)
  {
    if j > 0 {
      ParentOfAbsent(ts[0], x);
      assert ts[1..][j - 1..] == ts[j..];
      ParentAmongSkip(owner, ts[1..], j - 1, x);
    }
  }

  /**
   * With distinct identities, searching by the identity of a node reached along
   * a chain finds exactly that node's subtree, and the parent search returns the
   * node one step up the chain, or `None` at the top.
   */
  lemma {:induction false} ChainParent(t: Tree, c: seq<Tree>)
    requires UniqueIds(t) && IsChain(t, c)
    ensures Find(t, Id, Last(c).node.id) == Some(Last(c))
    ensures Parent(t, Last(c).node.id) == if |c| == 1 then None else Some(c[|c| - 2].node)
    decreases |c|
  {
    var x := Last(c).node.id;
    if |c| == 1 {
      ParentOfAbsent(t, x);
    } else {
      ChainTail(t, c);
      var j :| 0 <= j < |t.kids| && t.kids[j] == c[1];
      var k := t.kids[j];
      ChainParent(k, c[1..]);
      ChainEndInIdSet(k, c[1..]);
      IdSetAllMember(t.kids, x);
      assert x != t.node.id;
      forall i | 0 <= i < j
        ensures x !in IdSet(t.kids[i])
      {
        assert IdSet(t.kids[i]) !! IdSet(t.kids[j]);
      }
      FindInSkip(t.kids, j, x);
      ParentAmongSkip(t.node, t.kids, j, x);
      if |c| > 2 {
        ChainTail(c[1], c[1..]);
        ChainEndInIdSet(c[2], c[2..]);
        IdSetAllMember(k.kids, x);
        assert k.node.id != x;
      }
    }
  }
}
