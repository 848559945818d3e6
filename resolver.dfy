/**
 * The hierarchy resolver (app/hierarchyresolver.py): turns every link declared
 * on a node of the hierarchy tree into a resolved link between two nodes.
 *
 * The specification functions below say what each step computes over the tree;
 * the class `HierarchyResolver` performs the steps as the source does, with the
 * same loops and the same list that grows across calls, and is proved to agree.
 */
module Resolver {
  import opened Wrappers
  import opened Nodes
  import opened Hierarchy
  import opened Endpoints

  /**
   * One output tuple `(from_node, from_port, to_node, to_port)`. A node is `None`
   * when `__resolve_port` ran out of types before it reached a childless node.
   */
  datatype ResolvedLink = ResolvedLink(fromNode: Option<NodeRecord>, fromPort: string,
                                       toNode: Option<NodeRecord>, toPort: string)

  function Prepend(xs: seq<int>, r: Result<seq<int>, Error>): Result<seq<int>, Error> {
    match r
    case Ok(ys) => Ok(xs + ys)
    case Err(e) => Err(e)
  }

  lemma PrependTwice(xs: seq<int>, p: int, r: Result<seq<int>, Error>)
    ensures Prepend(xs, Prepend([p], r)) == Prepend(xs + [p], r)
  {
    if r.Ok? {
      assert xs + ([p] + r.value) == (xs + [p]) + r.value;
    }
  }

  // ---------------------------------------------------------------------------
  // get_path_to_root

  /**
   * The types met while climbing from the last of `ancestors` (root first,
   * nearest ancestor last) towards the root, up to and including the first of
   * type 0. Climbing above the root fails, as `get_parent` then gives `None`.
   */
  function AscendTypes(ancestors: seq<Tree>): Result<seq<int>, Error>
    decreases |ancestors|
  {
    if ancestors == [] then Err(LookupFailed)
    else
      var p := ancestors[|ancestors| - 1].node.nodeType;
      if p == 0 then Ok([0]) else Prepend([p], AscendTypes(ancestors[..|ancestors| - 1]))
  }

  /** What `get_path_to_root(n, prior)` leaves in the list: `prior`, `n`'s type, then the climbed types. */
  function PathToRoot(root: Tree, n: NodeRecord, prior: seq<int>): Result<seq<int>, Error> {
    match ChainTo(root, n.id)
    case None => Err(LookupFailed)
    case Some(c) =>
      if |c| == 1 then Err(LookupFailed)
      else Prepend(prior + [n.nodeType], AscendTypes(c[..|c| - 1]))
  }

  /**
   * The climb yields the ancestors' types nearest first and stops at the first
   * 0, which it includes; it fails exactly when no ancestor has type 0.
   */
  lemma {:induction false} AscendTypesShape(ancestors: seq<Tree>)
    ensures AscendTypes(ancestors).Err? <==> forall i :: 0 <= i < |ancestors| ==> ancestors[i].node.nodeType != 0
    ensures AscendTypes(ancestors).Ok? ==>
              var up := AscendTypes(ancestors).value;
              1 <= |up| <= |ancestors| && up[|up| - 1] == 0 &&
              (forall i :: 0 <= i < |up| ==> up[i] == ancestors[|ancestors| - 1 - i].node.nodeType) &&
              (forall i :: 0 <= i < |up| - 1 ==> up[i] != 0)
    decreases |ancestors|
  {
    if ancestors != [] {
      var front := ancestors[..|ancestors| - 1];
      AscendTypesShape(front);
      assert forall i :: 0 <= i < |front| ==> front[i] == ancestors[i];
      if ancestors[|ancestors| - 1].node.nodeType != 0 && AscendTypes(front).Ok? {
        var up := AscendTypes(ancestors).value;
        var rest := AscendTypes(front).value;
        assert up == [ancestors[|ancestors| - 1].node.nodeType] + rest;
        assert forall i :: 1 <= i < |up| ==> up[i] == rest[i - 1];
      }
    }
  }

  /**
   * The path of a node keeps the earlier list contents as a prefix, then holds
   * the node's own type and the climbed types, and ends in 0; it fails for the
   * root, for a node not in the tree, and when no ancestor has type 0.
   */
  lemma PathToRootShape(root: Tree, n: NodeRecord, prior: seq<int>)
    ensures PathToRoot(root, n, prior).Ok? <==>
              ChainTo(root, n.id).Some? && |ChainTo(root, n.id).value| > 1 &&
              exists i :: 0 <= i < |ChainTo(root, n.id).value| - 1 && ChainTo(root, n.id).value[i].node.nodeType == 0
    ensures PathToRoot(root, n, prior).Ok? ==>
              var r := PathToRoot(root, n, prior).value;
              |r| >= |prior| + 2 && r[..|prior|] == prior && r[|prior|] == n.nodeType && r[|r| - 1] == 0
  {
    match ChainTo(root, n.id)
    case None =>
    case Some(c) =>
      if |c| > 1 {
        var anc := c[..|c| - 1];
        AscendTypesShape(anc);
        assert forall i :: 0 <= i < |anc| ==> anc[i] == c[i];
      }
  }

  // ---------------------------------------------------------------------------
  // get_sibling_subtree

  /**
   * Search the subtree of each ancestor in turn, nearest first, for a node of
   * type `t`; the first level that holds one gives its first such node.
   */
  function WidenScope(ancestors: seq<Tree>, t: int): Result<Tree, Error>
    decreases |ancestors|
  {
    if ancestors == [] then Err(LookupFailed)
    else match Find(ancestors[|ancestors| - 1], Type, t)
      case Some(r) => Ok(r)
      case None => WidenScope(ancestors[..|ancestors| - 1], t)
  }

  /** The subtree `get_sibling_subtree(n, t)` returns: rooted at the sibling it finds. */
  function SiblingScope(root: Tree, n: NodeRecord, t: int): Result<Tree, Error> {
    match ChainTo(root, n.id)
    case None => Err(LookupFailed)
    case Some(c) => if |c| == 1 then Err(LookupFailed) else WidenScope(c[..|c| - 1], t)
  }

  /**
   * The widening search returns a node of the wanted type, found in the subtree
   * of some ancestor, with none in the subtrees of the nearer ancestors; it fails
   * exactly when no ancestor's subtree holds one.
   */
  lemma WidenScopeSpec(ancestors: seq<Tree>, t: int)
    ensures WidenScope(ancestors, t).Err? <==> forall k :: 0 <= k < |ancestors| ==> Find(ancestors[k], Type, t).None?
    ensures WidenScope(ancestors, t).Ok? ==>
              var r := WidenScope(ancestors, t).value;
              r.node.nodeType == t &&
              exists k :: 0 <= k < |ancestors| && Find(ancestors[k], Type, t) == Some(r) && r in PreOrder(ancestors[k]) &&
                forall j :: k < j < |ancestors| ==> Find(ancestors[j], Type, t).None?
  {
    WidenScopeFails(ancestors, t);
    if WidenScope(ancestors, t).Ok? {
      WidenScopeFinds(ancestors, t);
    }
  }

  /** The widening fails exactly when no ancestor's subtree holds a node of the type. */
  lemma {:induction false} WidenScopeFails(ancestors: seq<Tree>, t: int)
    ensures WidenScope(ancestors, t).Err? <==> forall k :: 0 <= k < |ancestors| ==> Find(ancestors[k], Type, t).None?
    decreases |ancestors|
  {
    if ancestors != [] {
      var front := ancestors[..|ancestors| - 1];
      WidenScopeFails(front, t);
      assert forall k :: 0 <= k < |front| ==> front[k] == ancestors[k];
    }
  }

  /** A widening that succeeds returns the match of the nearest ancestor whose subtree holds one. */
  lemma {:induction false} WidenScopeFinds(ancestors: seq<Tree>, t: int)
    requires WidenScope(ancestors, t).Ok?
    ensures var r := WidenScope(ancestors, t).value;
              r.node.nodeType == t &&
              exists k :: 0 <= k < |ancestors| && Find(ancestors[k], Type, t) == Some(r) && r in PreOrder(ancestors[k]) &&
                forall j :: k < j < |ancestors| ==> Find(ancestors[j], Type, t).None?
    decreases |ancestors|
  {
    var last := ancestors[|ancestors| - 1];
    var front := ancestors[..|ancestors| - 1];
    var r := WidenScope(ancestors, t).value;
    match Find(last, Type, t)
    case Some(m) =>
      FindInPreOrder(last, Type, t);
      assert r == m;
    case None =>
      WidenScopeFinds(front, t);
      var k :| 0 <= k < |front| && Find(front[k], Type, t) == Some(r) && r in PreOrder(front[k]) &&
               forall j :: k < j < |front| ==> Find(front[j], Type, t).None?;
      assert front[k] == ancestors[k];
      assert forall j :: k < j < |ancestors| - 1 ==> ancestors[j] == front[j];
  }

  /** The sibling search only succeeds with a node of the wanted type that lies in the tree. */
  lemma SiblingScopeInTree(root: Tree, n: NodeRecord, t: int)
    requires SiblingScope(root, n, t).Ok?
    ensures SiblingScope(root, n, t).value.node.nodeType == t
    ensures SiblingScope(root, n, t).value in PreOrder(root)
  {
    var c := ChainTo(root, n.id).value;
    var anc := c[..|c| - 1];
    WidenScopeSpec(anc, t);
    var k :| 0 <= k < |anc| && Find(anc[k], Type, t) == Some(SiblingScope(root, n, t).value) &&
             SiblingScope(root, n, t).value in PreOrder(anc[k]);
    ChainInPreOrder(root, c, k);
    PreOrderTransitive(SiblingScope(root, n, t).value, anc[k], root);
  }

  // ---------------------------------------------------------------------------
  // __resolve_port

  /**
   * Consume `types` from its end: find the next type in the current subtree
   * (the matched node first, then its descendants), stop at the first match
   * without children, and give `None` when the types run out first.
   */
  function Descend(types: seq<int>, s: Tree): (r: Result<Option<Tree>, Error>)
    ensures r.Ok? && r.value.Some? ==> r.value.value.kids == [] && r.value.value in PreOrder(s)
    decreases |types|
  {
    if types == [] then Ok(None)
    else match Find(s, Type, types[|types| - 1])
      case None => Err(LookupFailed)
      case Some(m) =>
        FindInPreOrder(s, Type, types[|types| - 1]);
        if m.kids == [] then Ok(Some(m))
        else
          var r := Descend(types[..|types| - 1], m);
          if r.Ok? && r.value.Some? then
            PreOrderTransitive(r.value.value, m, s);
            r
          else r
  }

  /** Once the last type reaches a node without children, any earlier types are ignored. */
  lemma DescendStopsAtLeaf(types: seq<int>, x: int, s: Tree)
    requires Find(s, Type, x).Some? && Find(s, Type, x).value.kids == []
    ensures Descend(types + [x], s) == Ok(Some(Find(s, Type, x).value))
  {
    assert (types + [x])[|types|] == x;
  }

  /** A type that no node of the current subtree has makes the descent fail. */
  lemma DescendMissingType(types: seq<int>, x: int, s: Tree)
    requires forall u :: u in PreOrder(s) ==> u.node.nodeType != x
    ensures Descend(types + [x], s) == Err(LookupFailed)
  {
    FindFirstMatch(s, Type, x);
    assert (types + [x])[|types|] == x;
  }

  function NodeOf(o: Option<Tree>): Option<NodeRecord> {
    match o
    case Some(t) => Some(t.node)
    case None => None
  }

  // ---------------------------------------------------------------------------
  // resolve_from_port / resolve_to_port

  /** `resolve_from_port(n, connection)`. */
  function ResolveFrom(root: Tree, n: NodeRecord, connection: string): Result<(Option<NodeRecord>, string), Error> {
    match ParseConnection(connection)
    case Err(e) => Err(e)
    case Ok((name, path)) =>
      if path == [] then Ok((Some(n), name))
      else match PathToRoot(root, n, path)
        case Err(e) => Err(e)
        case Ok(types) =>
          match Descend(types, root)
          case Err(e) => Err(e)
          case Ok(leaf) => Ok((NodeOf(leaf), name))
  }

  /** `resolve_to_port(n, to_type, connection)`: the sibling search runs before the string is parsed. */
  function ResolveTo(root: Tree, n: NodeRecord, toType: int, connection: string): Result<(Option<NodeRecord>, string), Error> {
    match SiblingScope(root, n, toType)
    case Err(e) => Err(e)
    case Ok(scope) =>
      match ParseConnection(connection)
      case Err(e) => Err(e)
      case Ok((name, path)) =>
        if path == [] then
          match Find(scope, Type, toType)
          case None => Err(LookupFailed)
          case Some(m) => Ok((Some(m.node), name))
        else
          match Descend(path, scope)
          case Err(e) => Err(e)
          case Ok(leaf) => Ok((NodeOf(leaf), name))
  }

  /** A bare port name resolves the outgoing end to the node itself, with the port name unchanged. */
  lemma ResolveFromEmptyPath(root: Tree, n: NodeRecord, connection: string)
    requires ParseConnection(connection).Ok? && ParseConnection(connection).value.1 == []
    ensures ResolveFrom(root, n, connection) == Ok((Some(n), ParseConnection(connection).value.0))
  {
  }

  /**
   * With a type path, the outgoing end is the descent, from the whole tree, along
   * the parsed path followed by the node's path to the root; it is a node without
   * children, or `None`, and the port name is the parsed one.
   */
  lemma ResolveFromWithPath(root: Tree, n: NodeRecord, connection: string)
    requires ParseConnection(connection).Ok? && ParseConnection(connection).value.1 != []
    requires ResolveFrom(root, n, connection).Ok?
    ensures var (name, path) := ParseConnection(connection).value;
            var types := PathToRoot(root, n, path).value;
            types[..|path|] == path &&
            ResolveFrom(root, n, connection).value == (NodeOf(Descend(types, root).value), name)
    ensures var end := ResolveFrom(root, n, connection).value.0;
            end.Some? ==> exists leaf :: leaf in PreOrder(root) && leaf.kids == [] && leaf.node == end.value
  {
    var (name, path) := ParseConnection(connection).value;
    PathToRootShape(root, n, path);
    var types := PathToRoot(root, n, path).value;
    var d := Descend(types, root).value;
    if d.Some? {
      assert d.value in PreOrder(root) && d.value.kids == [];
    }
  }

  /**
   * A bare port name resolves the incoming end to the first node of the wanted
   * type in the widened sibling scope, that is, to the node the scope is rooted at.
   */
  lemma ResolveToEmptyPath(root: Tree, n: NodeRecord, toType: int, connection: string)
    requires ParseConnection(connection).Ok? && ParseConnection(connection).value.1 == []
    requires SiblingScope(root, n, toType).Ok?
    ensures var scope := SiblingScope(root, n, toType).value;
            scope.node.nodeType == toType &&
            ResolveTo(root, n, toType, connection) == Ok((Some(scope.node), ParseConnection(connection).value.0))
  {
    SiblingScopeInTree(root, n, toType);
  }

  /** Both ends keep the parsed port name unchanged. */
  lemma ResolvedPortsAreParsedNames(root: Tree, n: NodeRecord, toType: int, c1: string, c2: string)
    requires ResolveFrom(root, n, c1).Ok? && ResolveTo(root, n, toType, c2).Ok?
    ensures ResolveFrom(root, n, c1).value.1 == ParseConnection(c1).value.0
    ensures ResolveTo(root, n, toType, c2).value.1 == ParseConnection(c2).value.0
  {
  }

  // ---------------------------------------------------------------------------
  // resolve_hierarchy / __resolve_hierarchy

  /** One declared link of node `n`: its outgoing end first, then its incoming end. */
  function ResolveOne(root: Tree, n: NodeRecord, l: Link): Result<ResolvedLink, Error> {
    match ResolveFrom(root, n, l.fromPort)
    case Err(e) => Err(e)
    case Ok((fromNode, fromPort)) =>
      match ResolveTo(root, n, l.toNodeType, l.toPort)
      case Err(e) => Err(e)
      case Ok((toNode, toPort)) => Ok(ResolvedLink(fromNode, fromPort, toNode, toPort))
  }

  /** The tuples appended for the links `ls` of node `n`, and the error that stopped them, if any. */
  function ResolveLinks(root: Tree, n: NodeRecord, ls: seq<Link>): (seq<ResolvedLink>, Option<Error>)
    decreases |ls|
  {
    if ls == [] then ([], None)
    else
      var before := ResolveLinks(root, n, ls[..|ls| - 1]);
      if before.1.Some? then before
      else match ResolveOne(root, n, ls[|ls| - 1])
        case Err(e) => (before.0, Some(e))
        case Ok(l) => (before.0 + [l], None)
  }

  /**
   * The tuples appended by the walk over the child list `ts` and their
   * subtrees, in pre-order, and the error that stopped it, if any.
   */
  function WalkAll(root: Tree, ts: seq<Tree>): (seq<ResolvedLink>, Option<Error>)
    decreases ts, 0
  {
    if ts == [] then ([], None)
    else
      var before := WalkAll(root, ts[..|ts| - 1]);
      if before.1.Some? then before
      else
        var step := ChildStep(root, ts[|ts| - 1]);
        (before.0 + step.0, step.1)
  }

  /** What one child adds: the tuples of its own links, then those of its subtree. */
  function ChildStep(root: Tree, t: Tree): (seq<ResolvedLink>, Option<Error>)
    decreases t, 1
  {
    match t.node.links
    case None => ([], Some(LinksMissing))
    case Some(ls) =>
      var own := ResolveLinks(root, t.node, ls);
      if own.1.Some? then own
      else
        var below := WalkAll(root, t.kids);
        (own.0 + below.0, below.1)
  }

  /** Reference order: every declared link of every node of `ts` and below, with its owner, in pre-order. */
  function Declared(ts: seq<Tree>): seq<(NodeRecord, Link)>
    decreases ts
  {
    if ts == [] then []
    else Declared(ts[..|ts| - 1]) + OwnLinks(ts[|ts| - 1].node) + Declared(ts[|ts| - 1].kids)
  }

  function OwnLinks(n: NodeRecord): seq<(NodeRecord, Link)> {
    match n.links
    case None => []
    case Some(ls) => seq(|ls|, i requires 0 <= i < |ls| => (n, ls[i]))
  }

  /** `out` holds, position by position, the resolutions of the declared links `ds`. */
  predicate Matches(root: Tree, ds: seq<(NodeRecord, Link)>, out: seq<ResolvedLink>) {
    |ds| == |out| && forall i :: 0 <= i < |ds| ==> ResolveOne(root, ds[i].0, ds[i].1) == Ok(out[i])
  }

  lemma MatchesConcat(root: Tree, d1: seq<(NodeRecord, Link)>, o1: seq<ResolvedLink>,
                      d2: seq<(NodeRecord, Link)>, o2: seq<ResolvedLink>)
    requires Matches(root, d1, o1) && Matches(root, d2, o2)
    ensures Matches(root, d1 + d2, o1 + o2)
  {
    forall i | 0 <= i < |d1 + d2|
      ensures ResolveOne(root, (d1 + d2)[i].0, (d1 + d2)[i].1) == Ok((o1 + o2)[i])
    {
      if i >= |d1| {
        assert (d1 + d2)[i] == d2[i - |d1|] && (o1 + o2)[i] == o2[i - |o1|];
      }
    }
  }

  /** One more link adds its tuple, or stops the node's links with its error. */
  lemma ResolveLinksStep(root: Tree, n: NodeRecord, ls: seq<Link>, j: nat)
    requires j < |ls| && ResolveLinks(root, n, ls[..j]).1.None?
    ensures ResolveLinks(root, n, ls[..j + 1]) ==
              match ResolveOne(root, n, ls[j])
              case Err(e) => (ResolveLinks(root, n, ls[..j]).0, Some(e))
              case Ok(l) => (ResolveLinks(root, n, ls[..j]).0 + [l], None)
  {
    assert ls[..j + 1][..j] == ls[..j];
  }

  /** Links that all resolve: those before the last all resolve, then the last one adds its tuple. */
  lemma ResolveLinksLast(root: Tree, n: NodeRecord, ls: seq<Link>)
    requires ls != [] && ResolveLinks(root, n, ls).1.None?
    ensures ResolveLinks(root, n, ls[..|ls| - 1]).1.None? && ResolveOne(root, n, ls[|ls| - 1]).Ok?
    ensures ResolveLinks(root, n, ls).0 == ResolveLinks(root, n, ls[..|ls| - 1]).0 + [ResolveOne(root, n, ls[|ls| - 1]).value]
  {
  }

  /** A node's links that all resolve give one tuple each, in declaration order. */
  lemma {:induction false} ResolveLinksSpec(root: Tree, n: NodeRecord, ls: seq<Link>)
    requires ResolveLinks(root, n, ls).1.None?
    ensures |ResolveLinks(root, n, ls).0| == |ls|
    ensures forall i :: 0 <= i < |ls| ==> ResolveOne(root, n, ls[i]) == Ok(ResolveLinks(root, n, ls).0[i])
    decreases |ls|
  {
    if ls != [] {
      var front := ls[..|ls| - 1];
      var before := ResolveLinks(root, n, front);
      var r := ResolveOne(root, n, ls[|ls| - 1]);
      ResolveLinksLast(root, n, ls);
      ResolveLinksSpec(root, n, front);
      forall i | 0 <= i < |ls|
        ensures ResolveOne(root, n, ls[i]) == Ok(ResolveLinks(root, n, ls).0[i])
      {
        if i < |front| {
          assert ls[i] == front[i] && ResolveLinks(root, n, ls).0[i] == before.0[i];
        }
      }
    }
  }

  /**
   * A walk that completes appends exactly one tuple per declared link, in tree
   * pre-order and in declaration order within a node: the i-th tuple is the
   * resolution of the i-th declared link.
   */
  lemma {:induction false} WalkMatchesDeclared(root: Tree, ts: seq<Tree>)
    requires WalkAll(root, ts).1.None?
    ensures Matches(root, Declared(ts), WalkAll(root, ts).0)
    decreases ts, 0
  {
    if ts != [] {
      var front := ts[..|ts| - 1];
      var last := ts[|ts| - 1];
      WalkAllLast(root, ts);
      DeclaredLast(ts);
      WalkMatchesDeclared(root, front);
      ChildMatchesDeclared(root, last);
      MatchesConcat(root, Declared(front), WalkAll(root, front).0,
                    OwnLinks(last.node) + Declared(last.kids), ChildStep(root, last).0);
    }
  }

  /** A completed walk is the completed walk of all but the last child, then the last child's completed step. */
  lemma WalkAllLast(root: Tree, ts: seq<Tree>)
    requires ts != [] && WalkAll(root, ts).1.None?
    ensures WalkAll(root, ts[..|ts| - 1]).1.None? && ChildStep(root, ts[|ts| - 1]).1.None?
    ensures WalkAll(root, ts).0 == WalkAll(root, ts[..|ts| - 1]).0 + ChildStep(root, ts[|ts| - 1]).0
  {
  }

  /** The declared links of a forest: those of all but the last tree, then the last tree's own and its subtree's. */
  lemma DeclaredLast(ts: seq<Tree>)
    requires ts != []
    ensures Declared(ts) == Declared(ts[..|ts| - 1]) + (OwnLinks(ts[|ts| - 1].node) + Declared(ts[|ts| - 1].kids))
  {
    var d0, d1, d2 := Declared(ts[..|ts| - 1]), OwnLinks(ts[|ts| - 1].node), Declared(ts[|ts| - 1].kids);
    assert Declared(ts) == d0 + d1 + d2;
    assert d0 + d1 + d2 == d0 + (d1 + d2);
  }

  /** A child whose step completes contributes one tuple per link of its own and of its subtree, in order. */
  lemma {:induction false} ChildMatchesDeclared(root: Tree, t: Tree)
    requires ChildStep(root, t).1.None?
    ensures Matches(root, OwnLinks(t.node) + Declared(t.kids), ChildStep(root, t).0)
    decreases t, 1
  {
    ChildStepCases(root, t);
    var ls := t.node.links.value;
    ResolveLinksSpec(root, t.node, ls);
    assert Matches(root, OwnLinks(t.node), ResolveLinks(root, t.node, ls).0);
    WalkMatchesDeclared(root, t.kids);
    MatchesConcat(root, OwnLinks(t.node), ResolveLinks(root, t.node, ls).0, Declared(t.kids), WalkAll(root, t.kids).0);
  }

  lemma PreOrderAllFront(ts: seq<Tree>)
    requires ts != []
    ensures forall u :: u in PreOrderAll(ts[..|ts| - 1]) ==> u in PreOrderAll(ts)
    ensures forall u :: u in PreOrder(ts[|ts| - 1]) ==> u in PreOrderAll(ts)
  {
    var front := ts[..|ts| - 1];
    forall u | u in PreOrderAll(front)
      ensures u in PreOrderAll(ts)
    {
      PreOrderAllMember(front, u);
      PreOrderAllMember(ts, u);
      var i :| 0 <= i < |front| && u in PreOrder(front[i]);
      assert front[i] == ts[i];
    }
    forall u | u in PreOrder(ts[|ts| - 1])
      ensures u in PreOrderAll(ts)
    {
      PreOrderAllMember(ts, u);
    }
  }

  /** A tree whose nodes declare no links resolves to no tuples, without error. */
  lemma {:induction false} NoLinksNoTuples(root: Tree, ts: seq<Tree>)
    requires forall u :: u in PreOrderAll(ts) ==> u.node.links == Some([])
    ensures WalkAll(root, ts) == ([], None)
    decreases ts
  {
    if ts != [] {
      var last := ts[|ts| - 1];
      PreOrderAllFront(ts);
      NoLinksNoTuples(root, ts[..|ts| - 1]);
      assert last in PreOrder(last);
      forall u | u in PreOrderAll(last.kids)
        ensures u.node.links == Some([])
      {
        assert u in PreOrder(last);
      }
      NoLinksNoTuples(root, last.kids);
      assert last.node.links == Some([]);
      assert ResolveLinks(root, last.node, []) == ([], None);
      var none: seq<ResolvedLink> := [];
      assert ChildStep(root, last) == (none + none, None);
      assert none + (none + none) == none;
    }
  }

  /** One more child adds its step, unless an earlier child stopped the walk. */
  lemma WalkAllStep(root: Tree, ts: seq<Tree>, i: nat)
    requires i < |ts| && WalkAll(root, ts[..i]).1.None?
    ensures WalkAll(root, ts[..i + 1]) ==
              (WalkAll(root, ts[..i]).0 + ChildStep(root, ts[i]).0, ChildStep(root, ts[i]).1)
  {
    assert ts[..i + 1][..i] == ts[..i];
  }

  /** What one child adds, case by case: a missing link list, a failing link, or its links and then its subtree. */
  lemma ChildStepCases(root: Tree, t: Tree)
    ensures t.node.links.None? ==> ChildStep(root, t) == ([], Some(LinksMissing))
    ensures t.node.links.Some? && ResolveLinks(root, t.node, t.node.links.value).1.Some? ==>
              ChildStep(root, t) == ResolveLinks(root, t.node, t.node.links.value)
    ensures t.node.links.Some? && ResolveLinks(root, t.node, t.node.links.value).1.None? ==>
              ChildStep(root, t) == (ResolveLinks(root, t.node, t.node.links.value).0 + WalkAll(root, t.kids).0, WalkAll(root, t.kids).1)
  {
  }

  /** Once the walk has stopped on an error, the later children add nothing. */
  lemma {:induction false} WalkAllStopped(root: Tree, ts: seq<Tree>, m: nat)
    requires m <= |ts| && WalkAll(root, ts[..m]).1.Some?
    ensures WalkAll(root, ts) == WalkAll(root, ts[..m])
    decreases |ts| - m
  {
    if m < |ts| {
      assert ts[..m + 1][..m] == ts[..m];
      WalkAllStopped(root, ts, m + 1);
    } else {
      assert ts[..m] == ts;
    }
  }

  lemma {:induction false} ResolveLinksStopped(root: Tree, n: NodeRecord, ls: seq<Link>, m: nat)
    requires m <= |ls| && ResolveLinks(root, n, ls[..m]).1.Some?
    ensures ResolveLinks(root, n, ls) == ResolveLinks(root, n, ls[..m])
    decreases |ls| - m
  {
    if m < |ls| {
      assert ls[..m + 1][..m] == ls[..m];
      ResolveLinksStopped(root, n, ls, m + 1);
    } else {
      assert ls[..m] == ls;
    }
  }

  // ---------------------------------------------------------------------------
  // The resolver object

  class HierarchyResolver {
    const tree: Tree
    var hierarchyLinks: seq<ResolvedLink>

    /** The tree is kept; the list of tuples starts empty and is never reset afterwards. */
    constructor (componentTree: Tree)
      ensures tree == componentTree && hierarchyLinks == []
    {
      tree := componentTree;
      hierarchyLinks := [];
    }

    /** `get_parent`: the parent search over the whole tree; only a node below the root has one. */
    function GetParent(n: NodeRecord): (r: Option<NodeRecord>)
      ensures r.Some? ==> n.id in IdSetAll(tree.kids)
    {
      Parent(tree, n.id)
    }

    /** `get_links`: the accumulated tuples. */
    function GetLinks(): (r: seq<ResolvedLink>)
      reads this
      ensures r == hierarchyLinks
    {
      hierarchyLinks
    }

    /**
     * `get_path_to_root(n, prior)`: append `n`'s type, then the type of each
     * successive parent, stopping after the first parent of type 0.
     */
    method GetPathToRoot(n: NodeRecord, prior: seq<int>) returns (r: Result<seq<int>, Error>)
      requires UniqueIds(tree)
      ensures r == PathToRoot(tree, n, prior)
    {
      var types := prior + [n.nodeType];
      var parent := GetParent(n);
      match ChainTo(tree, n.id) {
        case None =>
          FindIdIsChainEnd(tree, n.id);
          ParentOfAbsent(tree, n.id);
        case Some(chain) =>
          ChainParent(tree, chain);
      }
      if parent.None? {
        return Err(LookupFailed);
      }
      ghost var c := ChainTo(tree, n.id).value;
      ghost var k := |c| - 2;
      assert c[..|c| - 1] == c[..k + 1];
      assert c[..k + 1][..k] == c[..k];
      PrependTwice(prior + [n.nodeType], c[k].node.nodeType, AscendTypes(c[..k]));
      types := types + [parent.value.nodeType];
      while parent.value.nodeType != 0
        invariant 0 <= k < |c| - 1 && parent == Some(c[k].node)
        invariant PathToRoot(tree, n, prior) ==
                    if c[k].node.nodeType == 0 then Ok(types) else Prepend(types, AscendTypes(c[..k]))
        decreases k
      {
        ChainPrefix(tree, c, k + 1);
        ChainParent(tree, c[..k + 1]);
        parent := GetParent(parent.value);
        if parent.None? {
          return Err(LookupFailed);
        }
        k := k - 1;
        assert c[..k + 1][..k] == c[..k];
        PrependTwice(types, c[k].node.nodeType, AscendTypes(c[..k]));
        types := types + [parent.value.nodeType];
      }
      return Ok(types);
    }

    /**
     * `get_sibling_subtree(n, t)`: search the parent's subtree, then each
     * further ancestor's subtree, for a node of type `t`, and return the
     * subtree rooted at the first one found.
     */
    method GetSiblingSubtree(n: NodeRecord, siblingType: int) returns (r: Result<Tree, Error>)
      requires UniqueIds(tree)
      ensures r == SiblingScope(tree, n, siblingType)
    {
      var current := Find(tree, Id, n.id);
      FindIdIsChainEnd(tree, n.id);
      if current.None? {
        return Err(LookupFailed);
      }
      ghost var c := ChainTo(tree, n.id).value;
      ChainParent(tree, c);
      var parent := GetParent(current.value.node);
      if parent.None? {
        return Err(LookupFailed);
      }
      ghost var k := |c| - 2;
      ChainPrefix(tree, c, k + 1);
      ChainParent(tree, c[..k + 1]);
      var scope := Find(tree, Id, parent.value.id).value;
      var sibling := Find(scope, Type, siblingType);
      while sibling.None?
        invariant 0 <= k < |c| - 1 && scope == c[k]
        invariant sibling == Find(scope, Type, siblingType)
        invariant SiblingScope(tree, n, siblingType) == WidenScope(c[..k + 1], siblingType)
        decreases k
      {
        assert c[..k + 1][..k] == c[..k];
        ChainPrefix(tree, c, k + 1);
        ChainParent(tree, c[..k + 1]);
        parent := GetParent(scope.node);
        if parent.None? {
          assert k == 0 && c[..k] == [];
          return Err(LookupFailed);
        }
        k := k - 1;
        ChainPrefix(tree, c, k + 1);
        ChainParent(tree, c[..k + 1]);
        scope := Find(tree, Id, parent.value.id).value;
        sibling := Find(scope, Type, siblingType);
      }
      return Ok(sibling.value);
    }

    /** `__resolve_port(types, s)`: pop types off the end and descend. */
    method ResolvePort(types: seq<int>, s: Tree) returns (r: Result<Option<NodeRecord>, Error>)
      ensures r == match Descend(types, s) case Ok(leaf) => Ok(NodeOf(leaf)) case Err(e) => Err(e)
    {
      var rest := types;
      var subtree := s;
      while rest != []
        invariant Descend(types, s) == Descend(rest, subtree)
        decreases |rest|
      {
        var t := rest[|rest| - 1];
        rest := rest[..|rest| - 1];
        var found := Find(subtree, Type, t);
        if found.None? {
          return Err(LookupFailed);
        }
        subtree := found.value;
        if subtree.kids == [] {
          return Ok(Some(subtree.node));
        }
      }
      return Ok(None);
    }

    /** `resolve_from_port`. */
    method ResolveFromPort(n: NodeRecord, connection: string) returns (r: Result<(Option<NodeRecord>, string), Error>)
      requires UniqueIds(tree)
      ensures r == ResolveFrom(tree, n, connection)
    {
      var parsed := ParseConnection(connection);
      if parsed.Err? {
        return Err(parsed.error);
      }
      var (name, path) := parsed.value;
      if path == [] {
        return Ok((Some(n), name));
      }
      var types := GetPathToRoot(n, path);
      if types.Err? {
        return Err(types.error);
      }
      var end := ResolvePort(types.value, tree);
      if end.Err? {
        return Err(end.error);
      }
      return Ok((end.value, name));
    }

    /** `resolve_to_port`. */
    method ResolveToPort(n: NodeRecord, toType: int, connection: string) returns (r: Result<(Option<NodeRecord>, string), Error>)
      requires UniqueIds(tree)
      ensures r == ResolveTo(tree, n, toType, connection)
    {
      var scope := GetSiblingSubtree(n, toType);
      if scope.Err? {
        return Err(scope.error);
      }
      var parsed := ParseConnection(connection);
      if parsed.Err? {
        return Err(parsed.error);
      }
      var (name, path) := parsed.value;
      if path == [] {
        var found := Find(scope.value, Type, toType);
        if found.None? {
          return Err(LookupFailed);
        }
        return Ok((Some(found.value.node), name));
      }
      var end := ResolvePort(path, scope.value);
      if end.Err? {
        return Err(end.error);
      }
      return Ok((end.value, name));
    }

    /**
     * `resolve_hierarchy`: walk the tree below the root and append one tuple
     * per declared link. The list is not reset, so a second call appends the
     * same tuples again.
     */
    method ResolveHierarchy() returns (err: Option<Error>)
      requires UniqueIds(tree)
      modifies this
      ensures hierarchyLinks == old(hierarchyLinks) + WalkAll(tree, tree.kids).0
      ensures err == WalkAll(tree, tree.kids).1
    {
      err := ResolveHierarchyAt(tree);
    }

    /** `__resolve_hierarchy(t)`: for each child, its own links, then its subtree. */
    method ResolveHierarchyAt(t: Tree) returns (err: Option<Error>)
      requires UniqueIds(tree)
      modifies this
      ensures hierarchyLinks == old(hierarchyLinks) + WalkAll(tree, t.kids).0
      ensures err == WalkAll(tree, t.kids).1
      decreases t, 0
    {
      var i := 0;
      while i < |t.kids|
        invariant 0 <= i <= |t.kids|
        invariant WalkAll(tree, t.kids[..i]).1 == None
        invariant hierarchyLinks == old(hierarchyLinks) + WalkAll(tree, t.kids[..i]).0
      {
        WalkAllStep(tree, t.kids, i);
        err := ResolveChild(t.kids[i]);
        assert hierarchyLinks == old(hierarchyLinks) + WalkAll(tree, t.kids[..i + 1]).0;
        assert err == WalkAll(tree, t.kids[..i + 1]).1;
        if err.Some? {
          WalkAllStopped(tree, t.kids, i + 1);
          return;
        }
        i := i + 1;
      }
      assert t.kids[..i] == t.kids;
      return None;
    }

    /** One pass of the loop in `__resolve_hierarchy`: the child's links, then the recursive call on it. */
    method ResolveChild(kid: Tree) returns (err: Option<Error>)
      requires UniqueIds(tree)
      modifies this
      ensures hierarchyLinks == old(hierarchyLinks) + ChildStep(tree, kid).0
      ensures err == ChildStep(tree, kid).1
      decreases kid, 1
    {
      ChildStepCases(tree, kid);
      if kid.node.links.None? {
        return Some(LinksMissing);
      }
      err := ResolveNodeLinks(kid.node, kid.node.links.value);
      if err.Some? {
        return;
      }
      ghost var mid := hierarchyLinks;
      err := ResolveHierarchyAt(kid);
      assert hierarchyLinks == mid + WalkAll(tree, kid.kids).0;
    }

    /** The inner loop of `__resolve_hierarchy`: one tuple per link of `n`, stopping at the first failure. */
    method ResolveNodeLinks(n: NodeRecord, ls: seq<Link>) returns (err: Option<Error>)
      requires UniqueIds(tree)
      modifies this
      ensures hierarchyLinks == old(hierarchyLinks) + ResolveLinks(tree, n, ls).0
      ensures err == ResolveLinks(tree, n, ls).1
    {
      var j := 0;
      while j < |ls|
        invariant 0 <= j <= |ls|
        invariant ResolveLinks(tree, n, ls[..j]).1 == None
        invariant hierarchyLinks == old(hierarchyLinks) + ResolveLinks(tree, n, ls[..j]).0
      {
        ResolveLinksStep(tree, n, ls, j);
        var from := ResolveFromPort(n, ls[j].fromPort);
        if from.Err? {
          assert ResolveOne(tree, n, ls[j]) == Err(from.error);
          ResolveLinksStopped(tree, n, ls, j + 1);
          return Some(from.error);
        }
        var to := ResolveToPort(n, ls[j].toNodeType, ls[j].toPort);
        if to.Err? {
          assert ResolveOne(tree, n, ls[j]) == Err(to.error);
          ResolveLinksStopped(tree, n, ls, j + 1);
          return Some(to.error);
        }
        var tuple := ResolvedLink(from.value.0, from.value.1, to.value.0, to.value.1);
        assert ResolveOne(tree, n, ls[j]) == Ok(tuple);
        hierarchyLinks := hierarchyLinks + [tuple];
        j := j + 1;
      }
      assert ls[..j] == ls;
      return None;
    }
  }

  /**
   * The list is reset only by the constructor: resolving twice holds every tuple
   * twice, and after a failing walk its partial tuples twice.
   */
  method ResolveTwice(componentTree: Tree) returns (links: seq<ResolvedLink>)
    requires UniqueIds(componentTree)
    ensures links == WalkAll(componentTree, componentTree.kids).0 + WalkAll(componentTree, componentTree.kids).0
  {
    var resolver := new HierarchyResolver(componentTree);
    var err := resolver.ResolveHierarchy();
    err := resolver.ResolveHierarchy();
    links := resolver.GetLinks();
  }
}
