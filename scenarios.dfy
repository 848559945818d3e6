/**
 * Small concrete hierarchies on which the resolver's behaviour is worked out
 * exactly: the two-level adder, a link that crosses a module boundary, and the
 * first-match tie-break when types collide.
 */
module Scenarios {
  import opened Wrappers
  import opened Nodes
  import opened Hierarchy
  import opened Endpoints
  import opened Resolver

  function Rec(id: nat, nodeType: int, links: seq<Link>): NodeRecord {
    NodeRecord(id, Some("Adder"), nodeType, None, None, Some(links), None)
  }

  // Home(type 0) -> X(type 1) -> Y(type 2); X declares out#2 -> type 2, in.
  const AdderY: Tree := Tree(Rec(2, 2, []), [])
  const AdderX: Tree := Tree(Rec(1, 1, [Link("out#2", 2, "in")]), [AdderY])
  const AdderHome: Tree := Tree(Rec(0, 0, []), [AdderX])

  lemma AdderUniqueIds()
    ensures UniqueIds(AdderHome)
  {
    assert IdSetAll(AdderY.kids) == {};
    assert UniqueIds(AdderY);
    assert IdSet(AdderY) == {2};
    assert IdSetAll(AdderX.kids) == {2};
    assert UniqueIds(AdderX);
    assert IdSet(AdderX) == {1, 2};
    assert IdSetAll(AdderHome.kids) == {1, 2};
  }

  lemma AdderPaths()
    ensures PathToRoot(AdderHome, AdderX.node, [2]) == Ok([2, 1, 0])
    ensures SiblingScope(AdderHome, AdderX.node, 2) == Ok(AdderY)
  {
    assert ChainTo(AdderX, 1) == Some([AdderX]);
    assert ChainAmong(AdderHome.kids, 1) == Some([AdderX]);
    var c := [AdderHome, AdderX];
    assert [AdderHome] + [AdderX] == c;
    assert ChainTo(AdderHome, 1) == Some(c);
    assert c[..|c| - 1] == [AdderHome];
    assert AscendTypes([AdderHome]) == Ok([0]);
    assert [2] + [AdderX.node.nodeType] + [0] == [2, 1, 0];
    assert Find(AdderY, Type, 2) == Some(AdderY);
    assert FindIn(AdderX.kids, Type, 2) == Some(AdderY);
    assert Find(AdderX, Type, 2) == Some(AdderY);
    assert FindIn(AdderHome.kids, Type, 2) == Some(AdderY);
    assert Find(AdderHome, Type, 2) == Some(AdderY);
    assert WidenScope([AdderHome], 2) == Ok(AdderY);
  }

  lemma AdderDescent()
    ensures Descend([2, 1, 0], AdderHome) == Ok(Some(AdderY))
  {
    assert Find(AdderHome, Type, 0) == Some(AdderHome);
    assert Find(AdderX, Type, 1) == Some(AdderX);
    assert FindIn(AdderHome.kids, Type, 1) == Some(AdderX);
    assert Find(AdderHome, Type, 1) == Some(AdderX);
    assert Find(AdderY, Type, 2) == Some(AdderY);
    assert FindIn(AdderX.kids, Type, 2) == Some(AdderY);
    assert Find(AdderX, Type, 2) == Some(AdderY);
    assert Descend([2], AdderX) == Ok(Some(AdderY));
    assert [2, 1][..1] == [2];
    assert Descend([2, 1], AdderHome) == Ok(Some(AdderY));
    assert [2, 1, 0][..2] == [2, 1];
  }

  /** The one declared link resolves to Y at both ends. */
  lemma AdderLink()
    ensures ResolveOne(AdderHome, AdderX.node, Link("out#2", 2, "in")) ==
              Ok(ResolvedLink(Some(AdderY.node), "out", Some(AdderY.node), "in"))
  {
    assert ["out"] + seq(1, i requires 0 <= i < 1 => Decimal.IntToString([2][i])) == ["out", "2"];
    assert Join(["out", "2"], Delimiter) == "out#2";
    ParseEncode("out", [2]);
    NoDelimiterEmptyPath("in");
    AdderPaths();
    AdderDescent();
    assert Find(AdderY, Type, 2) == Some(AdderY);
  }

  /**
   * The outgoing end climbs to the root and descends along [2, 1, 0] popped
   * from the end; the first node without children on the way is Y, not X.
   * The incoming end is the first node of type 2 below X's parent: Y.
   */
  lemma AdderResolvesToInnerNode()
    ensures UniqueIds(AdderHome)
    ensures WalkAll(AdderHome, AdderHome.kids) ==
              ([ResolvedLink(Some(AdderY.node), "out", Some(AdderY.node), "in")], None)
  {
    AdderUniqueIds();
    AdderLink();
    var l := ResolvedLink(Some(AdderY.node), "out", Some(AdderY.node), "in");
    var ls := [Link("out#2", 2, "in")];
    var none: seq<ResolvedLink> := [];
    assert ls[..0] == [] && none + [l] == [l] && none + none == none;
    assert ResolveLinks(AdderHome, AdderX.node, ls[..0]) == (none, None);
    assert ResolveLinks(AdderHome, AdderX.node, ls) == ([l], None);
    assert ResolveLinks(AdderHome, AdderY.node, []) == ([], None);
    assert WalkAll(AdderHome, AdderY.kids) == ([], None);
    assert AdderY.node.links == Some([]);
    assert ChildStep(AdderHome, AdderY) == (none + none, None);
    assert [AdderY][..0] == [];
    assert WalkAll(AdderHome, AdderX.kids) == ([], None);
    assert ChildStep(AdderHome, AdderX) == ([l] + none, None);
    assert [l] + none == [l];
    assert [AdderX][..0] == [];
  }

  // Home(0) -> M1(1){A(1), B(2)} and Home -> M2(2){C(cType)}; A links to type cType.
  const NodeA: Tree := Tree(Rec(2, 1, []), [])
  const NodeB: Tree := Tree(Rec(3, 2, []), [])
  const ModuleM1: Tree := Tree(Rec(1, 1, []), [NodeA, NodeB])

  function NodeC(cType: int): Tree {
    Tree(Rec(5, cType, []), [])
  }

  function ModuleM2(cType: int): Tree {
    Tree(Rec(4, 2, []), [NodeC(cType)])
  }

  function BoundaryHome(cType: int): Tree {
    Tree(Rec(0, 0, []), [ModuleM1, ModuleM2(cType)])
  }

  lemma BoundaryChain(cType: int)
    ensures ChainTo(BoundaryHome(cType), 2) == Some([BoundaryHome(cType), ModuleM1, NodeA])
  {
    assert ChainTo(NodeA, 2) == Some([NodeA]);
    assert ChainAmong(ModuleM1.kids, 2) == Some([NodeA]);
    assert [ModuleM1] + [NodeA] == [ModuleM1, NodeA];
    assert ChainTo(ModuleM1, 2) == Some([ModuleM1, NodeA]);
    assert ChainAmong(BoundaryHome(cType).kids, 2) == Some([ModuleM1, NodeA]);
    assert [BoundaryHome(cType)] + [ModuleM1, NodeA] == [BoundaryHome(cType), ModuleM1, NodeA];
  }

  /**
   * A type found nowhere in A's module: the scope widens from M1's subtree to
   * the whole tree, and the link reaches C in the other module.
   */
  lemma CrossBoundaryFindsC()
    ensures ResolveTo(BoundaryHome(3), NodeA.node, 3, "in") == Ok((Some(NodeC(3).node), "in"))
  {
    var home := BoundaryHome(3);
    BoundaryChain(3);
    var c := [home, ModuleM1, NodeA];
    assert c[..|c| - 1] == [home, ModuleM1];
    assert Find(NodeA, Type, 3) == None;
    assert Find(NodeB, Type, 3) == None;
    assert FindIn(ModuleM1.kids[1..], Type, 3) == None;
    assert FindIn(ModuleM1.kids, Type, 3) == None;
    assert Find(ModuleM1, Type, 3) == None;
    assert Find(NodeC(3), Type, 3) == Some(NodeC(3));
    assert FindIn(ModuleM2(3).kids, Type, 3) == Some(NodeC(3));
    assert Find(ModuleM2(3), Type, 3) == Some(NodeC(3));
    assert FindIn(home.kids[1..], Type, 3) == Some(NodeC(3));
    assert FindIn(home.kids, Type, 3) == Some(NodeC(3));
    assert Find(home, Type, 3) == Some(NodeC(3));
    assert [home, ModuleM1][..1] == [home];
    assert WidenScope([home], 3) == Ok(NodeC(3));
    assert WidenScope([home, ModuleM1], 3) == Ok(NodeC(3));
    NoDelimiterEmptyPath("in");
  }

  /**
   * When C's type equals that of B, which sits in A's own module, the search
   * stops in M1 and returns B: the first match wins at the nearest level.
   */
  lemma CollidingTypeMatchesInsideM1()
    ensures ResolveTo(BoundaryHome(2), NodeA.node, 2, "in") == Ok((Some(NodeB.node), "in"))
  {
    var home := BoundaryHome(2);
    BoundaryChain(2);
    var c := [home, ModuleM1, NodeA];
    assert c[..|c| - 1] == [home, ModuleM1];
    assert Find(NodeA, Type, 2) == None;
    assert Find(NodeB, Type, 2) == Some(NodeB);
    assert FindIn(ModuleM1.kids[1..], Type, 2) == Some(NodeB);
    assert FindIn(ModuleM1.kids, Type, 2) == Some(NodeB);
    assert Find(ModuleM1, Type, 2) == Some(NodeB);
    assert WidenScope([home, ModuleM1], 2) == Ok(NodeB);
    NoDelimiterEmptyPath("in");
  }
}
