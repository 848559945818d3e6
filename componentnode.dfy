/**
 * The component node record (app/componentnode.py): one instantiated component,
 * with an identity fixed at construction, mutable attributes with plain setters,
 * an equality overloaded by the kind of the other operand and a hash of the identity.
 */
module Nodes {
  import opened Wrappers
  import Decimal

  /** A declared, still symbolic connection `{from_port, to_node_type, to_port}`. */
  datatype Link = Link(fromPort: string, toNodeType: int, toPort: string)

  /**
   * The attributes of a node at one moment. Python's `None` is `Option.None`;
   * `id` is what Python's `id(self)` gave the object when it was built.
   */
  datatype NodeRecord = NodeRecord(
    id: nat,
    className: Option<string>,
    nodeType: int,
    name: Option<string>,
    parent: Option<string>,
    links: Option<seq<Link>>,
    params: Option<string>)

  /** The kinds of right-hand operand that `__eq__` tells apart. */
  datatype Operand =
    | NodeOperand(node: NodeRecord)
    | StrOperand(text: string)
    | IntOperand(number: int)
    | OtherOperand

  /** `__eq__` raises TypeError for an operand of any other kind. */
  datatype EqualityError = TypeError

  /** `self == other`, overloaded by the kind of `other`. */
  function Equals(self: NodeRecord, other: Operand): (r: Result<bool, EqualityError>)
    ensures r.Err? <==> other.OtherOperand?
  {
    match other
    case NodeOperand(n) => Ok(self.className == n.className)
    case StrOperand(s) => Ok(self.className == Some(s))
    case IntOperand(i) => Ok(self.id == i)
    case OtherOperand => Err(TypeError)
  }

  /** Python's hash of a non-negative int is the int reduced modulo the prime 2^61 - 1. */
  const HashModulus: nat := 0x1FFF_FFFF_FFFF_FFFF

  /** `__hash__`: the hash of the identity alone. */
  function Hash(n: NodeRecord): (h: int)
    ensures 0 <= h < HashModulus
  {
    n.id % HashModulus
  }

  /** How an f-string prints the class name (`None` prints as "None"). */
  function ClassText(n: NodeRecord): string {
    match n.className
    case Some(c) => c
    case None => "None"
  }

  /** `__repr__`: the class name followed by the last (at most) five digits of the identity. */
  function Repr(n: NodeRecord): (r: string)
    ensures |ClassText(n)| < |r| <= |ClassText(n)| + 5 && r[..|ClassText(n)|] == ClassText(n)
    ensures var d := Decimal.IntToString(n.id);
              |r| - |ClassText(n)| <= |d| && r[|ClassText(n)|..] == d[|d| - (|r| - |ClassText(n)|)..]
  {
    var digits := Decimal.IntToString(n.id);
    ClassText(n) + (if |digits| <= 5 then digits else digits[|digits| - 5..])
  }

  /** Node-to-node equality compares class names only: two distinct instances of one class are equal. */
  lemma EqualsNodeIffSameClass(a: NodeRecord, b: NodeRecord)
    ensures Equals(a, NodeOperand(b)) == Ok(true) <==> a.className == b.className
    ensures Equals(a, NodeOperand(b)) == Equals(b, NodeOperand(a))
  {
  }

  /** Equality with a string compares it with the class name; with an int, with the identity. */
  lemma EqualsStrAndInt(a: NodeRecord, s: string, i: int)
    ensures Equals(a, StrOperand(s)) == Ok(true) <==> a.className == Some(s)
    ensures Equals(a, IntOperand(i)) == Ok(true) <==> a.id == i
  {
  }

  /** Equality never raises for nodes, strings and ints, and always raises for anything else. */
  lemma EqualsRaisesOnlyForOtherKinds(a: NodeRecord, other: Operand)
    ensures Equals(a, other).Err? <==> other.OtherOperand?
  {
  }

  /**
   * Equality and hashing disagree: two nodes of the same class are equal as nodes
   * while their hashes, taken from distinct identities, differ.
   */
  lemma EqualButDifferentHash(a: NodeRecord, b: NodeRecord)
    requires a.className == b.className
    requires a.id != b.id && a.id < HashModulus && b.id < HashModulus
    ensures Equals(a, NodeOperand(b)) == Ok(true) && Hash(a) != Hash(b)
  {
  }

  /** The hash reads nothing but the identity. */
  lemma HashOnlyReadsId(a: NodeRecord, b: NodeRecord)
    requires a.id == b.id
    ensures Hash(a) == Hash(b)
  {
  }

  /** For an identity below 100000 the repr prints it whole, so the repr tells such nodes of one class apart. */
  lemma ReprShowsShortId(a: NodeRecord, b: NodeRecord)
    requires a.className == b.className && a.id < 100000 && b.id < 100000
    requires Repr(a) == Repr(b)
    ensures a.id == b.id
  {
    ReprOfShortId(a);
    ReprOfShortId(b);
    var p := ClassText(a);
    assert Decimal.IntToString(a.id) == Repr(a)[|p|..];
    Decimal.IntToStringInjective(a.id, b.id);
  }

  lemma ReprOfShortId(n: NodeRecord)
    requires n.id < 100000
    ensures Repr(n) == ClassText(n) + Decimal.IntToString(n.id)
  {
    ShortIdPrintedWhole(n.id);
  }

  /** The repr of a node whose identity has five or more digits is exactly five characters longer than its class text. */
  lemma ReprLength(n: NodeRecord)
    requires n.id >= 10000
    ensures |Repr(n)| == |ClassText(n)| + 5
  {
    LongIdHasFiveDigits(n.id);
  }

  lemma ShortIdPrintedWhole(i: nat)
    requires i < 100000
    ensures |Decimal.NatToString(i)| <= 5
  {
    assert Pow10(5) == 100000;
    CountDigitsBelow(i, 5);
  }

  /** A number below 10^k prints in at most k digits. */
  lemma {:induction false} CountDigitsBelow(i: nat, k: nat)
    requires k >= 1 && i < Pow10(k)
    ensures |Decimal.NatToString(i)| <= k
  {
    if i >= 10 {
      CountDigitsBelow(i / 10, k - 1);
    }
  }

  /** A number at least 10^(k-1) prints in at least k digits. */
  lemma {:induction false} CountDigitsAbove(i: nat, k: nat)
    requires k >= 1 && i >= Pow10(k - 1)
    ensures |Decimal.NatToString(i)| >= k
  {
    if k > 1 {
      CountDigitsAbove(i / 10, k - 1);
    }
  }

  lemma LongIdHasFiveDigits(i: nat)
    requires i >= 10000
    ensures |Decimal.NatToString(i)| >= 5
  {
    assert Pow10(4) == 10000;
    CountDigitsAbove(i, 5);
  }

  function Pow10(k: nat): nat {
    if k == 0 then 1 else 10 * Pow10(k - 1)
  }

  /**
   * A ComponentNode object: six attributes that setters overwrite one at a
   * time, and an identity assigned once by the constructor.
   */
  class ComponentNode {
    var className: Option<string>
    var nodeType: int
    var name: Option<string>
    var parent: Option<string>
    var links: Option<seq<Link>>
    var params: Option<string>
    const id: nat

    /** The attributes as a value. */
    function Record(): NodeRecord
      reads this
    {
      NodeRecord(id, className, nodeType, name, parent, links, params)
    }

    /** `type` defaults to 0 and every other attribute to `None`; `id` is the object's identity. */
    constructor (id: nat, className: Option<string> := None, nodeType: int := 0,
                 name: Option<string> := None, parent: Option<string> := None,
                 links: Option<seq<Link>> := None, params: Option<string> := None)
      ensures Record() == NodeRecord(id, className, nodeType, name, parent, links, params)
    {
      this.className := className;
      this.nodeType := nodeType;
      this.name := name;
      this.parent := parent;
      this.links := links;
      this.params := params;
      this.id := id;
    }

    method SetClassName(className: Option<string>)
      modifies this
      ensures Record() == old(Record()).(className := className)
      ensures Hash(Record()) == old(Hash(Record()))
    {
      this.className := className;
    }

    method SetType(nodeType: int)
      modifies this
      ensures Record() == old(Record()).(nodeType := nodeType)
      ensures Hash(Record()) == old(Hash(Record()))
    {
      this.nodeType := nodeType;
    }

    method SetName(name: Option<string>)
      modifies this
      ensures Record() == old(Record()).(name := name)
      ensures Hash(Record()) == old(Hash(Record()))
    {
      this.name := name;
    }

    method SetParent(parent: Option<string>)
      modifies this
      ensures Record() == old(Record()).(parent := parent)
      ensures Hash(Record()) == old(Hash(Record()))
    {
      this.parent := parent;
    }

    method SetLinks(links: Option<seq<Link>>)
      modifies this
      ensures Record() == old(Record()).(links := links)
      ensures Hash(Record()) == old(Hash(Record()))
    {
      this.links := links;
    }

    method SetParams(params: Option<string>)
      modifies this
      ensures Record() == old(Record()).(params := params)
      ensures Hash(Record()) == old(Hash(Record()))
    {
      this.params := params;
    }
  }

  /** A node built with only an identity has type 0 and no other attribute, and compares equal to its identity. */
  method DefaultsDemo(id: nat) returns (n: ComponentNode)
    ensures n.Record() == NodeRecord(id, None, 0, None, None, None, None)
    ensures Equals(n.Record(), IntOperand(id)) == Ok(true)
  {
    n := new ComponentNode(id);
  }
}
