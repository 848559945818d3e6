/**
 * The element-tree builder (app/elementtree.py): flattens the editor export
 * into one composition per module, names every element `class#k` from the
 * count of earlier elements of its class, and copies each element's outgoing
 * connections into a list of links.
 */
module Elements {
  import opened Wrappers
  import opened Decimal

  /** One connection of an editor output: the target node's id and the target input's name, as text. */
  datatype RawConnection = RawConnection(node: string, output: string)

  /**
   * One element of the editor export: its id, its class name, its declared
   * output and input port names, and the connection lists of its outputs in
   * their stored order.
   */
  datatype RawElement = RawElement(id: int, name: string, outputNames: seq<string>, inputNames: seq<string>,
                                   outputs: seq<seq<RawConnection>>)

  /** One module of the export and its element group. */
  datatype RawModule = RawModule(name: string, elements: seq<RawElement>)

  datatype ElemLink = ElemLink(fromPort: string, toId: int, toPort: string)

  datatype Element = Element(cls: string, moduleName: string, name: string, id: int, links: seq<ElemLink>)

  datatype Composition = Composition(moduleName: string, elements: seq<Element>)

  /** Why a connection could not be copied: `int()` or an index failed. */
  datatype FlattenError =
    | BadNodeId(node: string)
    | EmptyOutputName
    | BadInputSelector(selector: char)
    | InputOutOfRange(index: int)

  const NodeDelim: string := "#"

  // ---------------------------------------------------------------------------
  // __copy_connections

  /** Python's `s[i]`, where a negative `i` counts from the end. */
  function PyIndex<T>(s: seq<T>, i: int): Option<T> {
    if 0 <= i < |s| then Some(s[i])
    else if -|s| <= i < 0 then Some(s[|s| + i])
    else None
  }

  /**
   * The link written for connection `c` of output `outputName`: the target id
   * is `int(c.node)`, and only the last character of `c.output`, read as a
   * digit d, selects the input `inputs[d - 1]`.
   */
  function ConvertConnection(e: RawElement, outputName: string, c: RawConnection): (r: Result<ElemLink, FlattenError>)
    ensures r.Ok? ==> r.value.fromPort == outputName && ParseInt(c.node) == Some(r.value.toId) && r.value.toPort in e.inputNames
  {
    match ParseInt(c.node)
    case None => Err(BadNodeId(c.node))
    case Some(toId) =>
      if c.output == [] then Err(EmptyOutputName)
      else if !IsDigit(c.output[|c.output| - 1]) then Err(BadInputSelector(c.output[|c.output| - 1]))
      else
        var index := DigitValue(c.output[|c.output| - 1]) as int - 1;
        match PyIndex(e.inputNames, index)
        case None => Err(InputOutOfRange(index))
        case Some(port) => Ok(ElemLink(outputName, toId, port))
  }

  function Min(a: int, b: int): int {
    if a < b then a else b
  }

  /** Every connection of one output, paired with the output's name. */
  function Row(name: string, conns: seq<RawConnection>): seq<(string, RawConnection)> {
    seq(|conns|, j requires 0 <= j < |conns| => (name, conns[j]))
  }

  /** The connections of the first `n` outputs, in order, each with its output's name. */
  function PairsUpTo(names: seq<string>, outs: seq<seq<RawConnection>>, n: nat): seq<(string, RawConnection)>
    requires n <= |names| && n <= |outs|
  {
    if n == 0 then [] else PairsUpTo(names, outs, n - 1) + Row(names[n - 1], outs[n - 1])
  }

  /** `zip(output_names, output_conns)` flattened: it stops at the shorter of the two lists. */
  function Pairs(names: seq<string>, outs: seq<seq<RawConnection>>): seq<(string, RawConnection)> {
    PairsUpTo(names, outs, Min(|names|, |outs|))
  }

  /** The number of connections held by the first `n` outputs. */
  function Offset(outs: seq<seq<RawConnection>>, n: nat): nat
    requires n <= |outs|
  {
    if n == 0 then 0 else Offset(outs, n - 1) + |outs[n - 1]|
  }

  lemma {:induction false} PairsUpToLength(names: seq<string>, outs: seq<seq<RawConnection>>, n: nat)
    requires n <= |names| && n <= |outs|
    ensures |PairsUpTo(names, outs, n)| == Offset(outs, n)
    decreases n
  {
    if n > 0 {
      PairsUpToLength(names, outs, n - 1);
    }
  }

  lemma {:induction false} PairsUpToAt(names: seq<string>, outs: seq<seq<RawConnection>>, n: nat, a: nat, b: nat)
    requires n <= |names| && n <= |outs| && a < n && b < |outs[a]|
    ensures Offset(outs, a) + b < |PairsUpTo(names, outs, n)|
    ensures PairsUpTo(names, outs, n)[Offset(outs, a) + b] == (names[a], outs[a][b])
    decreases n
  {
    PairsUpToLength(names, outs, n - 1);
    if a < n - 1 {
      PairsUpToAt(names, outs, n - 1, a, b);
    }
  }

  /**
   * `zip` pairs the outputs positionally: the pairing holds one entry per
   * connection of the first min(#names, #outputs) outputs, and the b-th
   * connection of output a sits at position `Offset(a) + b`, named after output a.
   */
  lemma ZipPairsOutputs(names: seq<string>, outs: seq<seq<RawConnection>>, a: nat, b: nat)
    requires a < |names| && a < |outs| && b < |outs[a]|
    ensures |Pairs(names, outs)| == Offset(outs, Min(|names|, |outs|))
    ensures Offset(outs, a) + b < |Pairs(names, outs)|
    ensures Pairs(names, outs)[Offset(outs, a) + b] == (names[a], outs[a][b])
  {
    PairsUpToLength(names, outs, Min(|names|, |outs|));
    PairsUpToAt(names, outs, Min(|names|, |outs|), a, b);
  }

  /** Outputs beyond the shorter of the two lists add no connections. */
  lemma {:induction false} PairsIgnoreUnpaired(names: seq<string>, outs: seq<seq<RawConnection>>, names': seq<string>, outs': seq<seq<RawConnection>>, n: nat)
    requires n <= |names| && n <= |outs| && n <= |names'| && n <= |outs'|
    requires names[..n] == names'[..n] && outs[..n] == outs'[..n]
    ensures PairsUpTo(names, outs, n) == PairsUpTo(names', outs', n)
    decreases n
  {
    if n > 0 {
      assert names[..n - 1] == names'[..n - 1] && outs[..n - 1] == outs'[..n - 1];
      assert names[n - 1] == names[..n][n - 1] && outs[n - 1] == outs[..n][n - 1];
      PairsIgnoreUnpaired(names, outs, names', outs', n - 1);
    }
  }

  lemma {:induction false} PairsUpToPrefix(names: seq<string>, outs: seq<seq<RawConnection>>, i: nat, n: nat)
    requires i <= n <= |names| && n <= |outs|
    ensures |PairsUpTo(names, outs, i)| <= |PairsUpTo(names, outs, n)|
    ensures PairsUpTo(names, outs, i) == PairsUpTo(names, outs, n)[..|PairsUpTo(names, outs, i)|]
    decreases n
  {
    if i < n {
      PairsUpToPrefix(names, outs, i, n - 1);
      var k := |PairsUpTo(names, outs, i)|;
      assert PairsUpTo(names, outs, n)[..k] == PairsUpTo(names, outs, n - 1)[..k];
    }
  }

  /** The links copied for the pairs `ps`, and the error that stopped the copying, if any. */
  function CopyLinks(e: RawElement, ps: seq<(string, RawConnection)>): (seq<ElemLink>, Option<FlattenError>)
    decreases |ps|
  {
    if ps == [] then ([], None)
    else
      var before := CopyLinks(e, ps[..|ps| - 1]);
      if before.1.Some? then before
      else match ConvertConnection(e, ps[|ps| - 1].0, ps[|ps| - 1].1)
        case Err(err) => (before.0, Some(err))
        case Ok(l) => (before.0 + [l], None)
  }

  /** Copying that completes gives one link per pair, in order. */
  lemma {:induction false} CopyLinksSpec(e: RawElement, ps: seq<(string, RawConnection)>)
    requires CopyLinks(e, ps).1.None?
    ensures |CopyLinks(e, ps).0| == |ps|
    ensures forall k :: 0 <= k < |ps| ==> ConvertConnection(e, ps[k].0, ps[k].1) == Ok(CopyLinks(e, ps).0[k])
    decreases |ps|
  {
    if ps != [] {
      var front := ps[..|ps| - 1];
      CopyLinksSpec(e, front);
      assert forall k :: 0 <= k < |front| ==> front[k] == ps[k];
    }
  }

  /** Copying stops at the first connection that fails; the links before it stay. */
  lemma {:induction false} CopyLinksStopped(e: RawElement, ps: seq<(string, RawConnection)>, q: seq<(string, RawConnection)>)
    requires |q| <= |ps| && q == ps[..|q|] && CopyLinks(e, q).1.Some?
    ensures CopyLinks(e, ps) == CopyLinks(e, q)
    decreases |ps|
  {
    if |q| < |ps| {
      var front := ps[..|ps| - 1];
      assert q == front[..|q|];
      CopyLinksStopped(e, front, q);
    } else {
      assert q == ps;
    }
  }

  /** Copying a concatenation: the second part's links follow the first's, once the first completed. */
  lemma {:induction false} CopyLinksConcat(e: RawElement, a: seq<(string, RawConnection)>, b: seq<(string, RawConnection)>)
    requires CopyLinks(e, a).1.None?
    ensures CopyLinks(e, a + b) == (CopyLinks(e, a).0 + CopyLinks(e, b).0, CopyLinks(e, b).1)
    decreases |b|
  {
    if b == [] {
      assert a + b == a;
      assert CopyLinks(e, a).0 + [] == CopyLinks(e, a).0;
    } else {
      var front := b[..|b| - 1];
      assert (a + b)[..|a + b| - 1] == a + front;
      assert (a + b)[|a + b| - 1] == b[|b| - 1];
      CopyLinksConcat(e, a, front);
      if CopyLinks(e, front).1.None? {
        var l := ConvertConnection(e, b[|b| - 1].0, b[|b| - 1].1);
        if l.Ok? {
          assert CopyLinks(e, a).0 + CopyLinks(e, front).0 + [l.value] == CopyLinks(e, a).0 + (CopyLinks(e, front).0 + [l.value]);
        }
      }
    }
  }

  /**
   * Only the last character of the output name selects the input: "input_1"
   * and "input_11" select the same input, and a final '0' selects the last one.
   */
  lemma OnlyLastCharacterSelects(e: RawElement, outputName: string, c: RawConnection, c': RawConnection)
    requires c.node == c'.node && c.output != [] && c'.output != []
    requires c.output[|c.output| - 1] == c'.output[|c'.output| - 1]
    ensures ConvertConnection(e, outputName, c) == ConvertConnection(e, outputName, c')
  {
  }

  lemma DigitZeroSelectsLastInput(e: RawElement, outputName: string, c: RawConnection)
    requires ParseInt(c.node).Some? && c.output != [] && c.output[|c.output| - 1] == '0' && e.inputNames != []
    ensures ConvertConnection(e, outputName, c) ==
              Ok(ElemLink(outputName, ParseInt(c.node).value, e.inputNames[|e.inputNames| - 1]))
  {
  }

  /** A digit d from 1 up to the number of inputs selects the d-th input, counting from 1. */
  lemma DigitSelectsInput(e: RawElement, outputName: string, c: RawConnection)
    requires ParseInt(c.node).Some? && c.output != [] && IsDigit(c.output[|c.output| - 1])
    requires 1 <= DigitValue(c.output[|c.output| - 1]) <= |e.inputNames|
    ensures ConvertConnection(e, outputName, c) ==
              Ok(ElemLink(outputName, ParseInt(c.node).value, e.inputNames[DigitValue(c.output[|c.output| - 1]) - 1]))
  {
  }

  // ---------------------------------------------------------------------------
  // __get_element_count and naming

  /** Every element of every composition, in order. */
  function AllElements(comps: seq<Composition>): seq<Element>
    decreases |comps|
  {
    if comps == [] then [] else AllElements(comps[..|comps| - 1]) + comps[|comps| - 1].elements
  }

  /** How many of `s` have class `cls`. */
  function CountClass(s: seq<Element>, cls: string): nat
    decreases |s|
  {
    if s == [] then 0
    else CountClass(s[..|s| - 1], cls) + (if s[|s| - 1].cls == cls then 1 else 0)
  }

  function ClassCount(comps: seq<Composition>, cls: string): nat {
    CountClass(AllElements(comps), cls)
  }

  function Classes(s: seq<Element>): seq<string> {
    seq(|s|, i requires 0 <= i < |s| => s[i].cls)
  }

  /** The count is the multiplicity of the class among the elements' classes. */
  lemma {:induction false} CountClassIsMultiplicity(s: seq<Element>, cls: string)
    ensures CountClass(s, cls) == multiset(Classes(s))[cls]
    decreases |s|
  {
    if s != [] {
      var front := s[..|s| - 1];
      CountClassIsMultiplicity(front, cls);
      assert Classes(s) == Classes(front) + [s[|s| - 1].cls];
    }
  }

  lemma {:induction false} CountClassAppend(a: seq<Element>, b: seq<Element>, cls: string)
    ensures CountClass(a + b, cls) == CountClass(a, cls) + CountClass(b, cls)
    decreases |b|
  {
    if b != [] {
      var front := b[..|b| - 1];
      assert (a + b)[..|a + b| - 1] == a + front;
      CountClassAppend(a, front, cls);
    } else {
      assert a + b == a;
    }
  }

  /** Counting one more element of `es` after `base`. */
  lemma CountClassSnoc(base: seq<Element>, es: seq<Element>, j: nat, cls: string)
    requires j < |es|
    ensures CountClass(base + es[..j + 1], cls) == CountClass(base + es[..j], cls) + (if es[j].cls == cls then 1 else 0)
  {
    assert (base + es[..j + 1])[..|base + es[..j + 1]| - 1] == base + es[..j];
  }

  lemma AllElementsPrefixStep(comps: seq<Composition>, i: nat)
    requires i < |comps|
    ensures AllElements(comps[..i + 1]) == AllElements(comps[..i]) + comps[i].elements
  {
    assert comps[..i + 1][..i] == comps[..i];
  }

  /** Overwriting the entry just appended to the last composition. */
  lemma ReplaceLastEntry(comps: seq<Composition>, el: Element, el2: Element)
    requires comps != []
    ensures var c := AppendToLast(comps, el);
            var mi := |comps| - 1;
            c[mi := c[mi].(elements := c[mi].elements[|comps[mi].elements| := el2])] == AppendToLast(comps, el2)
  {
    var mi := |comps| - 1;
    assert (comps[mi].elements + [el])[|comps[mi].elements| := el2] == comps[mi].elements + [el2];
  }

  /** Links added to the entry just appended to the last composition. */
  lemma LinksOfLastEntry(comps: seq<Composition>, el: Element, extra: seq<ElemLink>)
    requires comps != []
    ensures WithMoreLinks(AppendToLast(comps, el), |comps| - 1, |comps[|comps| - 1].elements|, extra) ==
              AppendToLast(comps, el.(links := el.links + extra))
  {
    var mi := |comps| - 1;
    assert (comps[mi].elements + [el])[|comps[mi].elements| := el.(links := el.links + extra)] ==
           comps[mi].elements + [el.(links := el.links + extra)];
  }

  /** The entry just appended counts once more for its class. */
  lemma CountWithEntry(comps: seq<Composition>, el: Element)
    requires comps != []
    ensures ClassCount(AppendToLast(comps, el), el.cls) == ClassCount(comps, el.cls) + 1
  {
    AllElementsAppendToLast(comps, el);
    assert (AllElements(comps) + [el])[..|AllElements(comps)|] == AllElements(comps);
  }

  /** The last composition with one more element. */
  function AppendToLast(comps: seq<Composition>, el: Element): seq<Composition>
    requires comps != []
  {
    comps[|comps| - 1 := comps[|comps| - 1].(elements := comps[|comps| - 1].elements + [el])]
  }

  lemma AllElementsAppendToLast(comps: seq<Composition>, el: Element)
    requires comps != []
    ensures AllElements(AppendToLast(comps, el)) == AllElements(comps) + [el]
  {
    var n := |comps| - 1;
    assert AppendToLast(comps, el)[..n] == comps[..n];
  }

  lemma AllElementsAppend(comps: seq<Composition>, c: Composition)
    ensures AllElements(comps + [c]) == AllElements(comps) + c.elements
  {
    assert (comps + [c])[..|comps|] == comps;
  }

  /**
   * Every element is named after its class and the number of elements of
   * that class before it: the first of a class gets "0", the next "1", and so on.
   */
  predicate WellNamed(s: seq<Element>) {
    forall p :: 0 <= p < |s| ==> s[p].name == s[p].cls + NodeDelim + IntToString(CountClass(s[..p], s[p].cls))
  }

  lemma WellNamedSnoc(s: seq<Element>, el: Element)
    requires WellNamed(s)
    requires el.name == el.cls + NodeDelim + IntToString(CountClass(s, el.cls))
    ensures WellNamed(s + [el])
  {
    forall p | 0 <= p < |s + [el]|
      ensures (s + [el])[p].name == (s + [el])[p].cls + NodeDelim + IntToString(CountClass((s + [el])[..p], (s + [el])[p].cls))
    {
      if p < |s| {
        assert (s + [el])[..p] == s[..p];
      } else {
        assert (s + [el])[..p] == s;
      }
    }
  }

  lemma DelimiterInSuffix(a: string, u: string, b: string, v: string)
    requires |a| < |b| && a + NodeDelim + u == b + NodeDelim + v
    ensures '#' in u
  {
    var x := a + NodeDelim + u;
    assert x[|b|] == (b + NodeDelim + v)[|b|] == '#';
    assert x[|b|] == u[|b| - |a| - 1];
  }

  /** A name `a#u` with no '#' in `u` determines both `a` and `u`. */
  lemma SplitAtLastDelimiter(a: string, u: string, b: string, v: string)
    requires '#' !in u && '#' !in v
    requires a + NodeDelim + u == b + NodeDelim + v
    ensures a == b && u == v
  {
    var x := a + NodeDelim + u;
    var y := b + NodeDelim + v;
    assert x[..|a|] == a && y[..|b|] == b;
    assert x[|a| + 1..] == u && y[|b| + 1..] == v;
    if |a| < |b| {
      DelimiterInSuffix(a, u, b, v);
      assert false;
    }
    if |b| < |a| {
      DelimiterInSuffix(b, v, a, u);
      assert false;
    }
    assert a == x[..|a|] == b;
    assert u == x[|a| + 1..] == v;
  }

  lemma {:induction false} CountClassGrows(s: seq<Element>, p: nat, q: nat)
    requires p < q <= |s|
    ensures CountClass(s[..q], s[p].cls) >= CountClass(s[..p], s[p].cls) + 1
  {
    assert s[..p + 1][..p] == s[..p];
    assert CountClass(s[..p + 1], s[p].cls) == CountClass(s[..p], s[p].cls) + 1;
    assert s[..q] == s[..p + 1] + s[p + 1..q];
    CountClassAppend(s[..p + 1], s[p + 1..q], s[p].cls);
  }

  /** Well-named elements have pairwise distinct names. */
  lemma WellNamedUnique(s: seq<Element>, p: nat, q: nat)
    requires WellNamed(s) && p < q < |s|
    ensures s[p].name != s[q].name
  {
    if s[p].name == s[q].name {
      var u := IntToString(CountClass(s[..p], s[p].cls));
      var v := IntToString(CountClass(s[..q], s[q].cls));
      IntToStringAvoids(CountClass(s[..p], s[p].cls), '#');
      IntToStringAvoids(CountClass(s[..q], s[q].cls), '#');
      SplitAtLastDelimiter(s[p].cls, u, s[q].cls, v);
      IntToStringInjective(CountClass(s[..p], s[p].cls), CountClass(s[..q], s[q].cls));
      CountClassGrows(s, p, q);
    }
  }

  // ---------------------------------------------------------------------------
  // flatten

  /**
   * The element `flatten` appends for `e` in module `m` after the compositions
   * `comps`: class, module and id from the export, the name `class#k` with k the
   * number of elements of that class already placed, and the copied links.
   */
  function PlaceSpec(comps: seq<Composition>, m: string, e: RawElement): (seq<Composition>, Option<FlattenError>)
    requires comps != []
  {
    var copied := CopyLinks(e, Pairs(e.outputNames, e.outputs));
    (AppendToLast(comps, Element(e.name, m, e.name + NodeDelim + IntToString(ClassCount(comps, e.name)), e.id, copied.0)),
     copied.1)
  }

  /** The elements of one module placed in order; the first failure stops the loop. */
  function FlattenElements(comps: seq<Composition>, m: string, es: seq<RawElement>): (r: (seq<Composition>, Option<FlattenError>))
    requires comps != []
    ensures |r.0| == |comps|
    decreases |es|
  {
    if es == [] then (comps, None)
    else
      var before := FlattenElements(comps, m, es[..|es| - 1]);
      if before.1.Some? then before
      else PlaceSpec(before.0, m, es[|es| - 1])
  }

  /** The state after `flatten`: the compositions, how many modules completed, and the error, if any. */
  datatype Outcome = Outcome(comps: seq<Composition>, done: nat, err: Option<FlattenError>)

  /** One composition per module, in input order; a failure stops the walk before the module is counted. */
  function FlattenModules(comps: seq<Composition>, ms: seq<RawModule>): Outcome
    decreases |ms|
  {
    if ms == [] then Outcome(comps, 0, None)
    else
      var before := FlattenModules(comps, ms[..|ms| - 1]);
      if before.err.Some? then before
      else
        var m := ms[|ms| - 1];
        var placed := FlattenElements(before.comps + [Composition(m.name, [])], m.name, m.elements);
        if placed.1.Some? then Outcome(placed.0, before.done, placed.1)
        else Outcome(placed.0, before.done + 1, None)
  }

  lemma {:induction false} FlattenElementsNames(comps: seq<Composition>, m: string, es: seq<RawElement>)
    requires comps != [] && WellNamed(AllElements(comps))
    ensures WellNamed(AllElements(FlattenElements(comps, m, es).0))
    decreases |es|
  {
    if es != [] {
      var before := FlattenElements(comps, m, es[..|es| - 1]);
      FlattenElementsNames(comps, m, es[..|es| - 1]);
      if before.1.None? {
        var e := es[|es| - 1];
        var el := Element(e.name, m, e.name + NodeDelim + IntToString(ClassCount(before.0, e.name)), e.id,
                          CopyLinks(e, Pairs(e.outputNames, e.outputs)).0);
        AllElementsAppendToLast(before.0, el);
        WellNamedSnoc(AllElements(before.0), el);
      }
    }
  }

  /**
   * Flattening keeps every element named `class#k`, k counting the earlier
   * elements of its class across all modules, even when it fails part way.
   */
  lemma {:induction false} FlattenKeepsNames(comps: seq<Composition>, ms: seq<RawModule>)
    requires WellNamed(AllElements(comps))
    ensures WellNamed(AllElements(FlattenModules(comps, ms).comps))
    decreases |ms|
  {
    if ms != [] {
      var before := FlattenModules(comps, ms[..|ms| - 1]);
      FlattenKeepsNames(comps, ms[..|ms| - 1]);
      if before.err.None? {
        var m := ms[|ms| - 1];
        AllElementsAppend(before.comps, Composition(m.name, []));
        assert AllElements(before.comps) + [] == AllElements(before.comps);
        FlattenElementsNames(before.comps + [Composition(m.name, [])], m.name, m.elements);
      }
    }
  }

  /** Starting from no compositions, every flattened element has a distinct name. */
  lemma FlattenNamesUnique(ms: seq<RawModule>, p: nat, q: nat)
    requires p < q < |AllElements(FlattenModules([], ms).comps)|
    ensures AllElements(FlattenModules([], ms).comps)[p].name != AllElements(FlattenModules([], ms).comps)[q].name
  {
    FlattenKeepsNames([], ms);
    WellNamedUnique(AllElements(FlattenModules([], ms).comps), p, q);
  }

  /** `xs` are the elements placed for `es` in module `m`: in order, with module, class, id and copied links. */
  predicate ElementsFrom(xs: seq<Element>, m: string, es: seq<RawElement>) {
    |xs| == |es| &&
    forall j :: 0 <= j < |es| ==>
      xs[j].cls == es[j].name && xs[j].moduleName == m && xs[j].id == es[j].id &&
      xs[j].links == CopyLinks(es[j], Pairs(es[j].outputNames, es[j].outputs)).0
  }

  lemma ElementsFromSnoc(xs: seq<Element>, m: string, es: seq<RawElement>, el: Element)
    requires es != [] && ElementsFrom(xs, m, es[..|es| - 1])
    requires var e := es[|es| - 1];
             el.cls == e.name && el.moduleName == m && el.id == e.id &&
             el.links == CopyLinks(e, Pairs(e.outputNames, e.outputs)).0
    ensures ElementsFrom(xs + [el], m, es)
  {
    assert forall j :: 0 <= j < |es| - 1 ==> es[..|es| - 1][j] == es[j];
  }

  /** `out` extends the last of `comps` with elements placed for `es` in module `m`, and leaves the rest alone. */
  predicate ExtendsLast(comps: seq<Composition>, out: seq<Composition>, m: string, es: seq<RawElement>)
    requires comps != []
  {
    var last := |comps| - 1;
    var old_ := comps[last].elements;
    |out| == |comps| &&
    out[..last] == comps[..last] && out[last].moduleName == comps[last].moduleName &&
    |out[last].elements| >= |old_| && out[last].elements[..|old_|] == old_ &&
    ElementsFrom(out[last].elements[|old_|..], m, es)
  }

  lemma ExtendsLastStep(comps: seq<Composition>, mid: seq<Composition>, m: string, es: seq<RawElement>, el: Element)
    requires comps != [] && es != [] && ExtendsLast(comps, mid, m, es[..|es| - 1])
    requires var e := es[|es| - 1];
             el.cls == e.name && el.moduleName == m && el.id == e.id &&
             el.links == CopyLinks(e, Pairs(e.outputNames, e.outputs)).0
    ensures ExtendsLast(comps, AppendToLast(mid, el), m, es)
  {
    var last := |comps| - 1;
    var old_ := comps[last].elements;
    var out := AppendToLast(mid, el);
    assert out[last].elements == mid[last].elements + [el];
    assert out[last].elements[|old_|..] == mid[last].elements[|old_|..] + [el];
    assert out[last].elements[..|old_|] == mid[last].elements[..|old_|];
    assert out[..last] == mid[..last];
    ElementsFromSnoc(mid[last].elements[|old_|..], m, es, el);
  }

  lemma {:induction false} FlattenElementsShape(comps: seq<Composition>, m: string, es: seq<RawElement>)
    requires comps != [] && FlattenElements(comps, m, es).1.None?
    ensures ExtendsLast(comps, FlattenElements(comps, m, es).0, m, es)
    decreases |es|
  {
    if es == [] {
      var last := |comps| - 1;
      assert comps[last].elements[|comps[last].elements|..] == [];
      assert comps[..last] == comps[..last];
    } else {
      var front := es[..|es| - 1];
      FlattenElementsShape(comps, m, front);
      var mid := FlattenElements(comps, m, front).0;
      var e := es[|es| - 1];
      var el := Element(e.name, m, e.name + NodeDelim + IntToString(ClassCount(mid, e.name)), e.id,
                        CopyLinks(e, Pairs(e.outputNames, e.outputs)).0);
      ExtendsLastStep(comps, mid, m, es, el);
    }
  }

  /** `c` is the composition of module `m`: its name, and its elements in order. */
  predicate FlattenedFrom(c: Composition, m: RawModule) {
    c.moduleName == m.name && ElementsFrom(c.elements, m.name, m.elements)
  }

  lemma ModuleFlattened(comps: seq<Composition>, m: RawModule, out: seq<Composition>)
    requires ExtendsLast(comps + [Composition(m.name, [])], out, m.name, m.elements)
    ensures out[..|comps|] == comps && FlattenedFrom(out[|comps|], m)
  {
    var start := comps + [Composition(m.name, [])];
    assert start[|comps|] == Composition(m.name, []);
    assert out[..|comps|] == start[..|comps|] == comps;
    var xs := out[|comps|].elements;
    assert xs[0..] == xs;
  }

  /**
   * A walk that completes appends one composition per module, in input order,
   * whose elements are the module's elements in order, each with its module,
   * class and id; the earlier compositions are untouched.
   */
  lemma {:induction false} FlattenModulesShape(comps: seq<Composition>, ms: seq<RawModule>)
    requires FlattenModules(comps, ms).err.None?
    ensures var out := FlattenModules(comps, ms);
            out.done == |ms| && |out.comps| == |comps| + |ms| && out.comps[..|comps|] == comps &&
            forall i :: 0 <= i < |ms| ==> FlattenedFrom(out.comps[|comps| + i], ms[i])
    decreases |ms|
  {
    if ms != [] {
      var front := ms[..|ms| - 1];
      var before := FlattenModules(comps, front);
      FlattenModulesShape(comps, front);
      var m := ms[|ms| - 1];
      FlattenElementsShape(before.comps + [Composition(m.name, [])], m.name, m.elements);
      ModuleFlattened(before.comps, m, FlattenElements(before.comps + [Composition(m.name, [])], m.name, m.elements).0);
      var out := FlattenModules(comps, ms).comps;
      assert out[..|comps|] == before.comps[..|comps|];
      forall i | 0 <= i < |ms|
        ensures FlattenedFrom(out[|comps| + i], ms[i])
      {
        if i < |front| {
          assert out[|comps| + i] == out[..|before.comps|][|comps| + i] == before.comps[|comps| + i];
          assert front[i] == ms[i];
        }
      }
    }
  }

  /** The compositions with `extra` appended to the links of element `ei` of composition `mi`. */
  function WithMoreLinks(comps: seq<Composition>, mi: nat, ei: nat, extra: seq<ElemLink>): (r: seq<Composition>)
    requires mi < |comps| && ei < |comps[mi].elements|
    ensures |r| == |comps| && |r[mi].elements| == |comps[mi].elements|
  {
    var el := comps[mi].elements[ei];
    comps[mi := comps[mi].(elements := comps[mi].elements[ei := el.(links := el.links + extra)])]
  }

  lemma WithMoreLinksTwice(comps: seq<Composition>, mi: nat, ei: nat, xs: seq<ElemLink>, ys: seq<ElemLink>)
    requires mi < |comps| && ei < |comps[mi].elements|
    ensures WithMoreLinks(WithMoreLinks(comps, mi, ei, xs), mi, ei, ys) == WithMoreLinks(comps, mi, ei, xs + ys)
  {
    var el := comps[mi].elements[ei];
    var c1 := WithMoreLinks(comps, mi, ei, xs);
    assert c1[mi].elements[ei] == el.(links := el.links + xs);
    assert el.links + xs + ys == el.links + (xs + ys);
    assert c1[mi].elements[ei := el.(links := el.links + (xs + ys))] == comps[mi].elements[ei := el.(links := el.links + (xs + ys))];
  }

  lemma WithNoLinks(comps: seq<Composition>, mi: nat, ei: nat)
    requires mi < |comps| && ei < |comps[mi].elements|
    ensures WithMoreLinks(comps, mi, ei, []) == comps
  {
    var el := comps[mi].elements[ei];
    assert el.links + [] == el.links;
    assert comps[mi].elements[ei := el] == comps[mi].elements;
  }

  lemma {:induction false} FlattenElementsStopped(comps: seq<Composition>, m: string, es: seq<RawElement>, k: nat)
    requires comps != [] && k <= |es| && FlattenElements(comps, m, es[..k]).1.Some?
    ensures FlattenElements(comps, m, es) == FlattenElements(comps, m, es[..k])
    decreases |es| - k
  {
    if k < |es| {
      assert es[..k + 1][..k] == es[..k];
      FlattenElementsStopped(comps, m, es, k + 1);
    } else {
      assert es[..k] == es;
    }
  }

  /** One more element is placed after the earlier ones, unless one of them failed. */
  lemma FlattenElementsStep(comps: seq<Composition>, m: string, es: seq<RawElement>, k: nat)
    requires comps != [] && k < |es| && FlattenElements(comps, m, es[..k]).1.None?
    ensures FlattenElements(comps, m, es[..k + 1]) == PlaceSpec(FlattenElements(comps, m, es[..k]).0, m, es[k])
  {
    assert es[..k + 1][..k] == es[..k];
  }

  /** One more module is flattened after the earlier ones, unless one of them failed. */
  lemma FlattenModulesStep(comps: seq<Composition>, ms: seq<RawModule>, i: nat)
    requires i < |ms| && FlattenModules(comps, ms[..i]).err.None?
    ensures var before := FlattenModules(comps, ms[..i]);
            var placed := FlattenElements(before.comps + [Composition(ms[i].name, [])], ms[i].name, ms[i].elements);
            FlattenModules(comps, ms[..i + 1]) ==
              if placed.1.Some? then Outcome(placed.0, before.done, placed.1) else Outcome(placed.0, before.done + 1, None)
  {
    assert ms[..i + 1][..i] == ms[..i];
  }

  lemma {:induction false} FlattenModulesStopped(comps: seq<Composition>, ms: seq<RawModule>, k: nat)
    requires k <= |ms| && FlattenModules(comps, ms[..k]).err.Some?
    ensures FlattenModules(comps, ms) == FlattenModules(comps, ms[..k])
    decreases |ms| - k
  {
    if k < |ms| {
      assert ms[..k + 1][..k] == ms[..k];
      FlattenModulesStopped(comps, ms, k + 1);
    } else {
      assert ms[..k] == ms;
    }
  }

  // ---------------------------------------------------------------------------
  // The builder object

  class ElementTree {
    const rawData: seq<RawModule>
    var processedData: seq<Element>
    var compositions: seq<Composition>
    var numElements: int
    var numModules: nat
    const nodeDelim: string := "#"
    const moduleDelim: string := "%"

    /** The counter of completed modules matches the compositions, as before any failure. */
    predicate Valid()
      reads this
    {
      numModules == |compositions|
    }

    /** A new builder: no output yet, zero counters, delimiters `#` and `%`. */
    constructor (data: seq<RawModule>)
      ensures rawData == data && processedData == [] && compositions == []
      ensures numElements == 0 && numModules == 0
      ensures nodeDelim == "#" && moduleDelim == "%"
      ensures Valid()
    {
      rawData := data;
      processedData := [];
      compositions := [];
      numElements := 0;
      numModules := 0;
    }

    /** `__get_element_count(name)`: the number of elements of class `name`, minus one, as decimal text. */
    method ElementCount(cls: string) returns (r: string)
      ensures r == IntToString(ClassCount(compositions, cls) - 1)
    {
      var count := -1;
      var i := 0;
      while i < |compositions|
        invariant 0 <= i <= |compositions|
        invariant count == CountClass(AllElements(compositions[..i]), cls) - 1
      {
        var es := compositions[i].elements;
        ghost var base := AllElements(compositions[..i]);
        var j := 0;
        assert base + es[..0] == base;
        while j < |es|
          invariant 0 <= j <= |es|
          invariant count == CountClass(base + es[..j], cls) - 1
        {
          CountClassSnoc(base, es, j, cls);
          if es[j].cls == cls {
            count := count + 1;
          }
          j := j + 1;
        }
        assert es[..j] == es;
        AllElementsPrefixStep(compositions, i);
        i := i + 1;
      }
      assert compositions[..i] == compositions;
      r := IntToString(count);
    }

    /**
     * `__copy_connections(e, mi, ei)`: for each output paired with its name,
     * append one link per connection to the links of element `ei` of
     * composition `mi`, stopping at the first connection that cannot be read.
     */
    method CopyConnections(e: RawElement, mi: nat, ei: nat) returns (err: Option<FlattenError>)
      requires mi < |compositions| && ei < |compositions[mi].elements|
      modifies this
      ensures compositions == WithMoreLinks(old(compositions), mi, ei, CopyLinks(e, Pairs(e.outputNames, e.outputs)).0)
      ensures err == CopyLinks(e, Pairs(e.outputNames, e.outputs)).1
      ensures numModules == old(numModules) && processedData == old(processedData) && numElements == old(numElements)
    {
      var names := e.outputNames;
      var outs := e.outputs;
      var n := Min(|names|, |outs|);
      var i := 0;
      WithNoLinks(compositions, mi, ei);
      while i < n
        invariant 0 <= i <= n
        invariant CopyLinks(e, PairsUpTo(names, outs, i)).1 == None
        invariant compositions == WithMoreLinks(old(compositions), mi, ei, CopyLinks(e, PairsUpTo(names, outs, i)).0)
        invariant numModules == old(numModules) && processedData == old(processedData) && numElements == old(numElements)
      {
        ghost var before := compositions;
        err := CopyOutput(e, mi, ei, names[i], outs[i]);
        CopyLinksConcat(e, PairsUpTo(names, outs, i), Row(names[i], outs[i]));
        WithMoreLinksTwice(old(compositions), mi, ei, CopyLinks(e, PairsUpTo(names, outs, i)).0, CopyLinks(e, Row(names[i], outs[i])).0);
        if err.Some? {
          PairsUpToPrefix(names, outs, i + 1, n);
          CopyLinksStopped(e, PairsUpTo(names, outs, n), PairsUpTo(names, outs, i + 1));
          return;
        }
        i := i + 1;
      }
      return None;
    }

    /** The inner loop of `__copy_connections`: one link per connection of one output, in order. */
    method CopyOutput(e: RawElement, mi: nat, ei: nat, name: string, conns: seq<RawConnection>) returns (err: Option<FlattenError>)
      requires mi < |compositions| && ei < |compositions[mi].elements|
      modifies this
      ensures compositions == WithMoreLinks(old(compositions), mi, ei, CopyLinks(e, Row(name, conns)).0)
      ensures err == CopyLinks(e, Row(name, conns)).1
      ensures numModules == old(numModules) && processedData == old(processedData) && numElements == old(numElements)
    {
      var j := 0;
      WithNoLinks(compositions, mi, ei);
      while j < |conns|
        invariant 0 <= j <= |conns|
        invariant CopyLinks(e, Row(name, conns)[..j]).1 == None
        invariant compositions == WithMoreLinks(old(compositions), mi, ei, CopyLinks(e, Row(name, conns)[..j]).0)
        invariant numModules == old(numModules) && processedData == old(processedData) && numElements == old(numElements)
      {
        ghost var q := Row(name, conns)[..j + 1];
        assert q[..j] == Row(name, conns)[..j];
        var link := ConvertConnection(e, name, conns[j]);
        if link.Err? {
          CopyLinksStopped(e, Row(name, conns), q);
          return Some(link.error);
        }
        WithMoreLinksTwice(old(compositions), mi, ei, CopyLinks(e, Row(name, conns)[..j]).0, [link.value]);
        compositions := WithMoreLinks(compositions, mi, ei, [link.value]);
        j := j + 1;
      }
      assert Row(name, conns)[..j] == Row(name, conns);
      return None;
    }

    /**
     * One pass of the element loop of `flatten`: append an entry holding only
     * the class, fill in module and class, count the class (the new entry
     * included) to name it, set id and an empty link list, then copy the links.
     */
    method PlaceElement(m: string, k: nat, e: RawElement) returns (err: Option<FlattenError>)
      requires compositions != [] && numModules == |compositions| - 1 && k == |compositions[numModules].elements|
      modifies this
      ensures (compositions, err) == PlaceSpec(old(compositions), m, e)
      ensures numModules == old(numModules) && processedData == old(processedData) && numElements == old(numElements)
    {
      var mi := numModules;
      ghost var before := compositions;
      var entry := Element(e.name, "", "", 0, []);
      compositions := compositions[mi := compositions[mi].(elements := compositions[mi].elements + [entry])];
      assert compositions == AppendToLast(before, entry);
      var placed := compositions[mi].elements[k].(moduleName := m, cls := e.name);
      ReplaceLastEntry(before, entry, placed);
      compositions := compositions[mi := compositions[mi].(elements := compositions[mi].elements[k := placed])];
      CountWithEntry(before, placed);
      var count := ElementCount(e.name);
      assert count == IntToString(ClassCount(before, e.name));
      var named := compositions[mi].elements[k].(name := e.name + nodeDelim + count, id := e.id, links := []);
      ReplaceLastEntry(before, placed, named);
      compositions := compositions[mi := compositions[mi].(elements := compositions[mi].elements[k := named])];
      ghost var links := CopyLinks(e, Pairs(e.outputNames, e.outputs)).0;
      LinksOfLastEntry(before, named, links);
      err := CopyConnections(e, mi, k);
      assert named.links + links == links;
    }

    /** One pass of the module loop of `flatten`: a new composition, its elements, then the module counter. */
    method FlattenModule(m: RawModule) returns (err: Option<FlattenError>)
      requires Valid()
      modifies this
      ensures var r := FlattenElements(old(compositions) + [Composition(m.name, [])], m.name, m.elements);
              compositions == r.0 && err == r.1
      ensures numModules == old(numModules) + (if err.None? then 1 else 0)
      ensures processedData == old(processedData) && numElements == old(numElements)
    {
      compositions := compositions + [Composition(m.name, [])];
      ghost var start := compositions;
      var k := 0;
      while k < |m.elements|
        invariant 0 <= k <= |m.elements|
        invariant numModules == old(numModules) == |compositions| - 1
        invariant FlattenElements(start, m.name, m.elements[..k]) == (compositions, None)
        invariant k == |compositions[numModules].elements|
        invariant processedData == old(processedData) && numElements == old(numElements)
      {
        FlattenElementsStep(start, m.name, m.elements, k);
        err := PlaceElement(m.name, k, m.elements[k]);
        if err.Some? {
          FlattenElementsStopped(start, m.name, m.elements, k + 1);
          return;
        }
        k := k + 1;
      }
      assert m.elements[..k] == m.elements;
      numModules := numModules + 1;
      err := None;
    }

    /**
     * `flatten`: one composition per module of the export, in order. The
     * counter of modules only advances past a module whose elements all
     * flattened.
     */
    method Flatten() returns (err: Option<FlattenError>)
      requires Valid()
      modifies this
      ensures var out := FlattenModules(old(compositions), rawData);
              compositions == out.comps && numModules == old(numModules) + out.done && err == out.err
      ensures err.None? ==> Valid()
      ensures processedData == old(processedData) && numElements == old(numElements)
    {
      var i := 0;
      while i < |rawData|
        invariant 0 <= i <= |rawData|
        invariant FlattenModules(old(compositions), rawData[..i]).err.None?
        invariant compositions == FlattenModules(old(compositions), rawData[..i]).comps
        invariant numModules == old(numModules) + FlattenModules(old(compositions), rawData[..i]).done
        invariant Valid()
        invariant processedData == old(processedData) && numElements == old(numElements)
      {
        FlattenModulesStep(old(compositions), rawData, i);
        err := FlattenModule(rawData[i]);
        if err.Some? {
          FlattenModulesStopped(old(compositions), rawData, i + 1);
          return;
        }
        i := i + 1;
      }
      assert rawData[..i] == rawData;
      return None;
    }

    /** `__get_name_by_id`: the name of the first entry with id `id`, or nothing. */
    static method NameById(entries: seq<Element>, id: int) returns (r: Option<string>)
      ensures r.None? <==> forall i :: 0 <= i < |entries| ==> entries[i].id != id
      ensures r.Some? ==> exists i :: 0 <= i < |entries| && entries[i].id == id && entries[i].name == r.value &&
                                      forall j :: 0 <= j < i ==> entries[j].id != id
    {
      var i := 0;
      while i < |entries|
        invariant 0 <= i <= |entries|
        invariant forall j :: 0 <= j < i ==> entries[j].id != id
      {
        if entries[i].id == id {
          return Some(entries[i].name);
        }
        i := i + 1;
      }
      return None;
    }
  }
}
