# Hierarchy resolution and element flattening, modelled in Dafny

This project models the core of a tool that turns a node editor's drawing of
nested SST components into the links of an SST configuration. It models
three parts.

- **The component node** (`app/componentnode.py`). A node record has an
  identity fixed at construction, six attributes that setters overwrite one
  at a time, an equality overloaded by the kind of the other operand, and a
  hash of the identity alone. Module `Nodes` holds it. The class
  `ComponentNode` is the mutable object. The datatype `NodeRecord` is a
  snapshot of its attributes, which the resolver reads.
- **The hierarchy resolver** (`app/hierarchyresolver.py`). The component
  tree is `Hierarchy.Tree`: a node with an ordered list of child subtrees.
  Module `Hierarchy` gives the pre-order first-match search and the parent
  search. Module `Endpoints` gives the `#`-delimited connection string.
  Module `Resolver` does the rest:
  - the leaf-to-root type path;
  - the widening sibling-scope search;
  - the descent that pops types from the end of a list;
  - the two endpoint resolutions;
  - the pre-order walk that appends one `(from_node, from_port, to_node,
    to_port)` tuple per declared link.

  Each step is a specification function over the tree. The class
  `Resolver.HierarchyResolver` performs the steps with the source's loops
  and its growing list field, and each method is proved equal to its
  specification function.
- **The element-tree builder** (`app/elementtree.py`). The class
  `Elements.ElementTree` flattens the editor export into one composition
  per module. It names each element `class#k`, where k counts the earlier
  elements of the same class. It copies each element's output connections
  into links. Module `Elements` also holds the specification functions of
  these loops and the lemmas about them.

Module `Decimal` models Python's `str(int)` and `int(str)` on ASCII digits.
Module `Wrappers` holds `Option` and `Result`. Module `Scenarios` works
three small hierarchies through the resolver exactly.

### Where the code does something other than one might expect (the model follows the code)

- **The adder example.** Take `Home(type 0) → X(type 1) → Y(type 2)`, where X
  declares `out#2 → type 2, in`. One might expect the link
  `(X, "out") → (Y, "in")`.
  - The code gives `(Y, "out") → (Y, "in")`.
  - `resolve_from_port` appends X's path to the root to the parsed path,
    giving `[2, 1, 0]`. It then descends from the whole tree, popping types
    from the end, and stops at the first node without children, which is Y.
  - `Scenarios.AdderResolvesToInnerNode` proves this.
- **The sibling search.** One might expect the first level searched to be
  the node's own sibling level. The code searches the whole subtree of the
  parent, parent and descendants at any depth included. A node of the wanted
  type inside the node's own module therefore wins over one in a
  neighbouring module. `Scenarios.CollidingTypeMatchesInsideM1` proves this.
- **Failures.** One might expect failures to be reported with the
  offending node and string. The code raises whatever Python raises:
  - a `TypeError` when a search result `None` is indexed or unpacked;
  - an `AttributeError` when `get_parent` gives `None` and its `.type` or
    `.id` is read (app/hierarchyresolver.py:98, 102, 127, 133);
  - a `ValueError` from `int()`;
  - an `IndexError`;
  - a `KeyError` when a composition has no `"elements"` entry (see the line
    on element groups under "Left out").

  The model returns an error value naming the kind of failure.
- **The input selector.** Only the last character of a connection's `output`
  text selects the input, as a 1-based index. The model follows this:
  - `"input_12"` selects input 2, not input 12;
  - a final `0` selects the last input, through Python's negative indexing.

## Model

| member | source | states |
|---|---|---|
| Nodes.ComponentNode.constructor | app/componentnode.py:77-108 | type defaults to 0, every other attribute to None, and the identity is the one given at construction |
| Nodes.ComponentNode.SetClassName | app/componentnode.py:110-122 | only class_name changes; the identity and the hash stay |
| Nodes.ComponentNode.SetType | app/componentnode.py:124-136 | only type changes; the identity and the hash stay |
| Nodes.ComponentNode.SetName | app/componentnode.py:138-150 | only name changes; the identity and the hash stay |
| Nodes.ComponentNode.SetParent | app/componentnode.py:152-164 | only parent changes; the identity and the hash stay |
| Nodes.ComponentNode.SetLinks | app/componentnode.py:166-178 | only links changes; the identity and the hash stay |
| Nodes.ComponentNode.SetParams | app/componentnode.py:180-192 | only params changes; the identity and the hash stay |
| Nodes.DefaultsDemo | app/componentnode.py:77-108 | a node built from an identity alone has type 0, no other attribute, and compares equal to that identity as an int |
| Nodes.EqualsNodeIffSameClass | app/componentnode.py:201-204 | node-to-node equality holds exactly when the class names are equal, and it is symmetric |
| Nodes.EqualsStrAndInt | app/componentnode.py:206-214 | a string compares with class_name; an int compares with the identity (both directions) |
| Nodes.EqualsRaisesOnlyForOtherKinds | app/componentnode.py:198-219 | equality raises TypeError exactly for operands that are not a node, a string or an int |
| Nodes.Hash | app/componentnode.py:221-223 | the hash is Python's hash of the identity, a value in [0, 2^61-1) |
| Nodes.HashOnlyReadsId | app/componentnode.py:221-223 | records with the same identity hash the same, whatever their other attributes |
| Nodes.EqualButDifferentHash | app/componentnode.py:202-223 | two nodes of one class are equal while their hashes differ, so equality and hash disagree |
| Nodes.Equals | app/componentnode.py:198-219 | the comparison raises exactly when the other operand is neither a node, a string nor an integer |
| Nodes.Repr | app/componentnode.py:194-196 | the repr is the class text followed by a suffix, one to five characters long, of the identity's decimal text |
| Nodes.ReprShowsShortId | app/componentnode.py:194-196 | for identities below 100000 the repr prints the whole identity, so equal reprs of one class mean equal identities |
| Nodes.ReprOfShortId | app/componentnode.py:194-196 | for an identity below 100000 the repr is the class text followed by the whole decimal identity |
| Nodes.ReprLength | app/componentnode.py:194-196 | an identity of five or more digits contributes exactly five characters to the repr |
| Decimal.ParseIntToString | app/hierarchyresolver.py:183 | int(str(i)) == i for every integer |
| Decimal.IntToStringInjective | app/elementtree.py:84 | distinct counts print as distinct decimal strings |
| Endpoints.Split | app/hierarchyresolver.py:182 | str.split gives at least one piece, and no piece contains the delimiter |
| Endpoints.JoinSplit | app/hierarchyresolver.py:182 | joining the pieces of a split with the delimiter gives back the string |
| Endpoints.SplitJoin | app/hierarchyresolver.py:182 | splitting a join of delimiter-free pieces gives back the pieces |
| Endpoints.SplitTrailingDelimiter | app/hierarchyresolver.py:182 | a trailing delimiter adds one empty last piece |
| Endpoints.ParseSegmentsSpec | app/hierarchyresolver.py:183 | the segments parse exactly when each is an integer, giving the integers in order; otherwise the first bad segment is reported |
| Endpoints.ParseConnection | app/hierarchyresolver.py:182-183 | a connection that parses yields a port name containing no delimiter |
| Endpoints.PortNameBeforeFirstDelimiter | app/hierarchyresolver.py:182-183 | the port name contains no delimiter and is a prefix of the connection string that is the whole string or followed by the delimiter |
| Endpoints.NoDelimiterEmptyPath | app/hierarchyresolver.py:182-183 | a string without the delimiter parses to itself with an empty path |
| Endpoints.TrailingDelimiterFails | app/hierarchyresolver.py:182-183 | a trailing delimiter makes parsing fail |
| Endpoints.ParseEncode | app/hierarchyresolver.py:182-183 | parsing name#i1#i2… gives back (name, [i1, i2, …]) when the name has no delimiter |
| Hierarchy.Find | app/hierarchyresolver.py:84-91 | a subtree that is found has the searched attribute value at its node |
| Hierarchy.FindIsFirstInPreOrder | app/hierarchyresolver.py:84-91 | the search returns the first subtree, in pre-order, whose node has the attribute value |
| Hierarchy.FindInIsFirstInPreOrder | app/hierarchyresolver.py:88-91 | the search over a child list is the first match in the pre-order of those children |
| Hierarchy.FindFirstMatch | app/hierarchyresolver.py:84-91 | the search fails exactly when no node in pre-order matches; on success it gives a match that no earlier node precedes |
| Hierarchy.FindInPreOrder | app/hierarchyresolver.py:84-86 | a match is a subtree of the searched tree whose node has the wanted attribute value |
| Hierarchy.AbsentIdNotFound | app/hierarchyresolver.py:84-91 | an identity absent from the tree is not found |
| Hierarchy.FindIdIsChainEnd | app/hierarchyresolver.py:84-91 | the search by identity finds the bottom of the chain of subtrees leading to that identity, and fails exactly when no node has it |
| Hierarchy.Parent | app/hierarchyresolver.py:110-120 | a parent is found only for an identity that occurs strictly below the root of the tree searched |
| Hierarchy.ParentIsFirstOwner | app/hierarchyresolver.py:110-120 | the parent search returns the owner of the first owner-to-child link, in visiting order, into a node with that identity |
| Hierarchy.ParentOfAbsent | app/hierarchyresolver.py:110-120 | with no node of that identity below the root, the parent search gives None (the root and absent nodes) |
| Hierarchy.ChainParent | app/hierarchyresolver.py:106-120 | with distinct identities, a node is found by identity and its parent is the node above it on its chain, None for the root |
| Resolver.AscendTypesShape | app/hierarchyresolver.py:97-104 | the climb lists ancestors' types nearest first and stops after the first 0; it fails exactly when no ancestor has type 0 |
| Resolver.PathToRootShape | app/hierarchyresolver.py:93-104 | the path keeps the prior list as a prefix, then the node's type and the climbed types ending in 0; it fails for the root, an absent node, or no ancestor of type 0 |
| Resolver.WidenScopeSpec | app/hierarchyresolver.py:129-137 | the widening search returns the first node of the type in the nearest ancestor subtree holding one, with none in nearer ones; it fails exactly when none holds one |
| Resolver.SiblingScopeInTree | app/hierarchyresolver.py:122-139 | the returned subtree is rooted at a node of the wanted type and lies in the tree |
| Resolver.Descend | app/hierarchyresolver.py:141-148 | a node the descent returns has no children and lies in the searched subtree |
| Resolver.DescendStopsAtLeaf | app/hierarchyresolver.py:143-148 | once the popped type reaches a childless node, the remaining types are ignored |
| Resolver.DescendMissingType | app/hierarchyresolver.py:143-146 | a popped type that no node of the subtree has makes the descent fail |
| Resolver.ResolveFromEmptyPath | app/hierarchyresolver.py:150-155 | a bare port name resolves the outgoing end to the node itself, with the port name unchanged |
| Resolver.ResolveFromWithPath | app/hierarchyresolver.py:157-160 | with a type path, the outgoing end is the descent from the whole tree along the parsed path followed by the path to the root, and is a childless node or None |
| Resolver.ResolveToEmptyPath | app/hierarchyresolver.py:166-172 | a bare port name resolves the incoming end to the first node of the wanted type in the sibling scope |
| Resolver.ResolvedPortsAreParsedNames | app/hierarchyresolver.py:150-174 | both ends report the parsed port name unchanged |
| Resolver.ResolveLinksSpec | app/hierarchyresolver.py:196-207 | a node's links that all resolve give one tuple each, in declaration order, each the resolution of its link |
| Resolver.ResolveLinksStopped | app/hierarchyresolver.py:196-207 | after a link fails, the node's later links add nothing |
| Resolver.WalkMatchesDeclared | app/hierarchyresolver.py:189-208 | a completed walk yields exactly one tuple per declared link of every non-root node, in pre-order and declaration order |
| Resolver.NoLinksNoTuples | app/hierarchyresolver.py:189-208 | a tree whose nodes declare no links yields no tuples and no error |
| Resolver.WalkAllStopped | app/hierarchyresolver.py:191-208 | after a child's walk fails, later children add nothing |
| Resolver.HierarchyResolver.constructor | app/hierarchyresolver.py:51-65 | the tree is kept and the tuple list starts empty |
| Resolver.HierarchyResolver.GetParent | app/hierarchyresolver.py:106-108 | a parent is reported only for a node whose identity occurs below the root of the resolver's tree |
| Resolver.HierarchyResolver.GetLinks | app/hierarchyresolver.py:210-212 | the accumulated tuple list is returned unchanged |
| Resolver.HierarchyResolver.GetPathToRoot | app/hierarchyresolver.py:93-104 | the loop returns the specification function `PathToRoot`: the prior list, the node's type, then its ancestors' types up to the first of type 0 |
| Resolver.HierarchyResolver.GetSiblingSubtree | app/hierarchyresolver.py:122-139 | the loop returns the specification function `SiblingScope`: the first match in the parent's whole subtree, widening one ancestor at a time |
| Resolver.HierarchyResolver.ResolvePort | app/hierarchyresolver.py:141-148 | the pop loop returns the specification function `Descend`: types are popped from the end until a childless node is reached |
| Resolver.HierarchyResolver.ResolveFromPort | app/hierarchyresolver.py:150-160 | the method returns the specification function `ResolveFrom`: the node reached by descending from the whole tree along the parsed path followed by the node's path to the root |
| Resolver.HierarchyResolver.ResolveToPort | app/hierarchyresolver.py:162-174 | the method returns the specification function `ResolveTo`: the sibling scope is searched first, and the scope widens toward the root only when nothing is found |
| Resolver.HierarchyResolver.ResolveHierarchy | app/hierarchyresolver.py:185-187 | the list grows by the tuples of the specification function `WalkAll` over the root's children, and the walk's error is reported; `WalkMatchesDeclared` relates `WalkAll` to the declared links |
| Resolver.HierarchyResolver.ResolveHierarchyAt | app/hierarchyresolver.py:189-208 | the list grows by `WalkAll` over the subtree's children, each child's links before its subtree, and the loop stops at the first failing child |
| Resolver.HierarchyResolver.ResolveChild | app/hierarchyresolver.py:194-208 | one child adds its own links' tuples, then those of its subtree |
| Resolver.HierarchyResolver.ResolveNodeLinks | app/hierarchyresolver.py:196-207 | the link loop appends one tuple per link, stopping at the first failure |
| Resolver.ResolveTwice | app/hierarchyresolver.py:185-207 | the list is never reset, so resolving twice holds the walk's tuples twice, the partial ones too when the walk fails |
| Scenarios.AdderPaths | app/hierarchyresolver.py:93-139 | in the adder, X's path from [2] is [2, 1, 0] and the type-2 sibling scope is Y |
| Scenarios.AdderDescent | app/hierarchyresolver.py:141-148 | descending [2, 1, 0] from the adder's root stops at Y |
| Scenarios.AdderLink | app/hierarchyresolver.py:150-174 | X's link out#2 → (type 2, in) resolves to (Y, out) → (Y, in) |
| Scenarios.AdderResolvesToInnerNode | app/hierarchyresolver.py:185-208 | the whole adder resolves to the single tuple (Y, out, Y, in) |
| Scenarios.CrossBoundaryFindsC | app/hierarchyresolver.py:122-139 | a type absent from the node's module is found in a neighbouring module by widening to the root |
| Scenarios.CollidingTypeMatchesInsideM1 | app/hierarchyresolver.py:124-129 | a colliding type inside the node's own module wins over the neighbouring module |
| Elements.ElementTree.constructor | app/elementtree.py:11-22 | a new builder has empty processed data and compositions, zero counters, and delimiters # and % |
| Elements.ElementTree.ElementCount | app/elementtree.py:24-32 | the result is the decimal text of the number of elements of that class across all compositions, minus one |
| Elements.CountClassIsMultiplicity | app/elementtree.py:24-32 | the count is the multiplicity of the class among the elements' classes |
| Elements.ElementTree.NameById | app/elementtree.py:34-39 | the name of the first entry with that id, and nothing exactly when no entry has it |
| Elements.ZipPairsOutputs | app/elementtree.py:43-45 | connection b of output a appears, paired with output a's name, at its offset; the pairs stop at the shorter list |
| Elements.PairsIgnoreUnpaired | app/elementtree.py:45 | outputs beyond the shorter of the two lists add no connections |
| Elements.ConvertConnection | app/elementtree.py:47-55 | a converted link carries the output's name, int() of the node text, and one of the element's inputs |
| Elements.OnlyLastCharacterSelects | app/elementtree.py:51-53 | two connections with the same node text and the same last output character give the same link or the same error |
| Elements.DigitSelectsInput | app/elementtree.py:51-53 | a last digit d between 1 and the number of inputs selects input d, counting from 1 |
| Elements.DigitZeroSelectsLastInput | app/elementtree.py:51-53 | a last digit 0 selects the last input |
| Elements.CopyLinksSpec | app/elementtree.py:45-55 | copying that completes gives one link per connection, in order, each the conversion of its connection |
| Elements.CopyLinksStopped | app/elementtree.py:45-55 | copying stops at the first connection that fails, keeping the links before it |
| Elements.ElementTree.CopyConnections | app/elementtree.py:41-55 | the element's links grow by the copied links of every paired connection, and nothing else changes |
| Elements.ElementTree.CopyOutput | app/elementtree.py:46-55 | the element's links grow by one link per connection of one output |
| Elements.WellNamedUnique | app/elementtree.py:68-85 | elements named class#(earlier count) have pairwise distinct names |
| Elements.FlattenElementsNames | app/elementtree.py:64-93 | placing a module's elements keeps every element named class#(count of earlier same-class elements) |
| Elements.FlattenKeepsNames | app/elementtree.py:59-95 | flattening keeps that naming across all modules |
| Elements.FlattenNamesUnique | app/elementtree.py:59-95 | from no compositions, every flattened element gets a distinct name |
| Elements.FlattenElementsShape | app/elementtree.py:64-93 | a module's elements are appended to its composition in input order, with module, class, id and copied links |
| Elements.FlattenModulesShape | app/elementtree.py:59-95 | a completed flatten appends one composition per module in input order, with its elements in order, and leaves earlier ones alone |
| Elements.FlattenElementsStopped | app/elementtree.py:64-93 | after an element fails, later elements of the module are not placed |
| Elements.FlattenModulesStopped | app/elementtree.py:59-95 | after a module fails, later modules are not flattened |
| Elements.ElementTree.PlaceElement | app/elementtree.py:66-93 | the last composition becomes the specification function `PlaceSpec` of the element: it holds module, class, name class#k with k the earlier count of its class, id, and its copied links |
| Elements.ElementTree.FlattenModule | app/elementtree.py:59-95 | one new composition receives the module's elements, and the counter advances only if all of them were placed |
| Elements.ElementTree.Flatten | app/elementtree.py:57-95 | the loop computes the specification function `FlattenModules` over all modules; after success the counter again equals the number of compositions |

## Left out

- Printing: `pprint` in `flatten`, `print`/`pprint` elsewhere, and the debug-only uses of `__repr__`.
- `dump_raw_data` (file output) and `convert_to_config` (only prints script text).
- `unroll_modules`: it only prints, and its dict-to-string comparison never matches.
- The `CompressedNode`/`CompressedTree` import, and the driver script `tests/parser.py` with the `CompositionParser` it uses. None of these is part of this model.
- The JSON layout of the editor export beyond the fields that `flatten` and `__copy_connections` read. A module is a name and one element group, and an element is a record.
- Modules with no element group or with several. Only one group per module is modelled. The source advances `num_modules` once per group, not once per module (app/elementtree.py:95). With two groups, the second group's first `self.compositions[self.num_modules]` indexes one past the end and raises `IndexError` (app/elementtree.py:68). With no group the counter does not advance, so the next module resets and fills the earlier composition (app/elementtree.py:62, 68), and its own composition is left without `"elements"`. The next element count then raises `KeyError` (app/elementtree.py:24-32).
- Python's `id()`: identities are given to the constructor as natural numbers. Python's `hash`: only its value on non-negative ints is modelled.
- `int()` accepts more than an ASCII sign and digits: surrounding whitespace, underscores and other Unicode digits. That is not modelled; such text is treated as not an integer.
- Exceptions are modelled as error values. The model does not say which Python exception class is raised.
- `flatten` leaves a partly filled composition behind when it raises. The model returns that state with the error.
- Resolver.HierarchyResolver.GetPathToRoot: requires distinct node identities in the tree. With a node object repeated in the tree, the source's parent climb can loop forever.
- Resolver.HierarchyResolver.GetSiblingSubtree: requires distinct node identities, for the same reason.
- Resolver.HierarchyResolver.ResolveFromPort: requires distinct node identities, because it climbs to the root.
- Resolver.HierarchyResolver.ResolveToPort: requires distinct node identities, because it runs the sibling search.
- Resolver.HierarchyResolver.ResolveHierarchy: requires distinct node identities, as do ResolveHierarchyAt, ResolveChild, ResolveNodeLinks and ResolveTwice.
- Resolver.HierarchyResolver.GetPathToRoot: the source appends to the caller's list in place. The model returns the extended list as a new value, so aliasing of that list is not captured.
- Resolver.HierarchyResolver.GetLinks: returns the tuple list as a value. The source returns the live list object.
- Elements.ElementTree.Flatten: requires the module counter to equal the number of compositions. After an earlier failed `flatten` they differ, and a second call is not modelled.
- Elements.ElementTree.FlattenModule: requires the same counter condition.
- Elements.ElementTree.PlaceElement: the placeholder entry `{"class": name}` that the source appends first is modelled with the remaining fields at default values. They are overwritten before anything reads them.
- A node whose `links` attribute is `None` makes the source raise `TypeError` in the walk. The model reports it as the error `LinksMissing`.
