/** Schema trees and the resolution of references in them. */
module SchemaRefs {
  import opened IdLists

  type Name = string

  datatype Option<+T> = None | Some(value: T)

  datatype Kind =
    | StringKind | NumberKind | IntegerKind | BooleanKind | NullKind | ObjectKind | ArrayKind | EnumKind | AnyOfKind
    | RefKind | ToolCallKind | XmlToolCallKind

  datatype Entry = Entry(name: Name, node: Node)

  /** A schema node. `id` says which object it is; `items` holds one node or none. */
  datatype Node = Node(id: nat, kind: Kind, refName: Name, properties: seq<Entry>, items: seq<Node>, anyOf: seq<Node>,
                       defs: seq<Entry>, required: seq<Name>, enumValues: seq<Name>)

  const SELF: Name := "#"

  /** Hops before resolution gives up. */
  const MAX_HOPS: nat := 64

  /** The first entry of a name. */
  function Find(defs: seq<Entry>, name: Name): (r: Option<Node>)
    ensures r.Some? ==> exists i :: 0 <= i < |defs| && defs[i] == Entry(name, r.value)
    ensures r.None? <==> forall i :: 0 <= i < |defs| ==> defs[i].name != name
  {
    if defs == [] then None
    else if defs[0].name == name then
      assert defs[0] == Entry(name, defs[0].node);
      Some(defs[0].node)
    else
      var r := Find(defs[1..], name);
      assert forall i :: 0 <= i < |defs| - 1 ==> defs[1..][i] == defs[i + 1];
      r
  }

  function Target(root: Node, name: Name): Option<Node>
  {
    if name == SELF then Some(root) else Find(root.defs, name)
  }

  /** Following a chain of references, of which `hops` were followed before. */
  function Resolve(root: Node, node: Node, hops: nat): Option<Node>
    decreases MAX_HOPS - hops
  {
    if !node.kind.RefKind? then Some(node)
    else if hops >= MAX_HOPS then None
    else
      match Target(root, node.refName)
      case None => None
      case Some(next) => Resolve(root, next, hops + 1)
  }

  method ResolveSchemaRef(root: Node, start: Node) returns (r: Option<Node>)
    ensures r == Resolve(root, start, 0)
  {
    var guard := 0;
    r := Some(start);
    while r.Some? && r.value.kind.RefKind?
      invariant guard <= MAX_HOPS
      invariant Resolve(root, start, 0) == if r.Some? then Resolve(root, r.value, guard) else None
      decreases MAX_HOPS - guard, if r.Some? then 1 else 0
    {
      guard := guard + 1;
      if guard > MAX_HOPS {
        return None;
      }
      if r.value.refName == SELF {
        r := Some(root);
        continue;
      }
      r := FindDef(root, r.value.refName);
    }
  }

  method FindDef(root: Node, name: Name) returns (found: Option<Node>)
    ensures found == Find(root.defs, name)
  {
    found := None;
    for i := 0 to |root.defs|
      invariant found == None && Find(root.defs, name) == Find(root.defs[i..], name)
    {
      if root.defs[i].name == name {
        return Some(root.defs[i].node);
      }
    }
  }

  // ----- chains without a limit -----

  /** Where `k` hops lead, while there are hops to follow. */
  function After(root: Node, node: Node, k: nat): Option<Node>
    decreases k
  {
    if k == 0 then Some(node)
    else if !node.kind.RefKind? then None
    else
      match Target(root, node.refName)
      case None => None
      case Some(next) => After(root, next, k - 1)
  }

  /** The chain ends after exactly `k` hops, at `t`. */
  predicate EndsAfter(root: Node, node: Node, k: nat, t: Node)
  {
    After(root, node, k) == Some(t) && !t.kind.RefKind?
  }

  /** Resolution finds exactly the ends of chains of at most 64 hops. */
  lemma {:induction false} ResolveIff(root: Node, node: Node, hops: nat, t: Node)
    requires hops <= 64
    ensures Resolve(root, node, hops) == Some(t) <==> exists k: nat :: k + hops <= 64 && EndsAfter(root, node, k, t)
    decreases 64 - hops
  {
    if !node.kind.RefKind? {
      assert EndsAfter(root, node, 0, node);
    } else if hops < 64 && Target(root, node.refName).Some? {
      var next := Target(root, node.refName).value;
      ResolveIff(root, next, hops + 1, t);
      if k: nat :| k + (hops + 1) <= 64 && EndsAfter(root, next, k, t) {
        assert EndsAfter(root, node, k + 1, t);
      }
      if k: nat :| k + hops <= 64 && EndsAfter(root, node, k, t) {
        assert k > 0 && EndsAfter(root, next, k - 1, t);
      }
    }
  }

  lemma {:induction false} AfterAdd(root: Node, node: Node, j: nat, k: nat)
    requires After(root, node, j).Some?
    ensures After(root, node, j + k) == After(root, After(root, node, j).value, k)
    decreases j
  {
    if j > 0 {
      AfterAdd(root, Target(root, node.refName).value, j - 1, k);
    }
  }

  lemma {:induction false} AfterEarlier(root: Node, node: Node, j: nat, k: nat)
    requires j <= k && After(root, node, k).Some?
    ensures After(root, node, j).Some?
    ensures j < k ==> After(root, node, j).value.kind.RefKind?
    decreases j
  {
    if j > 0 {
      AfterEarlier(root, Target(root, node.refName).value, j - 1, k - 1);
    }
  }

  /** The root and its first `k` definitions. */
  ghost function Targets(root: Node, k: nat): (s: set<Node>)
    requires k <= |root.defs|
    ensures |s| <= k + 1 && root in s && forall i :: 0 <= i < k ==> root.defs[i].node in s
  {
    if k == 0 then {root} else Targets(root, k - 1) + {root.defs[k - 1].node}
  }

  /** The first `k` places a chain visits. */
  ghost function Visited(root: Node, node: Node, k: nat): (s: set<Node>)
    requires After(root, node, k).Some?
    ensures s <= Targets(root, |root.defs|)
    decreases k
  {
    if k == 0 then {}
    else
      AfterEarlier(root, node, k - 1, k);
      AfterAdd(root, node, k - 1, 1);
      Visited(root, node, k - 1) + {After(root, node, k).value}
  }

  lemma {:induction false} VisitedAt(root: Node, node: Node, k: nat, t: Node) returns (j: nat)
    requires After(root, node, k).Some? && t in Visited(root, node, k)
    ensures 0 < j <= k && After(root, node, j) == Some(t)
    decreases k
  {
    AfterEarlier(root, node, k - 1, k);
    if t in Visited(root, node, k - 1) {
      j := VisitedAt(root, node, k - 1, t);
    } else {
      j := k;
    }
  }

  /** A chain that ends never visits a place twice. */
  lemma {:induction false} NoReturn(root: Node, node: Node, j: nat, k: nat, n: nat, t: Node)
    requires j < k <= n && EndsAfter(root, node, n, t)
    ensures After(root, node, j) != After(root, node, k)
  {
    AfterEarlier(root, node, j, n);
    AfterEarlier(root, node, k, n);
    AfterAdd(root, node, j, n - k);
    AfterAdd(root, node, k, n - k);
    AfterEarlier(root, node, j + (n - k), n);
  }

  lemma {:induction false} VisitedSize(root: Node, node: Node, k: nat, n: nat, t: Node)
    requires k <= n && EndsAfter(root, node, n, t)
    ensures After(root, node, k).Some? && |Visited(root, node, k)| == k
    decreases k
  {
    AfterEarlier(root, node, k, n);
    if k > 0 {
      VisitedSize(root, node, k - 1, n, t);
      var x := After(root, node, k).value;
      if x in Visited(root, node, k - 1) {
        var j := VisitedAt(root, node, k - 1, x);
        NoReturn(root, node, j, k, n, t);
      }
    }
  }

  /** With fewer than 64 definitions the limit never cuts a chain that ends: resolution
      fails only on a missing definition or a cycle. */
  lemma {:induction false} LimitIsHarmless(root: Node, node: Node, k: nat, t: Node)
    requires |root.defs| < 64 && EndsAfter(root, node, k, t)
    ensures Resolve(root, node, 0) == Some(t)
  {
    VisitedSize(root, node, k, k, t);
    SubsetSize(Visited(root, node, k), Targets(root, |root.defs|));
    EndIsFoundIff(root, node, k, t);
  }

  /** A chain that ends is followed to its end exactly if it has at most 64 hops. */
  lemma {:induction false} EndIsFoundIff(root: Node, node: Node, k: nat, t: Node)
    requires EndsAfter(root, node, k, t)
    ensures Resolve(root, node, 0) == if k <= 64 then Some(t) else None
  {
    ResolveIff(root, node, 0, t);
    if Resolve(root, node, 0).Some? {
      var u := Resolve(root, node, 0).value;
      ResolveIff(root, node, 0, u);
      var j: nat :| j <= 64 && EndsAfter(root, node, j, u);
      if j < k {
        AfterEarlier(root, node, j, k);
      } else if k < j {
        AfterEarlier(root, node, k, j);
      }
    }
  }

  // ----- a longest chain -----

  function Link(i: nat): (name: Name)
    ensures |name| == i + 1 && name[0] != SELF[0]
  {
    seq(i + 1, _ => 'x')
  }

  /** Definition `i` of `n`: a reference to the next one, or a string at the end. */
  function LinkNode(i: nat, n: nat): Node
  {
    Node(i + 1, if i + 1 < n then RefKind else StringKind, Link(i + 1), [], [], [], [], [], [])
  }

  function LinkDefs(n: nat): (defs: seq<Entry>)
    ensures |defs| == n && forall i :: 0 <= i < n ==> defs[i] == Entry(Link(i), LinkNode(i, n))
  {
    seq(n, i requires i >= 0 => Entry(Link(i), LinkNode(i, n)))
  }

  /** A root that is itself a reference, over `n` chained definitions. */
  function ChainRoot(n: nat): Node
  {
    Node(0, RefKind, Link(0), [], [], [], LinkDefs(n), [], [])
  }

  lemma {:induction false} FindLink(n: nat, i: nat)
    requires i < n
    ensures Find(LinkDefs(n), Link(i)) == Some(LinkNode(i, n))
  {
    var r := Find(LinkDefs(n), Link(i));
    assert LinkDefs(n)[i].name == Link(i);
    var j :| 0 <= j < n && LinkDefs(n)[j] == Entry(Link(i), r.value);
    assert |Link(i)| == |Link(j)|;
  }

  lemma {:induction false} EndsHere(root: Node, t: Node)
    requires !t.kind.RefKind?
    ensures EndsAfter(root, t, 0, t)
  {
  }

  lemma {:induction false} EndsLater(root: Node, node: Node, next: Node, k: nat, t: Node)
    requires node.kind.RefKind? && Target(root, node.refName) == Some(next) && EndsAfter(root, next, k, t)
    ensures EndsAfter(root, node, k + 1, t)
  {
  }

  lemma {:induction false} LinksEnd(n: nat, i: nat)
    requires i < n
    ensures EndsAfter(ChainRoot(n), LinkNode(i, n), n - 1 - i, LinkNode(n - 1, n))
    decreases n - i
  {
    hide Find, EndsAfter, LinkDefs;
    if i + 1 < n {
      FindLink(n, i + 1);
      LinksEnd(n, i + 1);
      EndsLater(ChainRoot(n), LinkNode(i, n), LinkNode(i + 1, n), n - 2 - i, LinkNode(n - 1, n));
    } else {
      EndsHere(ChainRoot(n), LinkNode(i, n));
    }
  }

  /** Every number of definitions has a chain that ends one hop past it, and from 64
      definitions on that chain is refused: the bound of `LimitIsHarmless` is tight. */
  lemma {:induction false} LimitIsTight(n: nat, start: Node)
    requires n > 0 && start.kind.RefKind? && start.refName == SELF
    ensures |ChainRoot(n).defs| == n && EndsAfter(ChainRoot(n), start, n + 1, LinkNode(n - 1, n))
    ensures Resolve(ChainRoot(n), start, 0) == if n < 64 then Some(LinkNode(n - 1, n)) else None
  {
    hide Find, EndsAfter, LinkNode, Resolve;
    FindLink(n, 0);
    LinksEnd(n, 0);
    EndsLater(ChainRoot(n), ChainRoot(n), LinkNode(0, n), n - 1, LinkNode(n - 1, n));
    EndsLater(ChainRoot(n), start, ChainRoot(n), n, LinkNode(n - 1, n));
    EndIsFoundIff(ChainRoot(n), start, n + 1, LinkNode(n - 1, n));
  }

  // ----- whole trees -----

  /** `n` is `tree` or somewhere below it. */
  ghost predicate Within(n: Node, tree: Node)
    decreases tree
  {
    || n == tree
    || (exists i :: 0 <= i < |tree.properties| && Within(n, tree.properties[i].node))
    || (exists i :: 0 <= i < |tree.items| && Within(n, tree.items[i]))
    || (exists i :: 0 <= i < |tree.anyOf| && Within(n, tree.anyOf[i]))
    || (exists i :: 0 <= i < |tree.defs| && Within(n, tree.defs[i].node))
  }

  /** Every reference of the tree resolves. */
  predicate ValidateRefs(root: Node, tree: Node)
    decreases tree
  {
    && (tree.kind.RefKind? ==> Resolve(root, tree, 0).Some?)
    && (forall i :: 0 <= i < |tree.properties| ==> ValidateRefs(root, tree.properties[i].node))
    && (forall i :: 0 <= i < |tree.items| ==> ValidateRefs(root, tree.items[i]))
    && (forall i :: 0 <= i < |tree.anyOf| ==> ValidateRefs(root, tree.anyOf[i]))
    && (forall i :: 0 <= i < |tree.defs| ==> ValidateRefs(root, tree.defs[i].node))
  }

  /** `c` is right below `tree`. */
  predicate IsChild(c: Node, tree: Node)
  {
    || (exists i :: 0 <= i < |tree.properties| && tree.properties[i].node == c)
    || (exists i :: 0 <= i < |tree.items| && tree.items[i] == c)
    || (exists i :: 0 <= i < |tree.anyOf| && tree.anyOf[i] == c)
    || (exists i :: 0 <= i < |tree.defs| && tree.defs[i].node == c)
  }

  lemma {:induction false} WithinChild(n: Node, c: Node, tree: Node)
    requires IsChild(c, tree) && Within(n, c)
    ensures Within(n, tree)
  {
  }

  /** The child on the way down to a node. */
  lemma {:induction false} ChildTowards(n: Node, tree: Node) returns (c: Node)
    requires Within(n, tree) && n != tree
    ensures IsChild(c, tree) && Within(n, c) && (tree decreases to c)
  {
    if i :| 0 <= i < |tree.properties| && Within(n, tree.properties[i].node) {
      c := tree.properties[i].node;
    } else if i :| 0 <= i < |tree.items| && Within(n, tree.items[i]) {
      c := tree.items[i];
    } else if i :| 0 <= i < |tree.anyOf| && Within(n, tree.anyOf[i]) {
      c := tree.anyOf[i];
    } else {
      var i :| 0 <= i < |tree.defs| && Within(n, tree.defs[i].node);
      c := tree.defs[i].node;
    }
  }

  lemma {:induction false} ChildIsValid(root: Node, tree: Node, c: Node)
    requires ValidateRefs(root, tree) && IsChild(c, tree)
    ensures ValidateRefs(root, c)
  {
  }

  lemma {:induction false} ValidMeansAll(root: Node, tree: Node, n: Node)
    requires ValidateRefs(root, tree) && Within(n, tree)
    ensures n.kind.RefKind? ==> Resolve(root, n, 0).Some?
    decreases tree
  {
    if n != tree {
      var c := ChildTowards(n, tree);
      ChildIsValid(root, tree, c);
      ValidMeansAll(root, c, n);
    }
  }

  ghost predicate RefsResolve(root: Node, tree: Node)
  {
    forall n :: Within(n, tree) && n.kind.RefKind? ==> Resolve(root, n, 0).Some?
  }

  lemma {:induction false} AllMeansValid(root: Node, tree: Node)
    requires RefsResolve(root, tree)
    ensures ValidateRefs(root, tree)
    decreases tree
  {
    hide Resolve;
    assert Within(tree, tree);
    forall i | 0 <= i < |tree.properties|
      ensures ValidateRefs(root, tree.properties[i].node)
    {
      assert forall n :: Within(n, tree.properties[i].node) ==> Within(n, tree);
      AllMeansValid(root, tree.properties[i].node);
    }
    forall i | 0 <= i < |tree.items|
      ensures ValidateRefs(root, tree.items[i])
    {
      assert forall n :: Within(n, tree.items[i]) ==> Within(n, tree);
      AllMeansValid(root, tree.items[i]);
    }
    forall i | 0 <= i < |tree.anyOf|
      ensures ValidateRefs(root, tree.anyOf[i])
    {
      assert forall n :: Within(n, tree.anyOf[i]) ==> Within(n, tree);
      AllMeansValid(root, tree.anyOf[i]);
    }
    forall i | 0 <= i < |tree.defs|
      ensures ValidateRefs(root, tree.defs[i].node)
    {
      assert forall n :: Within(n, tree.defs[i].node) ==> Within(n, tree);
      AllMeansValid(root, tree.defs[i].node);
    }
  }

  /** Validation accepts exactly the trees all of whose references resolve. */
  lemma {:induction false} ValidIff(root: Node, tree: Node)
    ensures ValidateRefs(root, tree) <==> RefsResolve(root, tree)
  {
    hide ValidateRefs, Within, Resolve;
    if ValidateRefs(root, tree) {
      forall n | Within(n, tree) && n.kind.RefKind?
        ensures Resolve(root, n, 0).Some?
      {
        ValidMeansAll(root, tree, n);
      }
    }
    if RefsResolve(root, tree) {
      AllMeansValid(root, tree);
    }
  }
}
