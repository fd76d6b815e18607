/** What hoisting does to references: in a schema with definitions each one still denotes
    the node it denoted, in a schema without them a self reference is lost. */
module ToolRefs {
  import opened SchemaRefs
  import opened ToolDefs

  predicate Flat(name: Name)
  {
    '/' !in name
  }

  /** Tool names are distinct, free of slashes, and none is the self reference. */
  predicate GoodNames(tools: seq<Tool>)
  {
    && (forall i :: 0 <= i < |tools| ==> Flat(tools[i].name) && tools[i].name != SELF)
    && (forall i, j :: 0 <= i < j < |tools| ==> tools[i].name != tools[j].name)
  }

  predicate NoSelfDef(params: Node)
  {
    forall i :: 0 <= i < |params.defs| ==> params.defs[i].name != SELF
  }

  // ----- names -----

  lemma KeyIsNotFlat(tool: Name, def: Name)
    ensures !Flat(Key(tool, def)) && Key(tool, def) != SELF
  {
    assert Key(tool, def)[|tool|] == '/';
  }

  lemma FirstSlash(tool: Name, def: Name)
    requires Flat(tool)
    ensures Key(tool, def)[|tool|] == '/' && forall i :: 0 <= i < |tool| ==> Key(tool, def)[i] != '/'
  {
    assert forall i :: 0 <= i < |tool| ==> Key(tool, def)[i] == tool[i];
  }

  lemma KeyTells(t: Name, d: Name, u: Name, e: Name)
    requires Flat(t) && Flat(u) && Key(t, d) == Key(u, e)
    ensures t == u && d == e
  {
    var k := Key(t, d);
    FirstSlash(t, d);
    FirstSlash(u, e);
    assert t == k[..|t|] && u == k[..|u|];
    assert d == k[|t| + 1..] && e == k[|u| + 1..];
  }

  // ----- looking up -----

  lemma {:induction false} FindAppend(a: seq<Entry>, b: seq<Entry>, name: Name)
    ensures Find(a + b, name) == if Find(a, name).Some? then Find(a, name) else Find(b, name)
    decreases |a|
  {
    if a == [] {
      assert a + b == b;
    } else {
      assert (a + b)[1..] == a[1..] + b;
      FindAppend(a[1..], b, name);
    }
  }

  lemma {:induction false} FindHoisted(tool: Name, defs: seq<Entry>, d: Name)
    requires Flat(tool)
    ensures Find(Hoist(tool, defs), Key(tool, d)) == Find(defs, d)
    decreases |defs|
  {
    if defs != [] {
      assert Hoist(tool, defs)[1..] == Hoist(tool, defs[1..]);
      FindHoisted(tool, defs[1..], d);
      if Key(tool, defs[0].name) == Key(tool, d) {
        KeyTells(tool, d, tool, defs[0].name);
      }
    }
  }

  lemma {:induction false} FindRewritten(defs: seq<Entry>, rename: map<Name, Name>, d: Name)
    ensures Find(RewriteEntries(defs, rename), d) ==
            if Find(defs, d).Some? then Some(Rewrite(Find(defs, d).value, rename)) else None
    decreases |defs|
  {
    hide Rewrite;
    if defs != [] {
      assert RewriteEntries(defs, rename)[1..] == RewriteEntries(defs[1..], rename);
      FindRewritten(defs[1..], rename, d);
    }
  }

  /** The names under which a tool's entries are filed. */
  predicate Owned(tool: Name, name: Name)
  {
    name == tool || (|name| > |tool| && name[..|tool| + 1] == tool + "/")
  }

  lemma OwnedNames(name: Name, params: Node, i: nat)
    requires i < |ToolEntries(name, params)|
    ensures Owned(name, ToolEntries(name, params)[i].name)
  {
    hide Rewrite, Renaming;
    var es := ToolEntries(name, params);
    if params.defs != [] && i < |es| - 1 {
      var k := es[i].name;
      assert k[..|name| + 1] == name + "/";
    }
  }

  lemma OwnedHasSlash(tool: Name, name: Name)
    requires Owned(tool, name) && name != tool
    ensures !Flat(name) && name == Key(tool, name[|tool| + 1..])
  {
    assert name[|tool|] == name[..|tool| + 1][|tool|];
    assert name == name[..|tool| + 1] + name[|tool| + 1..];
  }

  lemma OwnedByOne(t: Name, u: Name, name: Name)
    requires Flat(t) && Flat(u) && Owned(t, name) && Owned(u, name)
    ensures t == u
  {
    if name != t {
      OwnedHasSlash(t, name);
    }
    if name != u {
      OwnedHasSlash(u, name);
    }
    if name != t && name != u {
      KeyTells(t, name[|t| + 1..], u, name[|u| + 1..]);
    }
  }

  lemma KeyIsOwned(tool: Name, d: Name)
    ensures Owned(tool, tool) && Owned(tool, Key(tool, d))
  {
    assert Key(tool, d)[..|tool| + 1] == tool + "/";
  }

  lemma {:induction false} NotOwnedNotFound(name: Name, params: Node, other: Name)
    requires !Owned(name, other)
    ensures Find(ToolEntries(name, params), other).None?
  {
    forall i | 0 <= i < |ToolEntries(name, params)|
      ensures ToolEntries(name, params)[i].name != other
    {
      OwnedNames(name, params, i);
    }
  }

  /** A name is looked up among the entries of the tool that owns it. */
  lemma {:induction false} FindInTable(tools: seq<Tool>, k: nat, name: Name)
    requires HaveParams(tools) && GoodNames(tools) && k < |tools| && Owned(tools[k].name, name)
    requires Find(ToolEntries(tools[k].name, tools[k].params.value), name).Some?
    ensures Find(Table(tools), name) == Find(ToolEntries(tools[k].name, tools[k].params.value), name)
    decreases |tools|
  {
    hide ToolEntries;
    var n := |tools| - 1;
    var last := ToolEntries(tools[n].name, tools[n].params.value);
    FindAppend(Table(tools[..n]), last, name);
    if k < n {
      FindInTable(tools[..n], k, name);
    } else {
      NotInOthers(tools[..n], tools[n].name, name);
    }
  }

  lemma {:induction false} NotInOthers(tools: seq<Tool>, owner: Name, name: Name)
    requires HaveParams(tools) && Flat(owner) && Owned(owner, name)
    requires forall i :: 0 <= i < |tools| ==> Flat(tools[i].name) && tools[i].name != owner
    ensures Find(Table(tools), name).None?
    decreases |tools|
  {
    hide ToolEntries;
    if tools != [] {
      var n := |tools| - 1;
      var t := tools[n];
      NotInOthers(tools[..n], owner, name);
      if Owned(t.name, name) {
        OwnedByOne(t.name, owner, name);
      }
      NotOwnedNotFound(t.name, t.params.value, name);
      FindAppend(Table(tools[..n]), ToolEntries(t.name, t.params.value), name);
    }
  }

  // ----- where a node of a tool schema ends up -----

  /** The node after the move. The root of the schema leaves its definitions behind. */
  function Moved(tool: Name, params: Node, n: Node): Node
  {
    var m := Rewrite(n, Renaming(tool, params.defs));
    if n == params then m.(defs := []) else m
  }

  lemma {:induction false} OwnEntries(tool: Name, params: Node, d: Name)
    requires Flat(tool) && params.defs != []
    ensures Find(ToolEntries(tool, params), tool) == Some(Moved(tool, params, params))
    ensures Find(params.defs, d).Some? ==>
              Find(ToolEntries(tool, params), Key(tool, d)) == Some(Rewrite(Find(params.defs, d).value, Renaming(tool, params.defs)))
  {
    hide Renaming;
    var rename := Renaming(tool, params.defs);
    var moved := Rewrite(params, rename);
    var hoisted, own := Hoist(tool, moved.defs), [Entry(tool, moved.(defs := []))];
    assert ToolEntries(tool, params) == hoisted + own;
    FindAppend(hoisted, own, tool);
    forall i | 0 <= i < |hoisted|
      ensures hoisted[i].name != tool
    {
      KeyIsNotFlat(tool, moved.defs[i].name);
    }
    FindAppend(hoisted, own, Key(tool, d));
    FindHoisted(tool, moved.defs, d);
    FindRewritten(params.defs, rename, d);
  }

  /** One hop from a node leads to the moved copy of where it led before. */
  lemma {:induction false} HopSurvives(tools: seq<Tool>, k: nat, root: Node, n: Node)
    requires HaveParams(tools) && GoodNames(tools) && k < |tools| && root.defs == Table(tools)
    requires tools[k].params.value.defs != [] && NoSelfDef(tools[k].params.value)
    requires n.kind.RefKind? && Target(tools[k].params.value, n.refName).Some?
    ensures var tool, params := tools[k].name, tools[k].params.value;
            Target(root, Rewrite(n, Renaming(tool, params.defs)).refName) == Some(Moved(tool, params, Target(params, n.refName).value))
  {
    hide Table, ToolEntries;
    var tool, params := tools[k].name, tools[k].params.value;
    var name := n.refName;
    OwnEntries(tool, params, name);
    KeyIsOwned(tool, name);
    KeyIsNotFlat(tool, name);
    if name == SELF {
      FindInTable(tools, k, tool);
    } else {
      FindInTable(tools, k, Key(tool, name));
      var i :| 0 <= i < |params.defs| && params.defs[i] == Entry(name, Find(params.defs, name).value);
      assert params.defs[i].node != params;
    }
  }

  /** Whole chains survive, hop for hop. */
  lemma {:induction false} ChainSurvives(tools: seq<Tool>, k: nat, root: Node, n: Node, hops: nat)
    requires HaveParams(tools) && GoodNames(tools) && k < |tools| && root.defs == Table(tools)
    requires tools[k].params.value.defs != [] && NoSelfDef(tools[k].params.value)
    requires Resolve(tools[k].params.value, n, hops).Some?
    ensures var tool, params := tools[k].name, tools[k].params.value;
            Resolve(root, Moved(tool, params, n), hops) == Some(Moved(tool, params, Resolve(params, n, hops).value))
    decreases 64 - hops
  {
    hide Table, Find, Renaming;
    if n.kind.RefKind? {
      HopSurvives(tools, k, root, n);
      ChainSurvives(tools, k, root, Target(tools[k].params.value, n.refName).value, hops + 1);
    }
  }

  /** What a node of a tool schema is after the build. */
  function Carried(tool: Name, params: Node, n: Node): Node
  {
    if params.defs == [] then n else Moved(tool, params, n)
  }

  /** A reference keeps its meaning exactly when its schema has definitions. */
  lemma {:induction false} RefSurvivesIff(tools: seq<Tool>, k: nat, root: Node, r: Node)
    requires HaveParams(tools) && GoodNames(tools) && k < |tools| && root.defs == Table(tools) && !root.kind.RefKind?
    requires NoSelfDef(tools[k].params.value) && r.kind.RefKind? && Resolve(tools[k].params.value, r, 0).Some?
    ensures var tool, params := tools[k].name, tools[k].params.value;
            Resolve(root, Carried(tool, params, r), 0) == Some(Carried(tool, params, Resolve(params, r, 0).value))
            <==> params.defs != []
  {
    hide Table, Renaming;
    if tools[k].params.value.defs != [] {
      ChainSurvives(tools, k, root, r, 0);
    } else {
      SelfRefEscapes(tools, k, root, r);
    }
  }

  /** In a schema without definitions a reference denotes the schema itself, and after the
      build it denotes the root over all tools instead. */
  lemma {:induction false} SelfRefEscapes(tools: seq<Tool>, k: nat, root: Node, r: Node)
    requires HaveParams(tools) && GoodNames(tools) && k < |tools| && root.defs == Table(tools) && !root.kind.RefKind?
    requires tools[k].params.value.defs == [] && r.kind.RefKind? && Resolve(tools[k].params.value, r, 0).Some?
    ensures r.refName == SELF && Resolve(tools[k].params.value, r, 0) == Some(tools[k].params.value)
    ensures Resolve(root, r, 0) == Some(root) && root != tools[k].params.value
  {
    hide Table;
    var params := tools[k].params.value;
    if params.kind.RefKind? {
      RefRootIsLost(params, 1);
    }
    EntryOf(tools, k, root);
  }

  lemma {:induction false} RefRootIsLost(params: Node, hops: nat)
    requires params.defs == [] && params.kind.RefKind?
    ensures Resolve(params, params, hops).None?
    decreases 64 - hops
  {
    if hops < 64 && params.refName == SELF {
      RefRootIsLost(params, hops + 1);
    }
  }

  /** The entry of a tool in the shared table. */
  lemma {:induction false} EntryOf(tools: seq<Tool>, k: nat, root: Node)
    requires HaveParams(tools) && GoodNames(tools) && k < |tools| && root.defs == Table(tools)
    ensures exists i :: 0 <= i < |root.defs| && root.defs[i].node == Carried(tools[k].name, tools[k].params.value, tools[k].params.value)
    ensures root != Carried(tools[k].name, tools[k].params.value, tools[k].params.value)
  {
    hide Table, Moved;
    var tool, params := tools[k].name, tools[k].params.value;
    if params.defs != [] {
      OwnEntries(tool, params, tool);
    }
    KeyIsOwned(tool, tool);
    FindInTable(tools, k, tool);
  }

  // ----- whole schemas -----

  lemma {:induction false} RewrittenChild(c: Node, tree: Node, rename: map<Name, Name>)
    requires IsChild(c, tree)
    ensures IsChild(Rewrite(c, rename), Rewrite(tree, rename))
  {
    var t := Rewrite(tree, rename);
    if i :| 0 <= i < |tree.properties| && tree.properties[i].node == c {
      assert t.properties[i].node == Rewrite(c, rename);
    } else if i :| 0 <= i < |tree.items| && tree.items[i] == c {
      assert t.items[i] == Rewrite(c, rename);
    } else if i :| 0 <= i < |tree.anyOf| && tree.anyOf[i] == c {
      assert t.anyOf[i] == Rewrite(c, rename);
    } else {
      var i :| 0 <= i < |tree.defs| && tree.defs[i].node == c;
      assert t.defs[i].node == Rewrite(c, rename);
    }
  }

  lemma {:induction false} RewrittenWithin(n: Node, tree: Node, rename: map<Name, Name>)
    requires Within(n, tree)
    ensures Within(Rewrite(n, rename), Rewrite(tree, rename))
    decreases tree
  {
    hide Rewrite;
    if n != tree {
      var c := ChildTowards(n, tree);
      RewrittenWithin(n, c, rename);
      RewrittenChild(c, tree, rename);
      WithinChild(Rewrite(n, rename), Rewrite(c, rename), Rewrite(tree, rename));
    }
  }

  lemma {:induction false} TableHas(tools: seq<Tool>, k: nat, e: Entry)
    requires HaveParams(tools) && k < |tools| && e in ToolEntries(tools[k].name, tools[k].params.value)
    ensures e in Table(tools)
    decreases |tools|
  {
    hide ToolEntries;
    if k < |tools| - 1 {
      TableHas(tools[..|tools| - 1], k, e);
    }
  }

  lemma {:induction false} WithinEntry(n: Node, root: Node, e: Entry)
    requires e in root.defs && Within(n, e.node)
    ensures Within(n, root)
  {
    var i :| 0 <= i < |root.defs| && root.defs[i] == e;
    assert Within(n, root.defs[i].node);
  }

  /** A node below the root of a schema with definitions moves into one of its entries. */
  lemma BelowIsFiled(tool: Name, params: Node, n: Node) returns (e: Entry)
    requires params.defs != [] && n != params && Within(n, params)
    ensures e in ToolEntries(tool, params) && Within(Rewrite(n, Renaming(tool, params.defs)), e.node)
  {
    hide Renaming;
    var rename := Renaming(tool, params.defs);
    var m, x := Rewrite(params, rename), Rewrite(n, rename);
    var hoisted, own := Hoist(tool, m.defs), Entry(tool, m.(defs := []));
    assert ToolEntries(tool, params) == hoisted + [own];
    if i :| 0 <= i < |params.defs| && Within(n, params.defs[i].node) {
      RewrittenWithin(n, params.defs[i].node, rename);
      e := hoisted[i];
      assert (hoisted + [own])[i] == e;
    } else {
      e := own;
      assert (hoisted + [own])[|hoisted|] == own;
      StaysBelow(params, n, rename);
    }
  }

  lemma {:induction false} StaysBelow(params: Node, n: Node, rename: map<Name, Name>)
    requires n != params && Within(n, params) && forall i :: 0 <= i < |params.defs| ==> !Within(n, params.defs[i].node)
    ensures Within(Rewrite(n, rename), Rewrite(params, rename).(defs := []))
  {
    var m := Rewrite(params, rename).(defs := []);
    if i :| 0 <= i < |params.properties| && Within(n, params.properties[i].node) {
      RewrittenWithin(n, params.properties[i].node, rename);
      assert m.properties[i].node == Rewrite(params.properties[i].node, rename);
    } else if i :| 0 <= i < |params.items| && Within(n, params.items[i]) {
      RewrittenWithin(n, params.items[i], rename);
      assert m.items[i] == Rewrite(params.items[i], rename);
    } else {
      var i :| 0 <= i < |params.anyOf| && Within(n, params.anyOf[i]);
      RewrittenWithin(n, params.anyOf[i], rename);
      assert m.anyOf[i] == Rewrite(params.anyOf[i], rename);
    }
  }

  /** Nothing of a tool schema gets lost in the move. */
  lemma {:induction false} CarriedWithin(tools: seq<Tool>, k: nat, root: Node, n: Node)
    requires HaveParams(tools) && GoodNames(tools) && k < |tools| && root.defs == Table(tools)
    requires Within(n, tools[k].params.value)
    ensures Within(Carried(tools[k].name, tools[k].params.value, n), root)
  {
    hide Table, Rewrite, Renaming;
    var tool, params := tools[k].name, tools[k].params.value;
    var e: Entry;
    if params.defs == [] {
      e := Entry(tool, params);
      assert e in ToolEntries(tool, params);
    } else if n == params {
      e := Entry(tool, Moved(tool, params, params));
      assert e in ToolEntries(tool, params);
    } else {
      e := BelowIsFiled(tool, params, n);
    }
    TableHas(tools, k, e);
    WithinEntry(Carried(tool, params, n), root, e);
  }

  /** Over a built root, JSON or XML: every reference of every validated tool schema is still
      there, and it denotes what it denoted before exactly when its schema has definitions. */
  lemma {:induction false} BuiltSchemaKeepsRefs(tools: seq<Tool>, xml: bool, k: nat, root: Node, r: Node)
    requires AllOk(tools, xml) && GoodNames(tools) && k < |tools|
    requires root == if xml then XmlToolCallRoot(tools) else ToolCallRoot(tools)
    requires ValidateRefs(tools[k].params.value, tools[k].params.value) && NoSelfDef(tools[k].params.value)
    requires Within(r, tools[k].params.value) && r.kind.RefKind?
    ensures var tool, params := tools[k].name, tools[k].params.value;
            && Within(Carried(tool, params, r), root) && Resolve(params, r, 0).Some?
            && (Resolve(root, Carried(tool, params, r), 0) == Some(Carried(tool, params, Resolve(params, r, 0).value))
                <==> params.defs != [])
  {
    hide Table, Carried, Within, Resolve, NoSelfDef, GoodNames, KeysOk, TagOk;
    ValidMeansAll(tools[k].params.value, tools[k].params.value, r);
    CarriedWithin(tools, k, root, r);
    RefSurvivesIff(tools, k, root, r);
  }

  /** Tool `t` takes an object whose property `p` refers to the object itself. The tool is
      admitted, the schema validates, and in the built root `p` denotes the root. */
  lemma RecursiveArgumentEscapes(xml: bool)
    ensures var r := Node(1, RefKind, SELF, [], [], [], [], [], []);
            var params := Node(0, ObjectKind, "", [Entry("p", r)], [], [], [], [], []);
            var tools := [Tool("t", Some(params))];
            && AllOk(tools, xml) && ValidateRefs(params, params) && Resolve(params, r, 0) == Some(params)
            && var root := if xml then XmlToolCallRoot(tools) else ToolCallRoot(tools);
               Within(r, root) && Resolve(root, r, 0) == Some(root) && root != params
  {
    var r := Node(1, RefKind, SELF, [], [], [], [], [], []);
    var params := Node(0, ObjectKind, "", [Entry("p", r)], [], [], [], [], []);
    var tools := [Tool("t", Some(params))];
    var root := if xml then XmlToolCallRoot(tools) else ToolCallRoot(tools);
    assert Resolve(params, r, 0) == Resolve(params, params, 1);
    assert Within(r, params.properties[0].node);
    CarriedWithin(tools, 0, root, r);
    SelfRefEscapes(tools, 0, root, r);
  }
  // ----- what gets in, and as what -----

  /** A tool gets in exactly if it has a name and its parameter schema leads, over at most 64
      references, to an object with properties, or for JSON calls to an enumeration with
      values. XML calls also keep angle brackets and line ends out of the name and of every
      property name. */
  lemma {:induction false} AdmittedIff(t: Tool, xml: bool)
    ensures ToolOk(t, xml) <==>
            && |t.name| > 0 && t.params.Some? && (xml ==> Untagged(t.name))
            && exists n: Node, hops: nat :: hops <= 64 && EndsAfter(t.params.value, t.params.value, hops, n) && Constrains(n, xml)
  {
    hide Resolve, EndsAfter;
    if t.params.Some? {
      var params := t.params.value;
      if n: Node, hops: nat :| hops <= 64 && EndsAfter(params, params, hops, n) && Constrains(n, xml) {
        ResolveIff(params, params, 0, n);
      }
      if Resolve(params, params, 0).Some? {
        ResolveIff(params, params, 0, Resolve(params, params, 0).value);
      }
    }
  }

  predicate Untagged(name: Name)
  {
    forall i :: 0 <= i < |name| ==> name[i] != '<' && name[i] != '>' && name[i] != '\n'
  }

  predicate Constrains(n: Node, xml: bool)
  {
    || (n.kind.ObjectKind? && |n.properties| > 0 &&
        (xml ==> forall i :: 0 <= i < |n.properties| ==> Untagged(n.properties[i].name)))
    || (!xml && n.kind.EnumKind? && |n.enumValues| > 0)
  }

  /** A name listed in a built root leads to the schema of its own tool. */
  lemma {:induction false} NameFindsTool(tools: seq<Tool>, xml: bool, k: nat, root: Node)
    requires AllOk(tools, xml) && GoodNames(tools) && k < |tools|
    requires root == if xml then XmlToolCallRoot(tools) else ToolCallRoot(tools)
    ensures var params := tools[k].params.value;
            Find(root.defs, tools[k].name) == Some(Carried(tools[k].name, params, params))
  {
    hide Table, Moved, KeysOk, TagOk, Resolve, ToolEntries;
    var tool, params := tools[k].name, tools[k].params.value;
    if params.defs != [] {
      OwnEntries(tool, params, tool);
    } else {
      SoleEntry(tool, params);
    }
    KeyIsOwned(tool, tool);
    FindInTable(tools, k, tool);
  }

  /** A definition `d` of a tool schema is found as "tool/d". */
  lemma {:induction false} NameFindsDef(tools: seq<Tool>, xml: bool, k: nat, root: Node, d: Name)
    requires AllOk(tools, xml) && GoodNames(tools) && k < |tools| && Find(tools[k].params.value.defs, d).Some?
    requires root == if xml then XmlToolCallRoot(tools) else ToolCallRoot(tools)
    ensures var tool, params := tools[k].name, tools[k].params.value;
            Find(root.defs, tool + "/" + d) == Some(Carried(tool, params, Find(params.defs, d).value))
  {
    hide Table, KeysOk, TagOk, Resolve, ToolEntries, Rewrite, Renaming;
    var tool, params := tools[k].name, tools[k].params.value;
    OwnEntries(tool, params, d);
    KeyIsOwned(tool, d);
    FindInTable(tools, k, Key(tool, d));
    var i :| 0 <= i < |params.defs| && params.defs[i] == Entry(d, Find(params.defs, d).value);
    assert params.defs[i].node != params;
  }

  lemma {:induction false} SoleEntry(tool: Name, params: Node)
    requires params.defs == []
    ensures Find(ToolEntries(tool, params), tool) == Some(params)
  {
  }

  lemma {:induction false} Below(n: Node, tree: Node)
    requires Within(n, tree)
    ensures n == tree || (tree decreases to n)
    decreases tree
  {
    if n != tree {
      var c := ChildTowards(n, tree);
      Below(n, c);
    }
  }

  /** What stands right below a node of a tree is not the tree. */
  lemma {:induction false} ChildIsBelow(c: Node, n: Node, tree: Node)
    requires Within(n, tree) && IsChild(c, n)
    ensures c != tree
  {
    Below(n, tree);
    assert n decreases to c;
  }

  lemma {:induction false} RenamingDomain(tool: Name, defs: seq<Entry>, name: Name)
    ensures name in Renaming(tool, defs) <==> name == SELF || exists i :: 0 <= i < |defs| && defs[i].name == name
    decreases |defs|
  {
    if defs != [] {
      RenamingDomain(tool, defs[..|defs| - 1], name);
    }
  }

  /** A moved node keeps everything but the names of its references: "#" becomes the tool and a
      definition "d" becomes "tool/d". Only the root of a schema loses its definitions. */
  lemma {:induction false} CarriedKeeps(tool: Name, params: Node, n: Node)
    requires NoSelfDef(params) && Within(n, params)
    ensures var m := Carried(tool, params, n);
            && m.id == n.id && m.kind == n.kind && m.required == n.required && m.enumValues == n.enumValues
            && |m.properties| == |n.properties| && |m.items| == |n.items| && |m.anyOf| == |n.anyOf|
            && (forall i :: 0 <= i < |n.properties| ==>
                  m.properties[i] == Entry(n.properties[i].name, Carried(tool, params, n.properties[i].node)))
            && (forall i :: 0 <= i < |n.items| ==> m.items[i] == Carried(tool, params, n.items[i]))
            && (forall i :: 0 <= i < |n.anyOf| ==> m.anyOf[i] == Carried(tool, params, n.anyOf[i]))
    ensures var m := Carried(tool, params, n);
            m.refName == if params.defs == [] || !n.kind.RefKind? then n.refName
                         else if n.refName == "#" then tool
                         else if Find(params.defs, n.refName).Some? then tool + "/" + n.refName
                         else n.refName
  {
    hide Renaming, Within;
    RenamingDomain(tool, params.defs, n.refName);
    forall c | IsChild(c, n)
      ensures c != params
    {
      ChildIsBelow(c, n, params);
    }
    assert forall i :: 0 <= i < |n.properties| ==> IsChild(n.properties[i].node, n);
    assert forall i :: 0 <= i < |n.items| ==> IsChild(n.items[i], n);
    assert forall i :: 0 <= i < |n.anyOf| ==> IsChild(n.anyOf[i], n);
  }
}
