/** Moving the definitions of every tool schema into one namespace. */
module ToolDefs {
  import opened SchemaRefs

  /** A tool and its parameter schema, if that parsed and validated. */
  datatype Tool = Tool(name: Name, params: Option<Node>)

  // ----- renaming -----

  function RewriteEntries(es: seq<Entry>, rename: map<Name, Name>): (r: seq<Entry>)
    ensures |r| == |es|
    ensures forall i :: 0 <= i < |es| ==> r[i] == Entry(es[i].name, Rewrite(es[i].node, rename))
    decreases es
  {
    if es == [] then []
    else [Entry(es[0].name, Rewrite(es[0].node, rename))] + RewriteEntries(es[1..], rename)
  }

  function RewriteNodes(ns: seq<Node>, rename: map<Name, Name>): (r: seq<Node>)
    ensures |r| == |ns|
    ensures forall i :: 0 <= i < |ns| ==> r[i] == Rewrite(ns[i], rename)
    decreases ns
  {
    if ns == [] then [] else [Rewrite(ns[0], rename)] + RewriteNodes(ns[1..], rename)
  }

  /** Every reference of the tree whose name is mapped gets the mapped name. */
  function Rewrite(node: Node, rename: map<Name, Name>): Node
    decreases node
  {
    var name := if node.kind.RefKind? && node.refName in rename then rename[node.refName] else node.refName;
    node.(refName := name,
          properties := RewriteEntries(node.properties, rename),
          items := RewriteNodes(node.items, rename),
          anyOf := RewriteNodes(node.anyOf, rename),
          defs := RewriteEntries(node.defs, rename))
  }

  function Key(tool: Name, def: Name): Name
  {
    tool + "/" + def
  }

  /** What a tool's references are renamed to. */
  method RenameMap(tool: Name, defs: seq<Entry>) returns (rename: map<Name, Name>)
    ensures rename == Renaming(tool, defs)
  {
    rename := map[SELF := tool];
    for i := 0 to |defs|
      invariant rename == Renaming(tool, defs[..i])
    {
      assert defs[..i + 1][..i] == defs[..i];
      rename := rename[defs[i].name := Key(tool, defs[i].name)];
    }
    assert defs[..|defs|] == defs;
  }

  function Renaming(tool: Name, defs: seq<Entry>): (m: map<Name, Name>)
    ensures SELF in m
    ensures forall i :: 0 <= i < |defs| ==> defs[i].name in m && m[defs[i].name] == Key(tool, defs[i].name)
    ensures (forall i :: 0 <= i < |defs| ==> defs[i].name != SELF) ==> m[SELF] == tool
  {
    if defs == [] then map[SELF := tool]
    else Renaming(tool, defs[..|defs| - 1])[defs[|defs| - 1].name := Key(tool, defs[|defs| - 1].name)]
  }

  // ----- hoisting -----

  function Hoist(tool: Name, defs: seq<Entry>): (r: seq<Entry>)
    ensures |r| == |defs| && forall i :: 0 <= i < |defs| ==> r[i] == Entry(Key(tool, defs[i].name), defs[i].node)
  {
    seq(|defs|, i requires 0 <= i < |defs| => Entry(Key(tool, defs[i].name), defs[i].node))
  }

  /** What one tool adds to the shared table. A schema without definitions is not renamed. */
  function ToolEntries(name: Name, params: Node): seq<Entry>
  {
    if params.defs == [] then [Entry(name, params)]
    else
      var moved := Rewrite(params, Renaming(name, params.defs));
      Hoist(name, moved.defs) + [Entry(name, moved.(defs := []))]
  }

  predicate Enforceable(params: Option<Node>, xml: bool)
  {
    params.Some? &&
    var r := Resolve(params.value, params.value, 0);
    r.Some? &&
    ((r.value.kind.ObjectKind? && r.value.properties != []) || (!xml && r.value.kind.EnumKind? && r.value.enumValues != []))
  }

  predicate TagOk(name: Name)
  {
    '<' !in name && '>' !in name && '\n' !in name
  }

  predicate KeysOk(params: Node)
  {
    var r := Resolve(params, params, 0);
    r.Some? ==> forall i :: 0 <= i < |r.value.properties| ==> TagOk(r.value.properties[i].name)
  }

  predicate ToolOk(t: Tool, xml: bool)
  {
    && t.name != "" && (xml ==> TagOk(t.name)) && Enforceable(t.params, xml)
    && (xml ==> KeysOk(t.params.value))
  }

  predicate AllOk(tools: seq<Tool>, xml: bool)
  {
    forall i :: 0 <= i < |tools| ==> ToolOk(tools[i], xml)
  }

  predicate HaveParams(tools: seq<Tool>)
  {
    forall i :: 0 <= i < |tools| ==> tools[i].params.Some?
  }

  function Table(tools: seq<Tool>): seq<Entry>
    requires HaveParams(tools)
  {
    if tools == [] then []
    else Table(tools[..|tools| - 1]) + ToolEntries(tools[|tools| - 1].name, tools[|tools| - 1].params.value)
  }

  function Names(tools: seq<Tool>): (r: seq<Name>)
    ensures |r| == |tools| && forall i :: 0 <= i < |tools| ==> r[i] == tools[i].name
  {
    seq(|tools|, i requires 0 <= i < |tools| => tools[i].name)
  }

  /** The gates a tool must pass. */
  method AdmitTool(t: Tool, xml: bool) returns (ok: bool)
    ensures ok == ToolOk(t, xml)
  {
    if t.name == "" || (xml && !TagOk(t.name)) || t.params.None? {
      return false;
    }
    var res := ResolveSchemaRef(t.params.value, t.params.value);
    var enforceable := res.Some? && ((res.value.kind.ObjectKind? && res.value.properties != []) ||
                                     (!xml && res.value.kind.EnumKind? && res.value.enumValues != []));
    if !enforceable {
      return false;
    }
    ok := true;
    if xml {
      for k := 0 to |res.value.properties|
        invariant forall j :: 0 <= j < k ==> TagOk(res.value.properties[j].name)
      {
        if !TagOk(res.value.properties[k].name) {
          return false;
        }
      }
    }
  }

  method AddTool(name: Name, schema: Node, before: seq<Entry>) returns (defs: seq<Entry>)
    ensures defs == before + ToolEntries(name, schema)
  {
    hide Rewrite, Renaming;
    var params := schema;
    defs := before;
    if params.defs != [] {
      var rename := RenameMap(name, params.defs);
      params := Rewrite(params, rename);
      defs := defs + Hoist(name, params.defs);
      params := params.(defs := []);
    }
    defs := defs + [Entry(name, params)];
  }

  method CollectToolDefs(tools: seq<Tool>, xml: bool) returns (ok: bool, defs: seq<Entry>, names: seq<Name>)
    ensures ok == AllOk(tools, xml)
    ensures ok ==> defs == Table(tools) && names == Names(tools)
  {
    hide ToolEntries, KeysOk, TagOk, Resolve;
    defs, names := [], [];
    for i := 0 to |tools|
      invariant AllOk(tools[..i], xml) && defs == Table(tools[..i]) && names == Names(tools[..i])
    {
      var t := tools[i];
      assert tools[..i + 1][..i] == tools[..i];
      ok := AdmitTool(t, xml);
      if !ok {
        return;
      }
      defs := AddTool(t.name, t.params.value, defs);
      names := names + [t.name];
    }
    assert tools[..|tools|] == tools;
    ok := true;
  }

  /** The tool-call root over the shared table. */
  function ToolCallRoot(tools: seq<Tool>): Node
    requires HaveParams(tools)
  {
    var choice := Node(1, EnumKind, "", [], [], [], [], [], Names(tools));
    var arguments := Node(2, ObjectKind, "", [], [], [], [], [], []);
    Node(0, ToolCallKind, "", [Entry("name", choice), Entry("arguments", arguments)], [], [], Table(tools),
         ["name", "arguments"], [])
  }

  /** The node lists the tools by name, in order, each as often as it is given. */
  predicate ListsNames(n: Node, tools: seq<Tool>)
  {
    |n.enumValues| == |tools| && forall i :: 0 <= i < |tools| ==> n.enumValues[i] == tools[i].name
  }

  /** Two properties: "name", one of the tool names, and "arguments", an object left open. */
  predicate AsksForCall(root: Node, tools: seq<Tool>)
  {
    && |root.properties| == 2 && root.properties[0].name == "name" && root.properties[1].name == "arguments"
    && root.properties[0].node.kind.EnumKind? && ListsNames(root.properties[0].node, tools)
    && root.properties[1].node.kind.ObjectKind? && root.properties[1].node.properties == []
  }

  method BuildToolCallSchema(tools: seq<Tool>) returns (r: Option<Node>)
    ensures r.Some? <==> tools != [] && AllOk(tools, false)
    ensures r.Some? ==> r.value == ToolCallRoot(tools)
    ensures r.Some? ==> r.value.kind.ToolCallKind? && r.value.required == ["name", "arguments"] && AsksForCall(r.value, tools)
  {
    if tools == [] {
      return None;
    }
    var ok, defs, names := CollectToolDefs(tools, false);
    if !ok {
      return None;
    }
    var choice := Node(1, EnumKind, "", [], [], [], [], [], names);
    var arguments := Node(2, ObjectKind, "", [], [], [], [], [], []);
    r := Some(Node(0, ToolCallKind, "", [Entry("name", choice), Entry("arguments", arguments)], [], [], defs,
                   ["name", "arguments"], []));
  }

  function XmlToolCallRoot(tools: seq<Tool>): Node
    requires HaveParams(tools)
  {
    Node(0, XmlToolCallKind, "", [], [], [], Table(tools), [], Names(tools))
  }

  method BuildXmlToolCallSchema(tools: seq<Tool>) returns (r: Option<Node>)
    ensures r.Some? <==> tools != [] && AllOk(tools, true)
    ensures r.Some? ==> r.value == XmlToolCallRoot(tools)
    ensures r.Some? ==> r.value.kind.XmlToolCallKind? && ListsNames(r.value, tools)
  {
    if tools == [] {
      return None;
    }
    var ok, defs, names := CollectToolDefs(tools, true);
    if !ok {
      return None;
    }
    r := Some(Node(0, XmlToolCallKind, "", [], [], [], defs, [], names));
  }
}
