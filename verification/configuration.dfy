/** Reading values out of a loaded configuration document and parsing the
    window layout tree (src/libboxten/configuration.cpp). Loading and saving
    the files is left to the caller: a document that could not be loaded is
    `None`. */
module Configuration {
  import opened Wrappers
  import opened JsonTest
  import Registry

  /** `get_string`: succeeds when the key holds a string, and only then
      replaces `result`. */
  function GetString(key: string, result: string, cfg: Json): (r: (string, bool))
    ensures r.1 <==> TypeCheck(key, String, cfg)
    ensures r.1 ==> JString(r.0) == Lookup(cfg, key).value
    ensures !r.1 ==> r.0 == result
  {
    if !TypeCheck(key, String, cfg) then (result, false)
    else (Lookup(cfg, key).value.str, true)
  }

  /** The string members of an array, in order; other members are skipped. */
  function StringsOf(items: seq<Json>): (r: seq<string>)
    ensures |r| <= |items|
  {
    if |items| == 0 then []
    else (if items[0].JString? then [items[0].str] else []) + StringsOf(items[1..])
  }

  /** An array without strings gives nothing, and an array of strings gives
      all of them in order. */
  lemma {:induction false} StringsOfExtremes(items: seq<Json>)
    ensures (forall i :: 0 <= i < |items| ==> !items[i].JString?) ==> StringsOf(items) == []
    ensures (forall i :: 0 <= i < |items| ==> items[i].JString?) ==>
              |StringsOf(items)| == |items| && forall i :: 0 <= i < |items| ==> StringsOf(items)[i] == items[i].str
  {
    if |items| > 0 {
      StringsOfExtremes(items[1..]);
    }
  }

  /** Every string kept is a string element of the array. */
  lemma {:induction false} StringsOfMembers(items: seq<Json>)
    ensures forall s :: s in StringsOf(items) ==> JString(s) in items
  {
    if |items| > 0 {
      StringsOfMembers(items[1..]);
      assert forall x :: x in items[1..] ==> x in items;
    }
  }

  /** One unfolding of `StringsOf`. */
  lemma StringsOfUnfold(items: seq<Json>)
    requires |items| > 0
    ensures StringsOf(items) == (if items[0].JString? then [items[0].str] else []) + StringsOf(items[1..])
  {
  }

  lemma {:induction false} StringsOfAppend(a: seq<Json>, b: seq<Json>)
    ensures StringsOf(a + b) == StringsOf(a) + StringsOf(b)
    decreases |a|
  {
    if |a| == 0 {
      assert a + b == b;
    } else {
      var h := if a[0].JString? then [a[0].str] else [];
      var ab := a + b;
      assert ab[0] == a[0];
      assert ab[1..] == a[1..] + b;
      StringsOfUnfold(ab);
      StringsOfUnfold(a);
      StringsOfAppend(a[1..], b);
      assert h + (StringsOf(a[1..]) + StringsOf(b)) == (h + StringsOf(a[1..])) + StringsOf(b);
    }
  }

  /** `get_string_array`: fails unless the key holds an array; otherwise
      appends the array's strings to `result` and succeeds, whatever else the
      array holds. */
  function GetStringArray(key: string, result: seq<string>, cfg: Json): (r: (seq<string>, bool))
    ensures r.1 <==> TypeCheck(key, Array, cfg)
    ensures !r.1 ==> r.0 == result
    ensures r.1 ==> r.0 == result + StringsOf(Lookup(cfg, key).value.items)
  {
    if !TypeCheck(key, Array, cfg) then (result, false)
    else (result + StringsOf(Lookup(cfg, key).value.items), true)
  }

  /** `get_component_name`: the strings under the key, if there are exactly
      two of them, become the name; otherwise `result` is kept. */
  function GetComponentName(key: string, result: Registry.ComponentName, cfg: Json): (r: (Registry.ComponentName, bool))
    ensures var names := GetStringArray(key, [], cfg);
            && (r.1 <==> names.1 && |names.0| == 2)
            && (r.1 ==> r.0 == Registry.ComponentName(names.0[0], names.0[1]))
            && (!r.1 ==> r.0 == result)
  {
    var names := GetStringArray(key, [], cfg);
    if !names.1 || |names.0| != 2 then (result, false)
    else (Registry.ComponentName(names.0[0], names.0[1]), true)
  }

  /** Non-strings are filtered out before counting: `["a", 1, "b"]` names
      component `b` of module `a`, and `["a"]` names nothing. */
  lemma ComponentNameFiltersFirst(result: Registry.ComponentName)
    ensures GetComponentName("name", result, JObject([Member("name", JArray([JString("a"), JNumber(1), JString("b")]))]))
            == (Registry.ComponentName("a", "b"), true)
    ensures GetComponentName("name", result, JObject([Member("name", JArray([JString("a")]))])) == (result, false)
  {
    var items := [JString("a"), JNumber(1), JString("b")];
    assert FindKey([Member("name", JArray(items))], "name") == Some(0);
    assert StringsOf(items) == ["a", "b"] by {
      assert items[1..] == [JNumber(1), JString("b")];
      assert items[1..][1..] == [JString("b")];
    }
    assert FindKey([Member("name", JArray([JString("a")]))], "name") == Some(0);
  }

  /** `LayoutData`'s node type. */
  datatype LayoutKind = Unknown | HSplit | VSplit | WidgetKind

  /** `LayoutData`. */
  datatype Layout = Layout(kind: LayoutKind, name: Registry.ComponentName, children: seq<Layout>)

  /** A value-initialised `LayoutData`, as `emplace_back()` creates it. */
  const EmptyLayout: Layout := Layout(Unknown, Registry.ComponentName("", ""), [])

  /** The node type a "type" string names. */
  function KindOf(t: string): (r: Option<LayoutKind>)
    ensures r == Some(VSplit) <==> t == "vlayout"
    ensures r == Some(HSplit) <==> t == "hlayout"
    ensures r == Some(WidgetKind) <==> t == "widget"
    ensures r.None? <==> t !in {"vlayout", "hlayout", "widget"}
  {
    if t == "vlayout" then Some(VSplit)
    else if t == "hlayout" then Some(HSplit)
    else if t == "widget" then Some(WidgetKind)
    else None
  }

  /** The reference grammar: a node is an object with a known "type"; a
      widget also has a component name, a split has a "children" array whose
      elements are all well-formed nodes. */
  predicate WellFormed(j: Json) {
    match j
    case JObject(ms) =>
      var t := GetString("type", "", j);
      t.1 && KindOf(t.0).Some? &&
      if KindOf(t.0) == Some(WidgetKind) then GetComponentName("name", Registry.ComponentName("", ""), j).1
      else
        var c := FindKey(ms, "children");
        c.Some? && ms[c.value].value.JArray? &&
        forall i :: 0 <= i < |ms[c.value].value.items| ==> WellFormed(ms[c.value].value.items[i])
    case _ => false
  }

  /** One `parse_layout` call on `cfg` into `layout`: the new layout and
      whether this node and everything below it parsed. A failing node
      returns at once, leaving what it had already written; a split node
      parses every child, one appended child each, even after one fails. */
  function ParseLayout(cfg: Json, layout: Layout): (r: (Layout, bool))
    ensures r.1 <==> WellFormed(cfg)
    ensures !GetString("type", "", cfg).1 ==> r == (layout, false)
    ensures var t := GetString("type", "", cfg).0;
            GetString("type", "", cfg).1 ==>
              && (KindOf(t).None? ==> r == (layout, false))
              && (KindOf(t).Some? ==> r.0.kind == KindOf(t).value)
              && (KindOf(t) == Some(WidgetKind) ==>
                    && r.0.children == layout.children
                    && r.0.name == GetComponentName("name", layout.name, cfg).0
                    && r.1 == GetComponentName("name", layout.name, cfg).1)
              && (KindOf(t).Some? && KindOf(t) != Some(WidgetKind) ==>
                    && r.0.name == layout.name
                    && (!TypeCheck("children", Array, cfg) ==> r.0.children == layout.children && !r.1)
                    && (TypeCheck("children", Array, cfg) ==>
                          && r.0.children == layout.children + ParseChildren(Lookup(cfg, "children").value.items).0
                          && r.1 == ParseChildren(Lookup(cfg, "children").value.items).1))
  {
    match cfg
    case JObject(ms) =>
      var t := GetString("type", "", cfg);
      if !t.1 then (layout, false)
      else
        var kind := KindOf(t.0);
        if kind.None? then (layout, false)
        else
          var typed := layout.(kind := kind.value);
          if kind.value == WidgetKind then
            var n := GetComponentName("name", typed.name, cfg);
            if !n.1 then (typed, false) else (typed.(name := n.0), true)
          else
            var c := FindKey(ms, "children");
            if c.None? || !ms[c.value].value.JArray? then
              assert !TypeCheck("children", Array, cfg);
              (typed, false)
            else
              var items := ms[c.value].value.items;
              var parsed := ParseChildren(items);
              (typed.(children := typed.children + parsed.0), parsed.1)
    case _ =>
      (layout, false)
  }

  /** The loop over a split node's "children": each element parsed into a
      fresh node, in order; true when all of them parsed. */
  function ParseChildren(items: seq<Json>): (r: (seq<Layout>, bool))
    ensures |r.0| == |items|
    ensures forall i :: 0 <= i < |items| ==> r.0[i] == ParseLayout(items[i], EmptyLayout).0
    ensures r.1 <==> forall i :: 0 <= i < |items| ==> WellFormed(items[i])
    decreases items
  {
    if |items| == 0 then ([], true)
    else
      var head := ParseLayout(items[0], EmptyLayout);
      var tail := ParseChildren(items[1..]);
      assert forall i :: 0 < i < |items| ==> items[i] == items[1..][i - 1];
      var kids := [head.0] + tail.0;
      assert forall i :: 0 < i < |items| ==> kids[i] == tail.0[i - 1];
      (kids, head.1 && tail.1)
  }

  /** Sibling nodes are parsed after a failure: one bad child among good
      ones still yields one node per child, and the overall result is
      failure. */
  lemma FailedChildKeepsSiblings(bad: Json, good: Json)
    requires !WellFormed(bad) && WellFormed(good)
    ensures var r := ParseChildren([good, bad, good]);
            |r.0| == 3 && r.0[0] == ParseLayout(good, EmptyLayout).0 && r.0[2] == r.0[0] && !r.1
  {
    var items := [good, bad, good];
    assert items[1..] == [bad, good];
    assert items[1..][1..] == [good];
    assert items[1..][1..][1..] == [];
    var last := ParseChildren([good]);
    assert last.0 == [ParseLayout(good, EmptyLayout).0];
    var mid := ParseChildren([bad, good]);
    assert mid.0 == [ParseLayout(bad, EmptyLayout).0] + last.0;
  }

  /** `get_layout_config`: false when the file could not be loaded or has no
      "layout" object; otherwise the layout parsed from it, reporting
      whether every node parsed. */
  function GetLayoutConfig(file: Option<Json>, layout: Layout): (r: (Layout, bool))
    ensures file.None? || !TypeCheck("layout", Object, file.value) ==> r == (layout, false)
    ensures file.Some? && TypeCheck("layout", Object, file.value) ==>
              && r == ParseLayout(Lookup(file.value, "layout").value, layout)
              && (r.1 <==> WellFormed(Lookup(file.value, "layout").value))
  {
    if file.None? then (layout, false)
    else if !TypeCheck("layout", Object, file.value) then (layout, false)
    else ParseLayout(Lookup(file.value, "layout").value, layout)
  }

  /** A widget node with a two-string name parses into that widget. */
  lemma WidgetParses(m: string, c: string)
    ensures var node := JObject([Member("type", JString("widget")), Member("name", JArray([JString(m), JString(c)]))]);
            ParseLayout(node, EmptyLayout) == (Layout(WidgetKind, Registry.ComponentName(m, c), []), true)
  {
    var ms := [Member("type", JString("widget")), Member("name", JArray([JString(m), JString(c)]))];
    assert FindKey(ms, "type") == Some(0);
    assert FindKey(ms, "name") == Some(1) by {
      assert ms[1..] == [Member("name", JArray([JString(m), JString(c)]))];
      assert "type" != "name";
    }
    assert KindOf("widget") == Some(WidgetKind);
    StringsOfExtremes([JString(m), JString(c)]);
  }

  /** The "type" string of a node kind. */
  function KindName(k: LayoutKind): (r: string)
    ensures k != Unknown ==> KindOf(r) == Some(k)
  {
    match k
    case VSplit => "vlayout"
    case HSplit => "hlayout"
    case WidgetKind => "widget"
    case Unknown => ""
  }

  /** The trees a configuration file can describe: every node has a known
      kind, a widget has no children, and a split carries no name. */
  predicate Describable(t: Layout)
    decreases t
  {
    && t.kind != Unknown
    && (t.kind == WidgetKind ==> t.children == [])
    && (t.kind != WidgetKind ==>
          t.name == Registry.ComponentName("", "") && forall i :: 0 <= i < |t.children| ==> Describable(t.children[i]))
  }

  /** The configuration node describing a layout tree: a widget with its
      two-string name, a split with its "children" array. */
  function Render(t: Layout): Json
    decreases t
  {
    if t.kind == WidgetKind then
      JObject([Member("type", JString("widget")),
               Member("name", JArray([JString(t.name.moduleName), JString(t.name.componentName)]))])
    else
      JObject([Member("type", JString(KindName(t.kind))), Member("children", JArray(RenderAll(t.children)))])
  }

  function RenderAll(ts: seq<Layout>): (r: seq<Json>)
    ensures |r| == |ts|
    decreases ts
  {
    if |ts| == 0 then [] else [Render(ts[0])] + RenderAll(ts[1..])
  }

  /** The "type" and "children" members of a rendered split node read back. */
  lemma SplitNodeReads(k: LayoutKind, kids: seq<Json>)
    requires k != Unknown && k != WidgetKind
    ensures var cfg := JObject([Member("type", JString(KindName(k))), Member("children", JArray(kids))]);
            && GetString("type", "", cfg) == (KindName(k), true)
            && TypeCheck("children", Array, cfg)
            && Lookup(cfg, "children") == Some(JArray(kids))
  {
    var ms := [Member("type", JString(KindName(k))), Member("children", JArray(kids))];
    assert FindKey(ms, "type") == Some(0);
    assert FindKey(ms, "children") == Some(1) by {
      assert ms[1..] == [Member("children", JArray(kids))];
      assert "type" != "children";
    }
  }

  /** Parsing the node that describes a tree gives that tree back, and the
      parse succeeds. */
  lemma {:induction false} RenderParses(t: Layout)
    requires Describable(t)
    ensures ParseLayout(Render(t), EmptyLayout) == (t, true)
    decreases t, 1
  {
    if t.kind == WidgetKind {
      WidgetParses(t.name.moduleName, t.name.componentName);
    } else {
      var kids := RenderAll(t.children);
      SplitNodeReads(t.kind, kids);
      RenderAllParses(t.children);
      var r := ParseLayout(Render(t), EmptyLayout);
      assert r.0.children == [] + t.children;
      assert r.0 == t;
    }
  }

  lemma {:induction false} RenderAllParses(ts: seq<Layout>)
    requires forall i :: 0 <= i < |ts| ==> Describable(ts[i])
    ensures ParseChildren(RenderAll(ts)) == (ts, true)
    decreases ts, 0
  {
    if |ts| > 0 {
      RenderParses(ts[0]);
      RenderAllParses(ts[1..]);
      var js := RenderAll(ts);
      assert js[0] == Render(ts[0]);
      assert js[1..] == RenderAll(ts[1..]);
      assert ParseChildren(js) == ([ParseLayout(js[0], EmptyLayout).0] + ParseChildren(js[1..]).0,
                                   ParseLayout(js[0], EmptyLayout).1 && ParseChildren(js[1..]).1);
      assert [ts[0]] + ts[1..] == ts;
    }
  }

  /** A configuration file whose "layout" member is a rendered tree loads
      exactly that tree. */
  lemma RenderedConfigLoads(t: Layout, layout: Layout)
    requires Describable(t)
    ensures GetLayoutConfig(Some(JObject([Member("layout", Render(t))])), layout) == (ParseLayout(Render(t), layout).0, true)
    ensures GetLayoutConfig(Some(JObject([Member("layout", Render(t))])), EmptyLayout) == (t, true)
  {
    var file := JObject([Member("layout", Render(t))]);
    assert FindKey(file.members, "layout") == Some(0);
    RenderParses(t);
  }
}
