/** Module loading and component lookup (src/libboxten/module.cpp). Loading
    a shared library is abstracted to its outcome; a module is its name and
    its component catalogue. */
module Registry {
  import opened Wrappers

  /** `COMPONENT_TYPE`. */
  datatype ComponentType = ModuleKind | SoundProcessor | StreamInput | StreamOutput | Widget

  /** `ComponentInfo` without its allocation callbacks. */
  datatype ComponentInfo = ComponentInfo(name: string, kind: ComponentType)

  datatype Module = Module(name: string, catalogue: seq<ComponentInfo>)

  /** `ComponentName`: the module's name and the component's name. */
  datatype ComponentName = ComponentName(moduleName: string, componentName: string)

  /** `ComponentConstructionParam`: what the allocator receives. */
  datatype ConstructionParam = ConstructionParam(moduleName: string, info: ComponentInfo)

  /** The first catalogue entry named `component`. */
  function SearchCatalogue(cat: seq<ComponentInfo>, component: string): (r: Option<ComponentInfo>)
    ensures r.Some? ==> r.value in cat && r.value.name == component
    ensures r.None? <==> forall i :: 0 <= i < |cat| ==> cat[i].name != component
    ensures r.Some? ==> exists i :: 0 <= i < |cat| && cat[i] == r.value && forall j :: 0 <= j < i ==> cat[j].name != component
  {
    if |cat| == 0 then None
    else if cat[0].name == component then Some(cat[0])
    else
      var t := SearchCatalogue(cat[1..], component);
      assert t.Some? ==> exists i :: 0 <= i < |cat| && cat[i] == t.value && forall j :: 0 <= j < i ==> cat[j].name != component by {
        if t.Some? {
          var i :| 0 <= i < |cat[1..]| && cat[1..][i] == t.value && forall j :: 0 <= j < i ==> cat[1..][j].name != component;
          assert cat[i + 1] == t.value;
          assert forall j :: 0 <= j < i + 1 ==> cat[j].name != component by {
            forall j | 0 <= j < i + 1 ensures cat[j].name != component {
              if j > 0 { assert cat[j] == cat[1..][j - 1]; }
            }
          }
        }
      }
      t
  }

  /** `search_component`: the construction parameter for the first module,
      in load order, whose name matches and whose catalogue has the
      component; a module that matches by name but lacks the component does
      not end the search. `None` is the null result. */
  function SearchComponent(mods: seq<Module>, name: ComponentName): (r: Option<ConstructionParam>)
    ensures r == (if |AllMatches(mods, name)| == 0 then None else Some(AllMatches(mods, name)[0]))
  {
    if |mods| == 0 then None
    else
      var hit := if mods[0].name == name.moduleName then SearchCatalogue(mods[0].catalogue, name.componentName) else None;
      if hit.Some? then Some(ConstructionParam(mods[0].name, hit.value))
      else SearchComponent(mods[1..], name)
  }

  /** Every catalogue entry of `m` named `component`, in order. */
  function EntriesNamed(cat: seq<ComponentInfo>, component: string): (r: seq<ComponentInfo>)
    ensures |r| == 0 <==> SearchCatalogue(cat, component).None?
    ensures |r| > 0 ==> r[0] == SearchCatalogue(cat, component).value
  {
    if |cat| == 0 then []
    else if cat[0].name == component then [cat[0]] + EntriesNamed(cat[1..], component)
    else EntriesNamed(cat[1..], component)
  }

  function ParamsFor(moduleName: string, infos: seq<ComponentInfo>): (r: seq<ConstructionParam>)
    ensures |r| == |infos|
    ensures forall i :: 0 <= i < |infos| ==> r[i] == ConstructionParam(moduleName, infos[i])
  {
    if |infos| == 0 then [] else [ConstructionParam(moduleName, infos[0])] + ParamsFor(moduleName, infos[1..])
  }

  /** The reference definition: every (module, entry) pair matching both
      names, in module order and then catalogue order. */
  function AllMatches(mods: seq<Module>, name: ComponentName): (r: seq<ConstructionParam>)
    ensures forall i :: 0 <= i < |r| ==> r[i].moduleName == name.moduleName && r[i].info.name == name.componentName
  {
    if |mods| == 0 then []
    else
      var here := if mods[0].name == name.moduleName then EntriesNamed(mods[0].catalogue, name.componentName) else [];
      EntriesNamedAreNamed(mods[0].catalogue, name.componentName);
      ParamsFor(mods[0].name, here) + AllMatches(mods[1..], name)
  }

  lemma {:induction false} EntriesNamedAreNamed(cat: seq<ComponentInfo>, component: string)
    ensures forall i :: 0 <= i < |EntriesNamed(cat, component)| ==> EntriesNamed(cat, component)[i].name == component
    decreases |cat|
  {
    if |cat| > 0 {
      EntriesNamedAreNamed(cat[1..], component);
    }
  }

  /** Module `m` is the one named and lists the component. */
  predicate Provides(m: Module, name: ComponentName) {
    m.name == name.moduleName && exists c :: 0 <= c < |m.catalogue| && m.catalogue[c].name == name.componentName
  }

  /** No module provides the component exactly when the search yields
      null. */
  lemma {:induction false} SearchNullIffAbsent(mods: seq<Module>, name: ComponentName)
    ensures SearchComponent(mods, name).None? <==> forall m :: 0 <= m < |mods| ==> !Provides(mods[m], name)
    decreases |mods|
  {
    if |mods| > 0 {
      SearchNullIffAbsent(mods[1..], name);
      var hit := if mods[0].name == name.moduleName then SearchCatalogue(mods[0].catalogue, name.componentName) else None;
      assert hit.None? <==> !Provides(mods[0], name);
      assert SearchComponent(mods, name).None? <==> hit.None? && SearchComponent(mods[1..], name).None?;
      assert forall m :: 0 < m < |mods| ==> mods[m] == mods[1..][m - 1];
    }
  }

  /** A module with the right name but without the component does not end
      the search: a later module of the same name still supplies it. */
  lemma SearchPassesNamesake(info: ComponentInfo)
    ensures var mods := [Module("m", []), Module("m", [info])];
            SearchComponent(mods, ComponentName("m", info.name)) == Some(ConstructionParam("m", info))
  {
    var mods := [Module("m", []), Module("m", [info])];
    assert mods[1..] == [Module("m", [info])];
    assert mods[1..][1..] == [];
  }

  /** What loading one directory entry gave: dlopen failed, the library has
      no `install_modules`, or the modules it installed. */
  datatype LibOutcome = OpenFailed | NoSymbol | Loaded(mods: seq<Module>)

  /** The modules one directory contributes, in directory order. */
  function LoadDir(entries: seq<LibOutcome>): (r: seq<Module>)
    ensures (forall i :: 0 <= i < |entries| ==> !entries[i].Loaded?) ==> r == []
    ensures forall m :: m in r <==> exists i :: 0 <= i < |entries| && entries[i].Loaded? && m in entries[i].mods
  {
    if |entries| == 0 then []
    else (if entries[0].Loaded? then entries[0].mods else []) + LoadDir(entries[1..])
  }

  /** `open_modules`: append the modules of every library that opened and
      exported `install_modules`, directory by directory, to the modules
      already loaded; return the new list and its length. */
  function OpenModules(existing: seq<Module>, dirs: seq<seq<LibOutcome>>): (r: (seq<Module>, nat))
    ensures r.1 == |r.0|
    ensures |existing| <= |r.0| && r.0[..|existing|] == existing
    decreases |dirs|
  {
    if |dirs| == 0 then (existing, |existing|)
    else
      var next := existing + LoadDir(dirs[0]);
      var r := OpenModules(next, dirs[1..]);
      assert r.0[..|existing|] == r.0[..|next|][..|existing|];
      r
  }

  lemma {:induction false} LoadDirAppend(a: seq<LibOutcome>, b: seq<LibOutcome>)
    ensures LoadDir(a + b) == LoadDir(a) + LoadDir(b)
    decreases |a|
  {
    if |a| == 0 {
      assert a + b == b;
    } else {
      assert (a + b)[1..] == a[1..] + b;
      LoadDirAppend(a[1..], b);
    }
  }

  /** Opening the directories in two batches loads the same modules, in the
      same order, as opening them at once. */
  lemma {:induction false} OpenModulesAppend(existing: seq<Module>, a: seq<seq<LibOutcome>>, b: seq<seq<LibOutcome>>)
    ensures OpenModules(existing, a + b) == OpenModules(OpenModules(existing, a).0, b)
    decreases |a|
  {
    if |a| == 0 {
      assert a + b == b;
    } else {
      assert (a + b)[0] == a[0];
      assert (a + b)[1..] == a[1..] + b;
      OpenModulesAppend(existing + LoadDir(a[0]), a[1..], b);
    }
  }

  /** One directory appends exactly its loaded libraries' modules, in
      order. */
  lemma OpenOneDir(existing: seq<Module>, entries: seq<LibOutcome>)
    ensures OpenModules(existing, [entries]).0 == existing + LoadDir(entries)
  {
    assert [entries][1..] == [];
  }

  /** A directory whose libraries all fail to open or lack the entry point
      adds nothing. */
  lemma FailedDirAddsNothing(existing: seq<Module>, entries: seq<LibOutcome>)
    requires forall i :: 0 <= i < |entries| ==> !entries[i].Loaded?
    ensures OpenModules(existing, [entries]) == (existing, |existing|)
  {
    assert existing + LoadDir(entries) == existing;
  }
}
