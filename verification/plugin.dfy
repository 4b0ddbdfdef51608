/** Component bookkeeping shared by every plugin (src/libboxten/plugin.cpp):
    construction from the lookup's parameter, the console prefix, the cached
    resource directory and the teardown a destroyed component performs. */
module Plugin {
  import opened Wrappers
  import Registry
  import EventHook
  import Paths

  /** `build_console_prefix`: the name in brackets followed by a space. */
  function BuildConsolePrefix(name: string): (r: string)
    ensures |r| == |name| + 3
    ensures r[0] == '[' && r[1..|name| + 1] == name && r[|name| + 1..] == "] "
  {
    "[" + name + "] "
  }

  datatype Component = Component(
    id: EventHook.ComponentId,
    name: Registry.ComponentName,
    kind: Registry.ComponentType,
    resourceDir: string,
    consolePrefix: string)

  /** The `Component` constructor: name and type from the construction
      parameter, console prefix from the module name, no resource directory
      yet. `id` stands for the object's address. */
  function Construct(id: EventHook.ComponentId, p: Registry.ConstructionParam): (r: Component)
    ensures r.id == id
    ensures r.name.moduleName == p.moduleName && r.name.componentName == p.info.name
    ensures r.kind == p.info.kind
    ensures r.resourceDir == ""
    ensures r.consolePrefix == BuildConsolePrefix(p.moduleName)
  {
    Component(id, Registry.ComponentName(p.moduleName, p.info.name), p.info.kind, "",
              BuildConsolePrefix(p.moduleName))
  }

  /** `get_resource_dir`: on first use, the data directory joined with the
      module name, remembered for later calls. `dataDir` is the build's
      `DATADIR`. */
  function GetResourceDir(c: Component, dataDir: string): (r: (Component, string))
    ensures c.resourceDir != "" ==> r == (c, c.resourceDir)
    ensures c.resourceDir == "" ==> r.1 == Paths.Join(dataDir, c.name.moduleName)
    ensures r.0.resourceDir == r.1
    ensures r.0 == c.(resourceDir := r.0.resourceDir)
  {
    if c.resourceDir != "" then (c, c.resourceDir)
    else
      var dir := Paths.Join(dataDir, c.name.moduleName);
      (c.(resourceDir := dir), dir)
  }

  /** Every call after the first returns the first call's directory and
      changes nothing. */
  lemma ResourceDirCached(c: Component, dataDir: string)
    ensures var first := GetResourceDir(c, dataDir);
            GetResourceDir(first.0, dataDir) == (first.0, first.1)
  {
  }

  /** What tearing a component down does, in order. */
  datatype Teardown = CleanupPrivateData(input: EventHook.ComponentId) | UninstallHooks(owner: EventHook.ComponentId) | DecrementCount

  /** The destructors: a stream input first has its private data cleaned up
      (`StreamInput::~StreamInput`), then every component uninstalls its
      hooks and calls its decrement callback (`Component::~Component`). The
      result is the hook list afterwards and the teardown steps. */
  function Destroy(c: Component, hooks: seq<EventHook.Installed>): (r: (seq<EventHook.Installed>, seq<Teardown>))
    ensures forall i :: 0 <= i < |r.0| ==> r.0[i].component != c.id
    ensures forall h :: h in hooks && h.component != c.id ==> h in r.0
    ensures |r.1| >= 2 && r.1[|r.1| - 1] == DecrementCount && r.1[|r.1| - 2] == UninstallHooks(c.id)
    ensures forall i :: 0 <= i < |r.1| - 1 ==> r.1[i] != DecrementCount
    ensures c.kind == Registry.StreamInput <==> CleanupPrivateData(c.id) in r.1
    ensures r.0 == EventHook.Without(hooks, c.id)
    ensures |r.1| == (if c.kind == Registry.StreamInput then 3 else 2)
  {
    EventHook.WithoutMembers(hooks, c.id);
    var base := [UninstallHooks(c.id), DecrementCount];
    (EventHook.Without(hooks, c.id),
     if c.kind == Registry.StreamInput then [CleanupPrivateData(c.id)] + base else base)
  }

  /** `StreamOutput::output_delay` unless an output overrides it. */
  const DEFAULT_OUTPUT_DELAY: nat := 0

  /** The delay an output reports: its override when it has one, otherwise
      the default of no delay. */
  function OutputDelay(overridden: Option<nat>): (r: nat)
    ensures overridden.None? ==> r == DEFAULT_OUTPUT_DELAY && r == 0
    ensures overridden.Some? ==> r == overridden.value
  {
    if overridden.Some? then overridden.value else DEFAULT_OUTPUT_DELAY
  }
}
