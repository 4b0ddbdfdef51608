/** The start-up configuration helpers of the player (src/boxten/config_tool.cpp):
    where the configuration directory is, and the module directories and
    input/output components, with the defaults they store when the
    configuration lacks them. The environment and the configuration document
    are parameters; writing a default is returned as an effect. */
module ConfigTool {
  import opened Wrappers
  import opened JsonTest
  import Configuration
  import Registry
  import Paths

  /** A `set_string_array` on the player's own configuration. */
  datatype Store = Store(key: string, values: seq<string>)

  /** `find_config_dir`: the install prefix, then `XDG_CONFIG_HOME` without
      its first character, or else `HOME` without its first character
      followed by ".config", then "boxten". Dropping the first character
      turns an absolute variable into a path under the prefix. The source
      reads one character past the start of the variable, so it must be
      non-empty, and `HOME` must be set when `XDG_CONFIG_HOME` is not. */
  function FindConfigDir(prefix: string, xdg: Option<string>, home: Option<string>): (r: string)
    requires xdg.Some? ==> |xdg.value| >= 1
    requires xdg.None? ==> home.Some? && |home.value| >= 1
    ensures xdg.Some? ==> r == Paths.Join(Paths.Join(prefix, xdg.value[1..]), "boxten")
    ensures xdg.None? ==> r == Paths.Join(Paths.Join(Paths.Join(prefix, home.value[1..]), ".config"), "boxten")
  {
    var base := if xdg.Some? then Paths.Join(prefix, xdg.value[1..])
                else Paths.Join(Paths.Join(prefix, home.value[1..]), ".config");
    Paths.Join(base, "boxten")
  }

  /** The last join: a base under the prefix gives a directory under the
      prefix ending in "/boxten". */
  lemma BoxtenUnder(prefix: string, base: string)
    requires |base| >= |prefix| + 1 && base[..|prefix|] == prefix
    ensures var r := Paths.Join(base, "boxten");
            |r| >= |prefix| + 7 && r[..|prefix|] == prefix && r[|r| - 7..] == "/boxten"
  {
    var r := Paths.Join(base, "boxten");
    Paths.JoinSeparates(base, "boxten");
    assert ['/'] + "boxten" == "/boxten";
    assert r[..|base|] == base;
    assert r[..|prefix|] == r[..|base|][..|prefix|];
  }

  /** With the usual absolute variables the directory lies under the prefix
      and ends in "/boxten". */
  lemma ConfigDirShape(prefix: string, xdg: Option<string>, home: Option<string>)
    requires xdg.Some? ==> |xdg.value| >= 2 && xdg.value[1] != '/'
    requires xdg.None? ==> home.Some? && |home.value| >= 2 && home.value[1] != '/'
    ensures var r := FindConfigDir(prefix, xdg, home);
            |r| >= |prefix| + 7 && r[..|prefix|] == prefix && r[|r| - 7..] == "/boxten"
  {
    if xdg.Some? {
      var m := Paths.Join(prefix, xdg.value[1..]);
      BoxtenUnder(prefix, m);
    } else {
      var m := Paths.Join(prefix, home.value[1..]);
      var base := Paths.Join(m, ".config");
      Paths.JoinKeepsPrefix(prefix, home.value[1..], ".config");
      BoxtenUnder(prefix, base);
    }
  }

  /** A concrete directory without XDG_CONFIG_HOME. */
  lemma ConfigDirFromHome()
    ensures FindConfigDir("/usr", None, Some("/home/u")) == "/usr/home/u/.config/boxten"
  {
    var h: string := "/home/u";
    assert h[1..] == "home/u";
    var m := Paths.Join("/usr", "home/u");
    assert m == "/usr/home/u" by {
      Paths.JoinOntoFile("/usr", "home/u");
    }
    var c := Paths.Join(m, ".config");
    assert c == "/usr/home/u/.config" by {
      Paths.JoinOntoFile("/usr/home/u", ".config");
    }
    assert Paths.Join(c, "boxten") == "/usr/home/u/.config/boxten" by {
      Paths.JoinOntoFile("/usr/home/u/.config", "boxten");
    }
  }

  /** A concrete directory with XDG_CONFIG_HOME. */
  lemma ConfigDirFromXdg()
    ensures FindConfigDir("/usr", Some("/cfg"), Some("/home/u")) == "/usr/cfg/boxten"
  {
    var x: string := "/cfg";
    assert x[1..] == "cfg";
    Paths.JoinOntoFile("/usr", "cfg");
    Paths.JoinOntoFile("/usr/cfg", "boxten");
  }

  const MODULE_PATH_KEY: string := "module_path"
  const INPUT_KEY: string := "input_component"
  const OUTPUT_KEY: string := "output_component"

  /** `get_module_dirs`: with an array stored under "module_path", append
      its strings to `dirs`; otherwise keep `dirs` and store the default
      `<prefix>/lib/boxten-modules`. `cfg` is the loaded configuration,
      `None` when it could not be read. The function always reports
      success. */
  function GetModuleDirs(cfg: Option<Json>, prefix: string, dirs: seq<string>): (r: (seq<string>, Option<Store>))
    ensures cfg.Some? && TypeCheck(MODULE_PATH_KEY, Array, cfg.value) ==>
              r == (dirs + Configuration.StringsOf(Lookup(cfg.value, MODULE_PATH_KEY).value.items), None)
    ensures !(cfg.Some? && TypeCheck(MODULE_PATH_KEY, Array, cfg.value)) ==>
              r == (dirs, Some(Store(MODULE_PATH_KEY, [Paths.Join(prefix, "lib/boxten-modules")])))
  {
    var stored := if cfg.None? then ([], false) else Configuration.GetStringArray(MODULE_PATH_KEY, [], cfg.value);
    if stored.1 then
      var xs := Configuration.StringsOf(Lookup(cfg.value, MODULE_PATH_KEY).value.items);
      assert stored.0 == [] + xs;
      assert [] + xs == xs;
      (dirs + stored.0, None)
    else (dirs, Some(Store(MODULE_PATH_KEY, [Paths.Join(prefix, "lib/boxten-modules")])))
  }

  /** The shared rule of `get_input_component` and `get_output_component`: a
      stored array with exactly two strings becomes the name; anything else
      keeps `name` and stores the default. */
  function ComponentOrDefault(cfg: Option<Json>, key: string, default: Registry.ComponentName, name: Registry.ComponentName): (r: (Registry.ComponentName, Option<Store>))
    ensures cfg.Some? && Configuration.GetComponentName(key, name, cfg.value).1 ==>
              r == (Configuration.GetComponentName(key, name, cfg.value).0, None)
    ensures !(cfg.Some? && Configuration.GetComponentName(key, name, cfg.value).1) ==>
              r == (name, Some(Store(key, [default.moduleName, default.componentName])))
  {
    var got := if cfg.None? then (name, false) else Configuration.GetComponentName(key, name, cfg.value);
    if got.1 then (got.0, None) else (name, Some(Store(key, [default.moduleName, default.componentName])))
  }

  /** `get_input_component`. */
  function GetInputComponent(cfg: Option<Json>, name: Registry.ComponentName): (r: (Registry.ComponentName, Option<Store>))
    ensures r.1.Some? ==> r.0 == name && r.1.value == Store(INPUT_KEY, ["Wav input module", "Wav input"])
    ensures r.1.None? <==> cfg.Some? && Configuration.GetComponentName(INPUT_KEY, name, cfg.value).1
  {
    ComponentOrDefault(cfg, INPUT_KEY, Registry.ComponentName("Wav input module", "Wav input"), name)
  }

  /** `get_output_component`. */
  function GetOutputComponent(cfg: Option<Json>, name: Registry.ComponentName): (r: (Registry.ComponentName, Option<Store>))
    ensures r.1.Some? ==> r.0 == name && r.1.value == Store(OUTPUT_KEY, ["ALSA output module", "ALSA output"])
    ensures r.1.None? <==> cfg.Some? && Configuration.GetComponentName(OUTPUT_KEY, name, cfg.value).1
  {
    ComponentOrDefault(cfg, OUTPUT_KEY, Registry.ComponentName("ALSA output module", "ALSA output"), name)
  }

  /** Storing the default makes the next read succeed with it: after the
      store the configuration names the default component. */
  lemma DefaultIsReadBack(name: Registry.ComponentName)
    ensures var stored := GetInputComponent(None, name).1.value;
            var doc := JObject([Member(stored.key, JArray([JString(stored.values[0]), JString(stored.values[1])]))]);
            GetInputComponent(Some(doc), name) == (Registry.ComponentName("Wav input module", "Wav input"), None)
  {
    var items := [JString("Wav input module"), JString("Wav input")];
    var doc := JObject([Member(INPUT_KEY, JArray(items))]);
    assert FindKey(doc.members, INPUT_KEY) == Some(0);
    assert Configuration.StringsOf(items) == ["Wav input module", "Wav input"];
  }
}
