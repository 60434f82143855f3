/** The user configuration of the helper and how it is loaded (config.rs). */
module Settings {
  import opened Wrappers

  /** How a child process's stream is connected: to the terminal
      (`Stdio::inherit`) or captured (`Stdio::piped`). */
  datatype StreamMode = Inherit | Piped

  /** The settings record; its getters are the field selectors. */
  datatype Config = Config(
    cache_path: string,
    db_path: string,
    keep_cache: bool,
    no_confirm: bool,
    verbose: string)

  /** `Config::get_verbose_config`: the pair of stream modes the verbosity
      setting selects. Any setting other than "verbose" and "quiet" gets the
      default pair, so every string is handled. */
  function VerboseConfig(c: Config): (r: (StreamMode, StreamMode))
    ensures r == (Inherit, Inherit) <==> c.verbose == "verbose"
    ensures r == (Piped, Piped) <==> c.verbose == "quiet"
    ensures r == (Piped, Inherit) <==> c.verbose != "verbose" && c.verbose != "quiet"
    ensures r != (Inherit, Piped)
  {
    match c.verbose
    case "verbose" => (Inherit, Inherit)
    case "quiet" => (Piped, Piped)
    case _ => (Piped, Inherit)
  }

  const DefaultPath: string := ".config/aurme"
  const SettingsFile: string := "config.json"
  const CachePath: string := ".cache/aurme"
  const PackagesCachePath: string := ".cache/aurme/packages"

  /** The configuration `create_default` writes and returns. */
  function DefaultConfig(): (c: Config)
    ensures c.cache_path == ".cache/aurme/packages" && c.db_path == ".cache/aurme"
    ensures c.keep_cache && !c.no_confirm
    ensures c.verbose == "default"
    ensures VerboseConfig(c) == (Piped, Inherit)
  {
    Config(PackagesCachePath, CachePath, true, false, "default")
  }

  /** The folder `create_default` makes sure exists. */
  function SettingsFolder(home: string): string {
    home + "/" + DefaultPath
  }

  /** The settings file `read` looks at: `config.json` inside the folder
      `create_default` creates. */
  function SettingsPath(home: string): (path: string)
    ensures path == SettingsFolder(home) + "/" + SettingsFile
    ensures path == home + "/.config/aurme/config.json"
  {
    home + "/" + DefaultPath + "/" + SettingsFile
  }

  /** What a file holds: the pretty-printed default configuration, or text
      from elsewhere (an older or hand-edited configuration). */
  datatype Contents = DefaultsJson | UserText(text: string)

  /** The part of the file system the load touches. */
  datatype FileSystem = FileSystem(files: map<string, Contents>, dirs: set<string>)

  /** A file system the settings file can come from: the file exists only
      inside an existing settings folder. */
  predicate FolderHoldsFile(home: string, fs: FileSystem) {
    SettingsPath(home) in fs.files ==> SettingsFolder(home) in fs.dirs
  }

  /** A change the load makes to the file system. */
  datatype Effect = CreateDirAll(dir: string) | WriteDefaults(path: string) | Rename(from: string, to: string)

  /** The configuration a load returns, the changes it makes, in order, and
      the warnings it prints. */
  datatype Load = Load(config: Config, effects: seq<Effect>, warnings: seq<string>)

  const UpdatedWarning: string := "Your config file has been updated to the latest version."
  const RenamedWarning: string := "Old config file has been renamed to config.json.old."

  /** `create_default`: create the settings folder when it is missing, then
      write the default configuration to `path` and return it. */
  function CreateDefault(home: string, path: string, fs: FileSystem): (r: Load)
    ensures r.config == DefaultConfig() && r.warnings == []
    ensures |r.effects| > 0 && r.effects[|r.effects| - 1] == WriteDefaults(path)
    ensures CreateDirAll(SettingsFolder(home)) in r.effects <==> SettingsFolder(home) !in fs.dirs
    ensures forall e :: e in r.effects ==> !e.Rename?
  {
    var mkdir := if SettingsFolder(home) in fs.dirs then [] else [CreateDirAll(SettingsFolder(home))];
    Load(DefaultConfig(), mkdir + [WriteDefaults(path)], [])
  }

  /** `read`: a missing settings file gives the defaults (and writes them);
      a file that parses gives its configuration and changes nothing; a file
      that does not parse is moved aside to `config.json.old` and replaced by
      the defaults. `parse` stands for the JSON decoder. */
  function Read(home: string, fs: FileSystem, parse: Contents -> Option<Config>): (r: Load)
    ensures SettingsPath(home) !in fs.files ==>
      r.config == DefaultConfig() && r.warnings == [] && forall e :: e in r.effects ==> !e.Rename?
    ensures SettingsPath(home) in fs.files && parse(fs.files[SettingsPath(home)]).Some? ==>
      r == Load(parse(fs.files[SettingsPath(home)]).value, [], [])
    ensures SettingsPath(home) in fs.files && parse(fs.files[SettingsPath(home)]).None? ==>
      && r.config == DefaultConfig()
      && |r.effects| > 0
      && r.effects[0] == Rename(SettingsPath(home), SettingsFolder(home) + "/config.json.old")
      && r.warnings == [UpdatedWarning, RenamedWarning]
  {
    var path := SettingsPath(home);
    if path !in fs.files then
      CreateDefault(home, path, fs)
    else
      match parse(fs.files[path])
      case Some(config) => Load(config, [], [])
      case None =>
        var defaults := CreateDefault(home, path, fs);
        assert "/" + SettingsFile + ".old" == "/config.json.old";
        assert path + ".old" == SettingsFolder(home) + ("/" + SettingsFile + ".old");
        Load(defaults.config, [Rename(path, path + ".old")] + defaults.effects, [UpdatedWarning, RenamedWarning])
  }

  /** When the settings file sits in its folder and does not parse, the
      load moves it aside and writes the defaults, and creates no folder. */
  lemma MalformedLoadMakesNoFolder(home: string, fs: FileSystem, parse: Contents -> Option<Config>)
    requires FolderHoldsFile(home, fs)
    requires SettingsPath(home) in fs.files && parse(fs.files[SettingsPath(home)]).None?
    ensures Read(home, fs, parse).effects ==
      [Rename(SettingsPath(home), SettingsPath(home) + ".old"), WriteDefaults(SettingsPath(home))]
  {
  }

  function ApplyEffect(fs: FileSystem, e: Effect): FileSystem {
    match e
    case CreateDirAll(dir) => FileSystem(fs.files, fs.dirs + {dir})
    case WriteDefaults(path) => FileSystem(fs.files[path := DefaultsJson], fs.dirs)
    case Rename(from, to) =>
      if from in fs.files then FileSystem((fs.files - {from})[to := fs.files[from]], fs.dirs) else fs
  }

  /** The file system after the given changes, made in order. */
  function Apply(fs: FileSystem, effects: seq<Effect>): FileSystem
    decreases |effects|
  {
    if |effects| == 0 then fs else Apply(ApplyEffect(fs, effects[0]), effects[1..])
  }

  lemma {:induction false} ApplyConcat(fs: FileSystem, a: seq<Effect>, b: seq<Effect>)
    ensures Apply(fs, a + b) == Apply(Apply(fs, a), b)
    decreases |a|
  {
    if |a| > 0 {
      assert (a + b)[1..] == a[1..] + b;
      ApplyConcat(ApplyEffect(fs, a[0]), a[1..], b);
    } else {
      assert a + b == b;
    }
  }

  /** The changes of `create_default` leave the defaults at `path` and
      every other file as it was. */
  lemma CreateDefaultWrites(home: string, path: string, fs: FileSystem, start: FileSystem)
    ensures var after := Apply(start, CreateDefault(home, path, fs).effects);
      && path in after.files && after.files[path] == DefaultsJson
      && forall p :: p in start.files && p != path ==> p in after.files && after.files[p] == start.files[p]
  {
    var effects := CreateDefault(home, path, fs).effects;
    var mkdir := effects[..|effects| - 1];
    assert effects == mkdir + [WriteDefaults(path)];
    ApplyConcat(start, mkdir, [WriteDefaults(path)]);
    var middle := Apply(start, mkdir);
    if |mkdir| > 0 {
      assert mkdir[1..] == [];
    }
    assert middle.files == start.files;
    assert Apply(middle, [WriteDefaults(path)]) == ApplyEffect(middle, WriteDefaults(path));
  }

  /** After a load that did not use the file, the settings file holds the
      defaults, and a file that failed to parse survives unchanged beside
      it as `config.json.old`. */
  lemma ReadKeepsOldFile(home: string, fs: FileSystem, parse: Contents -> Option<Config>)
    ensures var path := SettingsPath(home);
      var after := Apply(fs, Read(home, fs, parse).effects);
      && (path !in fs.files || parse(fs.files[path]).None? ==> path in after.files && after.files[path] == DefaultsJson)
      && (path in fs.files && parse(fs.files[path]).None? ==>
            path + ".old" in after.files && after.files[path + ".old"] == fs.files[path])
      && (path in fs.files && parse(fs.files[path]).Some? ==> after == fs)
  {
    var path := SettingsPath(home);
    var r := Read(home, fs, parse);
    if path !in fs.files {
      CreateDefaultWrites(home, path, fs, fs);
    } else if parse(fs.files[path]).None? {
      var rename := Rename(path, path + ".old");
      var rest := CreateDefault(home, path, fs).effects;
      assert r.effects == [rename] + rest;
      ApplyConcat(fs, [rename], rest);
      var moved := ApplyEffect(fs, rename);
      assert Apply(fs, [rename]) == moved;
      assert |path + ".old"| != |path|;
      assert path + ".old" in moved.files && moved.files[path + ".old"] == fs.files[path];
      CreateDefaultWrites(home, path, fs, moved);
    }
  }

  /** Loading is stable: once a load has made its changes, loading again
      returns the same configuration and changes nothing, provided the JSON
      decoder reads the written defaults back. */
  lemma ReadIsStable(home: string, fs: FileSystem, parse: Contents -> Option<Config>)
    requires parse(DefaultsJson) == Some(DefaultConfig())
    ensures var first := Read(home, fs, parse);
      Read(home, Apply(fs, first.effects), parse) == Load(first.config, [], [])
  {
    ReadKeepsOldFile(home, fs, parse);
  }
}
