/** The package record of the helper and the decisions its methods make
    around network and subprocess calls (package.rs). */
module Packages {
  import opened Wrappers
  import Heading
  import Settings

  /** A repository package: its unique name, the version known for it and
      a display-only description. */
  datatype Package = Package(name: string, version: string, description: string)

  /** `Package::new`, which takes the description before the version. */
  function NewPackage(name: string, description: string, version: string): (p: Package)
    ensures p.name == name && p.description == description && p.version == version
  {
    Package(name, version, description)
  }

  const NoVersionFound: string := "No version found"
  const NoRecentVersion: string := "Couldn't get most recent version"

  /** `Package::check_for_updates` once the package page has been fetched:
      the version in the page heading, verbatim, and whether it differs from
      the known one as a string (no version ordering is involved). */
  function CheckForUpdates(p: Package, page: string): (r: Result<(bool, string), string>)
    ensures r.Failure? <==> Heading.NoMatch(page)
    ensures r.Failure? ==> r.error == NoRecentVersion
    ensures r.Success? ==> Heading.ExtractVersion(page) == Some(r.value.1)
    ensures r.Success? ==> (r.value.0 <==> r.value.1 != p.version)
  {
    match Heading.Capture(page)
    case None => Failure(NoRecentVersion)
    case Some(caps) =>
      match caps.group1
      case Some(g) =>
        var version := page[g.start..g.end];
        Success((version != p.version, version))
      case None => Failure(NoVersionFound)
  }

  /** On a well-formed package page the check reports the page's version
      and flags the package exactly when that differs from the known one. */
  lemma CheckWellFormedPage(p: Package, pre: string, name: string, version: string, post: string)
    requires Heading.OpenFree(pre) && Heading.IsToken(name) && Heading.IsToken(version)
    requires |post| == 0 || post[0] == '\n'
    ensures CheckForUpdates(p, Heading.Page(pre, name, version, post)) == Success((version != p.version, version))
  {
    Heading.WellFormedPage(pre, name, version, post);
  }

  /** The comparison is plain inequality: a page showing a version that
      sorts before the installed one still marks the package outdated. */
  lemma OlderVersionIsFlagged()
    ensures CheckForUpdates(Package("yay", "12.3.5-1", ""),
                            "<h2>Package Details: yay 12.3.4-1</h2>\n") == Success((true, "12.3.4-1"))
  {
    var page := "<h2>Package Details: yay 12.3.4-1</h2>\n";
    assert page == Heading.Page("", "yay", "12.3.4-1", "\n");
    assert Heading.OpenFree("");
    CheckWellFormedPage(Package("yay", "12.3.5-1", ""), "", "yay", "12.3.4-1", "\n");
  }

  /** A heading with nothing after the name does not match at all, since
      `(.+)` needs a character: it is reported as a missing version, not
      through the "No version found" branch. */
  lemma EmptyVersionIsNotFound(p: Package)
    ensures CheckForUpdates(p, "<h2>Package Details: yay </h2>") == Failure(NoRecentVersion)
  {
    var page := "<h2>Package Details: yay </h2>";
    assert |page| == 30 && |Heading.Open| == 21;
    forall s, b, c ensures !Heading.MatchAt(page, s, b, c) {
      if 0 <= s && s + |Heading.Open| < b && b + 1 < c && c + |Heading.Close| <= |page| {
        if b != 24 {
          assert page[b] != ' ';
        }
      }
    }
  }

  /** The directory under the home directory where package sources live. */
  const CacheDir: string := ".cache/aur"

  /** The path `check_if_package_in_cache` probes: the cache path first,
      then the package name appended to it. */
  function PresencePath(home: string, name: string): (path: string)
    ensures |path| == |home| + 1 + |CacheDir| + 1 + |name|
    ensures path[..|home|] == home
    ensures path[|home|..|path| - |name|] == "/.cache/aur/"
    ensures path[|path| - |name|..] == name
  {
    var cachePath := home + "/" + CacheDir;
    var path := cachePath + "/" + name;
    assert path == home + ("/" + CacheDir + "/") + name;
    path
  }

  /** The directory `pull_cached_package` runs `git pull` in, built by a
      single format string; it is the directory the presence check probes. */
  function PullPath(home: string, name: string): (path: string)
    ensures path == PresencePath(home, name)
  {
    home + "/" + CacheDir + "/" + name
  }

  /** `check_if_package_in_cache`, with the paths that exist on disk given. */
  function InCache(home: string, p: Package, existing: set<string>): (r: bool)
    ensures r <==> PullPath(home, p.name) in existing
  {
    PresencePath(home, p.name) in existing
  }

  /** Different packages never share a cache directory. */
  lemma {:induction false} CachePathsAreDistinct(home: string, name1: string, name2: string)
    requires PresencePath(home, name1) == PresencePath(home, name2)
    ensures name1 == name2
  {
    var prefix := home + "/" + CacheDir + "/";
    assert PresencePath(home, name1) == prefix + name1;
    assert PresencePath(home, name2) == prefix + name2;
    assert (prefix + name1)[|prefix|..] == name1;
    assert (prefix + name2)[|prefix|..] == name2;
  }

  /** The cache directory of package.rs is not the one the default
      configuration names (`.cache/aurme/packages`): the two differ right
      after `.cache/aur`. */
  lemma CacheDirIsNotConfiguredCache(home: string, name: string)
    ensures PresencePath(home, name) != home + "/" + Settings.DefaultConfig().cache_path + "/" + name
  {
    var configured := home + "/" + Settings.DefaultConfig().cache_path + "/" + name;
    var i := |home| + 1 + |CacheDir|;
    assert PresencePath(home, name)[i] == '/';
    assert configured[i] == 'm';
  }

  /** An external program the pull step starts: the dependency check, git
      with its arguments in a working directory, or the package build. */
  datatype Command = CheckDependency(tool: string) | Git(args: seq<string>, dir: string) | Makepkg(name: string)

  /** The fixed arguments of the pull: the `master` branch of `origin`. */
  const PullArgs: seq<string> := ["pull", "origin", "master"]

  /** Exit code and captured error output of a finished subprocess. */
  datatype ProcessOutput = ProcessOutput(code: int, stderr: string)

  /** The programs a step started, in order, and what it returned. */
  datatype Run = Run(commands: seq<Command>, result: Result<(), string>)

  /** `pull_cached_package`: check that git is present, pull in the cache
      directory, and build only when the pull exited with 0. `build` is what
      the build step reports when it runs. */
  function PullCachedPackage(home: string, p: Package, pull: ProcessOutput, build: Result<(), string>): (r: Run)
    ensures |r.commands| == if pull.code == 0 then 3 else 2
    ensures r.commands[0] == CheckDependency("git") && r.commands[1] == Git(PullArgs, PresencePath(home, p.name))
    ensures pull.code == 0 ==> r.commands[2] == Makepkg(p.name)
    ensures r.result.Success? <==> pull.code == 0 && build.Success?
    ensures pull.code != 0 ==> r.result == Failure(pull.stderr)
    ensures pull.code == 0 ==> r.result == build
  {
    var started := [CheckDependency("git"), Git(PullArgs, PullPath(home, p.name))];
    if pull.code != 0 then
      Run(started, Failure(pull.stderr))
    else
      Run(started + [Makepkg(p.name)], build)
  }
}
