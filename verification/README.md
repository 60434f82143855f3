# aur helper: decision layer

A Dafny model of the pure decisions inside a small command-line helper for
the Arch User Repository (AUR), written in Rust. The helper fetches package
pages, reads the published version out of the page heading, decides whether
an installed package is outdated, pulls and builds cached package sources,
asks the user yes/no and numbered-choice questions, and loads its JSON
configuration. Network, subprocess, terminal and file-system calls are not
modelled. Their outcomes are parameters: the fetched page text, a process
exit code and error output, the typed line, the set of existing files, and
the JSON decoder's verdict. Their side effects are returned as ordered
traces: programs started, events shown, file-system changes made.

Modules, one per concern:

- `Wrappers`: `Option` and `Result`.
- `Text`: Rust's `str::trim` (Unicode White_Space at both ends) and
  `usize::from_str` (optional `+`, ASCII digits, 64-bit bound). Both have a
  reference definition and an independent characterisation or algorithm
  proved equal to it. Also the decimal rendering of numbers.
- `Heading`: the regular expression `<h2>Package Details: [^<]+ (.+)</h2>`
  with the leftmost-first semantics of Rust's `regex` crate. The match is
  defined declaratively (`MatchAt`, `LeftmostFirst`), and a search is proved
  to find exactly it.
- `Packages` (src/package.rs): the package record, the version check, the
  cache paths and the pull-then-build decision.
- `Cli` (src/cli.rs): yes/no and range prompts, numbered listings and the
  outdated report.
- `Search` (src/handlers/search.rs): the search command after the results
  arrive.
- `Settings` (src/config.rs): the configuration record, stream modes,
  defaults, settings path and the three-way load.

The getters of `Package` and `Config` are the datatypes' field selectors.
`Packages.NewPackage` states the argument order of `Package::new`.

Three facts about the code that a reader might not expect:

- package.rs:47-49 has a `No version found` branch that cannot be reached:
  group 1 is mandatory and `.+` needs at least one character, so every
  match has a group 1. A heading with an empty version does not match at
  all and gives `Couldn't get most recent version`
  (`Packages.EmptyVersionIsNotFound`).
- package.rs:57 hard-codes the cache root `<home>/.cache/aur`, while
  config.rs:96 names `.cache/aurme/packages` as the configured cache path
  (`Packages.CacheDirIsNotConfiguredCache`).
- config.rs:49 maps every verbosity setting other than `verbose` and
  `quiet`, `default` included, to (piped, inherit).

## Model

| member | source | states |
|---|---|---|
| `Text.Trim` | src/cli.rs:37 | The trimmed answer is exactly the input with its leading and trailing whitespace removed: a whitespace prefix and suffix are cut, and the result neither starts nor ends with whitespace |
| `Text.TrimCharacterized` | src/cli.rs:64 | `Trim` returns a text exactly when that text is the input with only surrounding whitespace removed (both directions); this description fixes the trimmed text uniquely |
| `Text.ParseUsize` | src/cli.rs:70 | A parsed answer is at most 2^64-1, and only a non-empty all-digit string (after one optional `+`) parses |
| `Text.ParseUsizeChecked` | src/handlers/search.rs:47 | The digit-by-digit parse with checked multiply and add succeeds exactly when the reference definition accepts, and returns the same value |
| `Text.NatToString` | src/handlers/search.rs:29 | The printed number is a non-empty digit string without a leading zero that denotes the number, and `usize` parsing reads it back as the same number |
| `Heading.LeftmostFirstIsUnique` | src/package.rs:41 | At most one match satisfies the leftmost-first rule, so the engine's answer is fixed by the page alone |
| `Heading.Capture` | src/package.rs:39-42 | When the pattern matches, group 1 is always present and non-empty, and it comes from the leftmost match with the longest `[^<]+` and then the longest `(.+)`; there is no capture exactly when the pattern matches nowhere |
| `Heading.ExtractVersion` | src/package.rs:42-45 | The extracted version is the group-1 text of the leftmost-first match, is non-empty and contains no line break |
| `Heading.CaptureOfLeftmostFirst` | src/package.rs:41 | Any leftmost-first match of the pattern is the one reported: its whole span and its group 1 are the captures |
| `Heading.VersionOfLeftmostFirst` | src/package.rs:41-45 | The extracted version is exactly the group-1 text of any leftmost-first match |
| `Heading.HeadingIsLeftmostFirst` | src/package.rs:41 | On a well-formed page the package heading is the leftmost-first match, and its group 1 spans exactly the version |
| `Heading.WellFormedPage` | src/package.rs:39-46 | On a page whose heading has a name and version free of spaces, `<` and line breaks on one line, with no earlier heading, the extracted version is exactly that version |
| `Packages.NewPackage` | src/package.rs:15-33 | The getters return the constructor's arguments unchanged, though the description is passed before the version |
| `Packages.CheckForUpdates` | src/package.rs:35-53 | The check fails exactly when the heading pattern matches nowhere, and then only with "Couldn't get most recent version"; on success it returns the captured version verbatim and flags the package exactly when that string differs from the known version |
| `Packages.CheckWellFormedPage` | src/package.rs:39-46 | On a well-formed page the check yields (version differs from local, version) |
| `Packages.OlderVersionIsFlagged` | src/package.rs:44 | For example, a page showing `12.3.4-1` for an installed `12.3.5-1` marks the package outdated although the page version is the older one: the comparison is string inequality |
| `Packages.EmptyVersionIsNotFound` | src/package.rs:47-52 | For example, the heading `<h2>Package Details: yay </h2>`, whose version is empty, is reported as "Couldn't get most recent version", not as "No version found" |
| `Packages.PresencePath` | src/package.rs:56-58 | The probed path is the home directory, then `/.cache/aur/`, then the package name, with nothing else between or after |
| `Packages.PullPath` | src/package.rs:64-69 | The directory the pull runs in is the same path the presence check probes, `<home>/.cache/aur/<name>` |
| `Packages.InCache` | src/package.rs:55-61 | A package counts as cached exactly when the directory its pull would use exists |
| `Packages.CachePathsAreDistinct` | src/package.rs:56-58 | Two packages with different names never share a cache path string |
| `Packages.CacheDirIsNotConfiguredCache` | src/package.rs:56-57 | The cache directory probed for a package is never the one under the default configuration's cache path |
| `Packages.PullCachedPackage` | src/package.rs:63-90 | Exactly these programs start, in order: the check for git, then `git pull origin master` in the package's cache directory, then, only when the pull exits with 0, the build of that package. A non-zero exit returns the pull's error output; exit 0 returns the build's result |
| `Cli.GetYesNo` | src/cli.rs:30-40 | The answer is yes exactly when the typed line, stripped of surrounding whitespace, is empty, `y` or `Y` |
| `Cli.YesNoOnPaddedAnswer` | src/cli.rs:37-39 | Whatever whitespace surrounds the answer, it accepts exactly when the answer itself is empty, `y` or `Y`; `yes` and every other answer decline |
| `Cli.GetValueFromRange` | src/cli.rs:53-71 | `q`, `quit` and an empty answer give no value; any other answer gives its value when it parses as a `usize` and an error exactly when it does not |
| `Cli.RangeIsNotEnforced` | src/cli.rs:58 | A number typed at a range prompt is returned as it is, whatever `min` and `max` the prompt showed, even when it exceeds `max` |
| `Cli.Listing` | src/cli.rs:42-51 | Entries come out in reverse list order, numbered from the length down; the package at index `k` is shown with its name, its description and number `k + 1` |
| `Cli.ListingShows` | src/cli.rs:43-48 | The package at index `k` is listed under number `k + 1` with its own name and description |
| `Cli.EntryText` | src/cli.rs:44-49 | An entry prints as a blank line, its number, the bar `┃`, the name, then the description on the next line after two spaces, with nothing else added |
| `Cli.EntryNumberReadsBack` | src/cli.rs:46 | The digits printed at the start of an entry read back as its number |
| `Cli.ListedText` | src/handlers/search.rs:26-33 | The text printed for `packages[k]` starts with `k + 1` and the bar, then names `packages[k]` and gives its description |
| `Cli.ListingLabelsDescend` | src/cli.rs:43-46 | Numbers strictly decrease down the listing and stay within 1 to the number of packages |
| `Cli.OutdatedLines` | src/cli.rs:20-27 | One line per pair, in the order given, showing the local name, the local version and the remote version |
| `Cli.OutdatedReport` | src/cli.rs:11-28 | The report is a header plus one line per pair, and the count in the header reads back as the number of pairs |
| `Search.Decide` | src/handlers/search.rs:19-60 | An empty result list ends the command; `q` or `quit` quits; an answer installs the package at index `i - 1` when it parses as `i` with 1 <= i <= length; every other answer is invalid |
| `Search.Handle` | src/handlers/search.rs:19-60 | No results print only "No packages found". Otherwise the listing of all results comes first, in `Cli.Listing` order, then the prompt. A quit ends the run there; a selection clones that package and then reports the installation's success or its error; any other answer prints the out-of-range warning and nothing else |
| `Search.AtMostOneInstall` | src/handlers/search.rs:49-60 | At most one package is installed per run, and only the one the answer selects; quitting and invalid answers install nothing |
| `Search.PromptOnlyWithResults` | src/handlers/search.rs:19-35 | The install prompt appears exactly when the search found packages |
| `Search.TypingLabelInstalls` | src/handlers/search.rs:26-51 | `packages[k]` is listed under the number `k + 1`, and typing that number selects `packages[k]` for installation, which `Handle` then clones |
| `Search.TypedNumberSelects` | src/handlers/search.rs:41-49 | Typing any number from 1 to the count of results, then return, selects the result at the index one below it |
| `Search.EmptyAnswerIsInvalid` | src/handlers/search.rs:41-47 | An empty answer is not a quit keyword at the search prompt; it is rejected as invalid |
| `Settings.VerboseConfig` | src/config.rs:42-51 | `verbose` gives (inherit, inherit), `quiet` gives (piped, piped), every other setting gives (piped, inherit), and (inherit, piped) never occurs |
| `Settings.DefaultConfig` | src/config.rs:95-101 | The defaults are cache `.cache/aurme/packages`, database `.cache/aurme`, keep the cache, ask for confirmation, verbosity `default` (so piped, inherit) |
| `Settings.SettingsPath` | src/config.rs:55-60 | The settings file is `<home>/.config/aurme/config.json`, inside the folder that `create_default` creates |
| `Settings.CreateDefault` | src/config.rs:91-108 | The defaults are returned and written to the given path as the last change; the settings folder is created first exactly when it is missing; nothing is renamed |
| `Settings.Read` | src/config.rs:54-89 | A missing file gives the defaults without renaming anything; a file that parses gives its configuration and changes nothing; a file that fails to parse is first renamed to `config.json.old` with two warnings, then the defaults are returned |
| `Settings.MalformedLoadMakesNoFolder` | src/config.rs:72-88 | When the settings file sits in its existing folder and fails to parse, the load renames it to `<path>.old` and then writes the defaults, and makes no other change |
| `Settings.ReadKeepsOldFile` | src/config.rs:86-88 | After a load that did not use the file, the settings file holds the defaults, and an unparsable file survives unchanged as `<path>.old` |
| `Settings.ReadIsStable` | src/config.rs:63-70 | If the JSON decoder reads the written defaults back, a second load after the first returns the same configuration and changes nothing |

## Left out

- Network retrieval of package pages (`helpers::fetch`, the `.await`, and the panic on a failed fetch): the page text is a parameter.
- `check_dependency`, `makepkg`, `clone_package` and `get_top_packages` belong to a helpers file that is not part of this model. Each call is a trace entry. The outcomes of `makepkg`, `clone_package` and `get_top_packages` are parameters; the outcome of `check_dependency` is ignored by the code and therefore by the model.
- The `.output().unwrap()` of the git command panics when git cannot be started. The model takes the pull as always started.
- `status.code().unwrap()` panics when git is killed by a signal. The model takes the exit code as always present.
- `String::from_utf8_lossy` on git's error output: the model takes that output as text already.
- `Packages.CheckForUpdates`: Rust's regex reports byte offsets into UTF-8. The model indexes characters, which yields the same text.
- The panics of `home_dir().unwrap()`, of the `flush().unwrap()` and `read_line(..).unwrap()` in `get_yes_no` and the search handler, and of `read_to_string`, `rename`, `create_dir_all` and `write` in config.rs. The home directory is a parameter, and all of these calls are taken to succeed.
- `Cli.GetValueFromRange`: `stdout().flush()?` and `stdin().read_line(..)?` return an `Err` on a failed write or read, or on input that is not UTF-8. These I/O errors are not modelled, because the typed line is a parameter; the model's error case covers only an answer that does not parse.
- `Settings.Read`: `fs::metadata` can fail for reasons other than a missing file, and a directory can sit at the settings path. Neither is modelled: the model reads existence from the file map.
- `Settings.Read`: the warnings and the file-system changes are returned as two separate sequences, so the model does not record that both warnings print before the rename.
- `Settings.FileSystem` can describe a settings file whose folder is missing, which a real file system cannot. `Settings.Read` then emits a folder creation that `fs::metadata` would not cause. `Settings.FolderHoldsFile` names the real states, and `Settings.MalformedLoadMakesNoFolder` holds under it.
- `serde_json` decoding and pretty printing are a foreign library. Decoding is a function parameter. The written defaults are an abstract `DefaultsJson` content.
- `Settings.ReadIsStable`: the round trip of the default configuration through `serde_json` is assumed in its requires, not proved.
- Colour (`theme::colorize`) and the prompt texts (`[Y/n]:`, `(min-max) or (q)uit:`, and `Install package(s) (1-10) or (q)uit:`, which says 1-10 whatever the number of results) are terminal output. The model keeps which numbers, names and versions are shown, not the escape codes.
- `Cli.GetValueFromRange`: the error does not say whether the input was empty, had a bad digit or overflowed. The boxed `ParseIntError` message is not modelled, and no caller here looks at it.
- `usize` is taken to be 64 bits wide, as on the targets the helper is built for.
- `clap` argument handling, the `CommandHandler` trait and the async plumbing are not modelled.
- The update driver, with its batch check over installed packages, concurrent fetching, `keep_cache` cleanup and clone-or-pull choice, lives in files that are not part of this model.
