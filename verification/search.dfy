/** The `search` command once the search results are in
    (handlers/search.rs): list the results, read one answer, and install at
    most the one package it names. */
module Search {
  import opened Wrappers
  import opened Text
  import Packages
  import Cli

  /** What the answer to the install prompt asks for. */
  datatype Decision =
    | NothingFound      // no results: nothing is listed and nothing asked
    | Quit              // "q" or "quit"
    | Install(index: nat)
    | Invalid           // not a number, 0, or beyond the last number

  /** The words that end the search prompt. Unlike the range prompt, an
      empty answer is not one of them. */
  predicate IsSearchQuit(input: string) {
    input == "q" || input == "quit"
  }

  /** The search handler's reading of the answer `line` for `packages`. */
  function Decide(packages: seq<Packages.Package>, line: string): (d: Decision)
    ensures d == NothingFound <==> |packages| == 0
    ensures d == Quit <==> |packages| > 0 && IsSearchQuit(Trim(line))
    ensures d.Install? ==> d.index < |packages| && ParseUsize(Trim(line)) == Some(d.index + 1)
    ensures d == Invalid <==>
      && |packages| > 0
      && !IsSearchQuit(Trim(line))
      && (ParseUsize(Trim(line)).None? || !(1 <= ParseUsize(Trim(line)).value <= |packages|))
  {
    if |packages| == 0 then NothingFound else Choose(Trim(line), |packages|)
  }

  /** The reading of a trimmed, non-empty answer when `count` results are
      listed. */
  function Choose(input: string, count: nat): (d: Decision)
    ensures d != NothingFound
    ensures d == Quit <==> IsSearchQuit(input)
    ensures d.Install? ==> d.index < count && ParseUsize(input) == Some(d.index + 1)
    ensures d == Invalid <==>
      !IsSearchQuit(input) && (ParseUsize(input).None? || !(1 <= ParseUsize(input).value <= count))
  {
    if IsSearchQuit(input) then Quit
    else
      match ParseUsize(input)
      case Some(i) => if 0 < i <= count then Install(i - 1) else Invalid
      case None => Invalid
  }

  /** What the handler does, in order. */
  datatype Event =
    | NoPackagesFound
    | Show(entry: Cli.Entry)
    | Prompt
    | Clone(package: Packages.Package)
    | Installed
    | InstallError(message: string)
    | OutOfRange

  function Shown(entries: seq<Cli.Entry>): (r: seq<Event>)
    ensures |r| == |entries|
    ensures forall i :: 0 <= i < |r| ==> r[i] == Show(entries[i])
  {
    seq(|entries|, i requires 0 <= i < |entries| => Show(entries[i]))
  }

  /** What follows the prompt for the given decision. */
  function Reply(packages: seq<Packages.Package>, d: Decision, install: Result<(), string>): (r: seq<Event>)
    requires d.Install? ==> d.index < |packages|
  {
    match d
    case NothingFound => []
    case Quit => []
    case Invalid => [OutOfRange]
    case Install(i) => [Clone(packages[i]), InstallOutcome(install)]
  }

  /** `SearchHandler::handle` once `packages` are fetched: `line` is the
      answer typed and `install` what installing reports when it runs. With
      no results only "No packages found" is printed; otherwise the listing
      comes first, then the prompt, then what the answer leads to. */
  function Handle(packages: seq<Packages.Package>, line: string, install: Result<(), string>): (trace: seq<Event>)
    ensures |packages| == 0 ==> trace == [NoPackagesFound]
    ensures |packages| > 0 ==>
      && |trace| > |packages|
      && trace[..|packages|] == Shown(Cli.Listing(packages))
      && trace[|packages|] == Prompt
    ensures Decide(packages, line) == Quit ==> |trace| == |packages| + 1
    ensures Decide(packages, line).Install? ==>
      trace[|packages| + 1..] == [Clone(packages[Decide(packages, line).index]), InstallOutcome(install)]
    ensures Decide(packages, line) == Invalid ==> trace[|packages| + 1..] == [OutOfRange]
  {
    var d := Decide(packages, line);
    var trace := Run(packages, d, install);
    RunShape(packages, d, install);
    trace
  }

  /** What is printed once the installation has run. */
  function InstallOutcome(install: Result<(), string>): Event {
    if install.Success? then Installed else InstallError(install.error)
  }

  /** The events of a run once the answer has been read as `d`. */
  function Run(packages: seq<Packages.Package>, d: Decision, install: Result<(), string>): seq<Event>
    requires d.Install? ==> d.index < |packages|
  {
    if d == NothingFound then [NoPackagesFound]
    else Shown(Cli.Listing(packages)) + [Prompt] + Reply(packages, d, install)
  }

  /** The layout of a run: listing, prompt, and the reply for `d`. */
  lemma RunShape(packages: seq<Packages.Package>, d: Decision, install: Result<(), string>)
    requires d.Install? ==> d.index < |packages|
    ensures d == NothingFound ==> Run(packages, d, install) == [NoPackagesFound]
    ensures d != NothingFound ==>
      var trace := Run(packages, d, install);
      var n := |packages|;
      && |trace| > n
      && trace[..n] == Shown(Cli.Listing(packages))
      && trace[n] == Prompt
      && (d == Quit ==> |trace| == n + 1)
      && (d.Install? ==> trace[n + 1..] == [Clone(packages[d.index]), InstallOutcome(install)])
      && (d == Invalid ==> trace[n + 1..] == [OutOfRange])
  {
    if d != NothingFound {
      var shown := Shown(Cli.Listing(packages));
      var trace := shown + [Prompt] + Reply(packages, d, install);
      assert trace[..|packages|] == shown;
      assert trace[|packages| + 1..] == Reply(packages, d, install);
    }
  }

  /** The handler starts at most one installation, and only of the package
      the answer names; quitting, an invalid answer and an empty result
      start none. */
  lemma AtMostOneInstall(packages: seq<Packages.Package>, line: string, install: Result<(), string>)
    ensures var trace := Handle(packages, line, install);
      && (forall i, j :: 0 <= i < |trace| && 0 <= j < |trace| && trace[i].Clone? && trace[j].Clone? ==> i == j)
      && (forall e :: e in trace && e.Clone? ==>
            Decide(packages, line).Install? && e.package == packages[Decide(packages, line).index])
  {
    RunClones(packages, Decide(packages, line), install);
  }

  /** A run holds at most one `Clone`, of the package the decision
      selects. */
  lemma RunClones(packages: seq<Packages.Package>, d: Decision, install: Result<(), string>)
    requires d.Install? ==> d.index < |packages|
    ensures var trace := Run(packages, d, install);
      && (forall i, j :: 0 <= i < |trace| && 0 <= j < |trace| && trace[i].Clone? && trace[j].Clone? ==> i == j)
      && (forall e :: e in trace && e.Clone? ==> d.Install? && e.package == packages[d.index])
  {
    if d != NothingFound {
      var shown := Shown(Cli.Listing(packages));
      var reply := Reply(packages, d, install);
      ReplyClones(packages, d, install);
      ClonesComeFromReply(shown, reply);
    }
  }

  /** A reply holds a `Clone` only as its first event, and only of the
      package the decision selects. */
  lemma ReplyClones(packages: seq<Packages.Package>, d: Decision, install: Result<(), string>)
    requires d.Install? ==> d.index < |packages|
    ensures var reply := Reply(packages, d, install);
      && (forall k :: 0 < k < |reply| ==> !reply[k].Clone?)
      && (|reply| > 0 && reply[0].Clone? ==> d.Install? && reply[0] == Clone(packages[d.index]))
  {
  }

  /** In a trace of shown entries, the prompt and a reply, every `Clone`
      is the first event of the reply. */
  lemma ClonesComeFromReply(shown: seq<Event>, reply: seq<Event>)
    requires forall k :: 0 <= k < |shown| ==> shown[k].Show?
    requires forall k :: 0 < k < |reply| ==> !reply[k].Clone?
    ensures var trace := shown + [Prompt] + reply;
      forall i :: 0 <= i < |trace| && trace[i].Clone? ==> i == |shown| + 1 && trace[i] == reply[0]
  {
    var trace := shown + [Prompt] + reply;
    forall i | 0 <= i < |trace| && trace[i].Clone?
      ensures i == |shown| + 1 && trace[i] == reply[0]
    {
      TraceAt(shown, reply, i);
    }
  }

  /** Where an event of a trace of shown entries, the prompt and a reply
      comes from. */
  lemma TraceAt(shown: seq<Event>, reply: seq<Event>, i: int)
    requires 0 <= i < |shown| + 1 + |reply|
    ensures i < |shown| ==> (shown + [Prompt] + reply)[i] == shown[i]
    ensures i == |shown| ==> (shown + [Prompt] + reply)[i] == Prompt
    ensures i > |shown| ==> (shown + [Prompt] + reply)[i] == reply[i - |shown| - 1]
  {
  }

  /** Prompting happens exactly when the search found something. */
  lemma PromptOnlyWithResults(packages: seq<Packages.Package>, line: string, install: Result<(), string>)
    ensures Prompt in Handle(packages, line, install) <==> |packages| > 0
  {
  }

  /** Typing the number shown beside a package selects that package, which
      `Handle` then clones. */
  lemma {:induction false} TypingLabelInstalls(packages: seq<Packages.Package>, k: nat)
    requires k < |packages| <= USIZE_MAX
    ensures var e := Cli.Listing(packages)[|packages| - 1 - k];
      && e.number == k + 1
      && e.name == packages[k].name
      && Decide(packages, NatToString(k + 1) + "\n") == Install(k)
  {
    Cli.ListingShows(packages, k);
    TypedNumberSelects(packages, k + 1);
  }

  /** A number from 1 to the number of results, typed and followed by a
      newline, selects the package at the index one below it. */
  lemma TypedNumberSelects(packages: seq<Packages.Package>, n: nat)
    requires 1 <= n <= |packages| <= USIZE_MAX
    ensures Decide(packages, NatToString(n) + "\n") == Install(n - 1)
  {
    var digits := NatToString(n);
    Cli.NumberLineTrims(digits);
    assert !IsSearchQuit(digits) by {
      assert IsDigit(digits[0]);
    }
  }

  /** An empty answer is not a quit here: it is rejected as invalid. */
  lemma EmptyAnswerIsInvalid(packages: seq<Packages.Package>)
    requires |packages| > 0
    ensures Decide(packages, "\n") == Invalid
  {
    TrimPadded("", "", "\n");
  }
}
