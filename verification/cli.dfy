/** The prompts and listings of the command line (cli.rs), without colour:
    which answers they accept and which lines and labels they print. */
module Cli {
  import opened Wrappers
  import opened Text
  import Packages

  /** `get_yes_no` on the line the user typed: yes exactly when the trimmed
      answer is empty (the default), "y" or "Y"; "yes" is a no. */
  function GetYesNo(line: string): (yes: bool)
    ensures yes <==> IsTrimOf(line, "") || IsTrimOf(line, "y") || IsTrimOf(line, "Y")
  {
    TrimCharacterized(line, "");
    TrimCharacterized(line, "y");
    TrimCharacterized(line, "Y");
    var input := Trim(line);
    input == "" || input == "y" || input == "Y"
  }

  /** Only the text between the surrounding whitespace decides: an empty
      answer, "y" or "Y" accept, and anything else, "yes" included,
      declines. */
  lemma YesNoOnPaddedAnswer(pre: string, answer: string, post: string)
    requires AllWhitespace(pre) && AllWhitespace(post)
    requires |answer| > 0 ==> !IsWhitespace(answer[0]) && !IsWhitespace(answer[|answer| - 1])
    ensures GetYesNo(pre + answer + post) <==> answer == "" || answer == "y" || answer == "Y"
  {
    TrimPadded(pre, answer, post);
  }

  /** A number typed and ended with return trims to its digits. */
  lemma NumberLineTrims(digits: string)
    requires |digits| > 0 && AllDigits(digits)
    ensures Trim(digits + "\n") == digits
  {
    assert AllWhitespace("\n");
    assert IsDigit(digits[0]) && IsDigit(digits[|digits| - 1]);
    TrimPadded("", digits, "\n");
    assert "" + digits + "\n" == digits + "\n";
  }

  /** The answers that end a range prompt without a value. */
  predicate IsRangeQuit(input: string) {
    input == "q" || input == "quit" || input == ""
  }

  /** The error `usize::from_str` reports for an answer that is not a
      number; its kind and message are not modelled. */
  datatype InputError = NotANumber

  /** `get_value_from_range` on the line the user typed. `min` and `max`
      are shown in the prompt only: the value is not checked against them. */
  function GetValueFromRange(line: string, min: nat, max: nat): (r: Result<Option<nat>, InputError>)
    ensures IsRangeQuit(Trim(line)) <==> r == Success(None)
    ensures r.Success? && r.value.Some? ==> ParseUsize(Trim(line)) == Some(r.value.value)
    ensures r.Failure? <==> !IsRangeQuit(Trim(line)) && ParseUsize(Trim(line)).None?
  {
    var input := Trim(line);
    if IsRangeQuit(input) then
      Success(None)
    else
      match ParseUsize(input)
      case Some(n) => Success(Some(n))
      case None => Failure(NotANumber)
  }

  /** Digits typed at a range prompt come back as their value, whatever the
      range shown, so a value above `max` is returned as it is. */
  lemma {:induction false} RangeIsNotEnforced(n: nat, min: nat, max: nat)
    requires n <= USIZE_MAX
    ensures GetValueFromRange(NatToString(n) + "\n", min, max) == Success(Some(n))
  {
    var digits := NatToString(n);
    NumberLineTrims(digits);
    assert !IsRangeQuit(digits) by {
      assert IsDigit(digits[0]);
    }
  }

  /** One entry of a package listing: the number shown before the bar, the
      package name and its description. */
  datatype Entry = Entry(number: nat, name: string, description: string)

  /** The entries `print_top_packages` prints, top to bottom: the list is
      walked backwards and numbered from its length down, so the package at
      index `k` is shown as number `k + 1`, highest number first. */
  function Listing(packages: seq<Packages.Package>): (r: seq<Entry>)
    ensures |r| == |packages|
    ensures forall i :: 0 <= i < |r| ==> r[i].number == |packages| - i
    ensures forall k :: 0 <= k < |packages| ==>
      r[|packages| - 1 - k] == Entry(k + 1, packages[k].name, packages[k].description)
    decreases |packages|
  {
    if |packages| == 0 then []
    else
      var last := packages[|packages| - 1];
      [Entry(|packages|, last.name, last.description)] + Listing(packages[..|packages| - 1])
  }

  /** The package at index `k` is listed under number `k + 1`: the
      instance of `Listing`'s contract that one package needs, stated on
      its own so that proofs about that package need not instantiate the
      whole listing. */
  lemma ListingShows(packages: seq<Packages.Package>, k: nat)
    requires k < |packages|
    ensures var e := Listing(packages)[|packages| - 1 - k];
      e.number == k + 1 && e.name == packages[k].name && e.description == packages[k].description
  {
  }

  /** Labels run from the length of the list down to 1 without a gap. */
  lemma ListingLabelsDescend(packages: seq<Packages.Package>)
    ensures var r := Listing(packages);
      && (forall i, j :: 0 <= i < j < |r| ==> r[i].number > r[j].number)
      && (forall i :: 0 <= i < |r| ==> 1 <= r[i].number <= |packages|)
  {
  }

  /** The bar printed between an entry's number and its name. */
  const Bar: string := " \U{2503} "

  /** The text printed for an entry: a blank line, the number and a bar,
      the name, and the description on the next line, indented. */
  function EntryText(e: Entry): (t: string)
    ensures var digits := NatToString(e.number);
      && |t| == 1 + |digits| + |Bar| + |e.name| + 3 + |e.description|
      && t[..1 + |digits| + |Bar|] == "\n" + digits + Bar
      && t[1 + |digits| + |Bar|..|t| - 3 - |e.description|] == e.name
      && t[|t| - 3 - |e.description|..] == "\n  " + e.description
  {
    var head := "\n" + NatToString(e.number) + Bar;
    var tail := "\n  " + e.description;
    var t := head + e.name + tail;
    assert t[..|head|] == head;
    assert t[|head|..|t| - |tail|] == e.name;
    assert t[|t| - |tail|..] == tail;
    t
  }

  /** The digits after the leading blank line of an entry read back as
      its number. */
  lemma EntryNumberReadsBack(e: Entry)
    requires e.number <= USIZE_MAX
    ensures ParseUsize(EntryText(e)[1..1 + |NatToString(e.number)|]) == Some(e.number)
  {
    var digits := NatToString(e.number);
    var head := "\n" + digits + Bar;
    var t := EntryText(e);
    assert t[..|head|] == head;
    assert t[1..1 + |digits|] == head[1..1 + |digits|] == digits;
  }

  /** The text shown for `packages[k]` begins with the number `k + 1` and
      the bar, then gives the package's name and, indented on the next
      line, its description. */
  lemma ListedText(packages: seq<Packages.Package>, k: nat)
    requires k < |packages|
    ensures var t := EntryText(Listing(packages)[|packages| - 1 - k]);
      var head := "\n" + NatToString(k + 1) + Bar;
      var tail := "\n  " + packages[k].description;
      && |head| + |tail| <= |t|
      && t[..|head|] == head
      && t[|head|..|t| - |tail|] == packages[k].name
      && t[|t| - |tail|..] == tail
  {
    ListingShows(packages, k);
  }

  /** The header line of `print_outdated_packages`. */
  function OutdatedHeader(count: nat): string {
    "Packages (" + NatToString(count) + ") "
  }

  /** The line shown for one outdated package: its name, the installed
      version and the repository's version. */
  function OutdatedLine(local: Packages.Package, remote: Packages.Package): string {
    "   " + local.name + " (" + local.version + " -> " + remote.version + ")"
  }

  function OutdatedLines(pairs: seq<(Packages.Package, Packages.Package)>): (lines: seq<string>)
    ensures |lines| == |pairs|
    ensures forall k :: 0 <= k < |pairs| ==> lines[k] == OutdatedLine(pairs[k].0, pairs[k].1)
    decreases |pairs|
  {
    if |pairs| == 0 then []
    else [OutdatedLine(pairs[0].0, pairs[0].1)] + OutdatedLines(pairs[1..])
  }

  /** `print_outdated_packages`: a header counting the pairs, then one line
      per pair in the order given. */
  function OutdatedReport(pairs: seq<(Packages.Package, Packages.Package)>): (lines: seq<string>)
    ensures |lines| == |pairs| + 1
    ensures lines[0] == OutdatedHeader(|pairs|)
    ensures |pairs| <= USIZE_MAX ==> ParseUsize(lines[0][|"Packages ("|..|lines[0]| - |") "|]) == Some(|pairs|)
    ensures forall k :: 0 <= k < |pairs| ==> lines[k + 1] == OutdatedLine(pairs[k].0, pairs[k].1)
  {
    var header := OutdatedHeader(|pairs|);
    assert header[|"Packages ("|..|header| - |") "|] == NatToString(|pairs|);
    [header] + OutdatedLines(pairs)
  }
}
