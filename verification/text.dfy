/** The two pieces of Rust's standard library that every prompt of the tool
    goes through: `str::trim` and `usize::from_str`, plus the decimal
    rendering `format!("{}", n)` uses for the numbers the tool prints. */
module Text {
  import opened Wrappers

  /** Largest value of `usize` on the 64-bit targets the tool is built for. */
  const USIZE_MAX: nat := 0xFFFF_FFFF_FFFF_FFFF

  /** The Unicode White_Space property, which `char::is_whitespace` and
      therefore `str::trim` use. */
  predicate IsWhitespace(c: char) {
    || c == ' ' || '\t' <= c <= '\r'
    || c == '\U{85}' || c == '\U{A0}' || c == '\U{1680}'
    || '\U{2000}' <= c <= '\U{200A}'
    || c == '\U{2028}' || c == '\U{2029}' || c == '\U{202F}'
    || c == '\U{205F}' || c == '\U{3000}'
  }

  predicate AllWhitespace(s: string) {
    forall k :: 0 <= k < |s| ==> IsWhitespace(s[k])
  }

  /** `t` is the text of `s` strictly between a whitespace prefix and a
      whitespace suffix, starting at offset `i`. */
  predicate TrimmedAt(s: string, t: string, i: int) {
    && 0 <= i && i + |t| <= |s|
    && s[i..i + |t|] == t
    && AllWhitespace(s[..i])
    && AllWhitespace(s[i + |t|..])
  }

  /** `t` is what `str::trim` makes of `s`: `s` with every leading and
      trailing whitespace character removed and nothing else. */
  ghost predicate IsTrimOf(s: string, t: string) {
    && (|t| > 0 ==> !IsWhitespace(t[0]) && !IsWhitespace(t[|t| - 1]))
    && exists i :: TrimmedAt(s, t, i)
  }

  function TrimStart(s: string): (r: string)
    ensures |r| <= |s| && r == s[|s| - |r|..]
    ensures AllWhitespace(s[..|s| - |r|])
    ensures |r| > 0 ==> !IsWhitespace(r[0])
    decreases |s|
  {
    if |s| > 0 && IsWhitespace(s[0]) then
      var r := TrimStart(s[1..]);
      assert s[..|s| - |r|] == [s[0]] + s[1..][..|s| - 1 - |r|];
      r
    else
      s
  }

  function TrimEnd(s: string): (r: string)
    ensures |r| <= |s| && r == s[..|r|]
    ensures AllWhitespace(s[|r|..])
    ensures |r| > 0 ==> !IsWhitespace(r[|r| - 1])
    decreases |s|
  {
    if |s| > 0 && IsWhitespace(s[|s| - 1]) then
      var r := TrimEnd(s[..|s| - 1]);
      assert s[|r|..] == s[..|s| - 1][|r|..] + [s[|s| - 1]];
      r
    else
      s
  }

  /** Rust's `str::trim`. */
  function Trim(s: string): (r: string)
    ensures IsTrimOf(s, r)
  {
    var t := TrimStart(s);
    var r := TrimEnd(t);
    var i := |s| - |t|;
    assert s[i..i + |r|] == r;
    assert s[i + |r|..] == t[|r|..];
    assert TrimmedAt(s, r, i);
    if |r| > 0 then
      assert r[0] == t[0];
      r
    else
      r
  }

  /** `IsTrimOf` pins the trimmed text down completely. */
  lemma TrimOfIsUnique(s: string, t1: string, t2: string)
    requires IsTrimOf(s, t1) && IsTrimOf(s, t2)
    ensures t1 == t2
  {
    var i1 :| TrimmedAt(s, t1, i1);
    var i2 :| TrimmedAt(s, t2, i2);
    WhitespaceAround(s, t1, i1);
    WhitespaceAround(s, t2, i2);
    if |t1| > 0 {
      assert s[i1] == t1[0] && s[i1 + |t1| - 1] == t1[|t1| - 1];
    }
    if |t2| > 0 {
      assert s[i2] == t2[0] && s[i2 + |t2| - 1] == t2[|t2| - 1];
    }
  }

  /** Unfolds `TrimmedAt` to a statement about the positions of `s`. */
  lemma WhitespaceAround(s: string, t: string, i: int)
    requires TrimmedAt(s, t, i)
    ensures forall k :: 0 <= k < i ==> IsWhitespace(s[k])
    ensures forall k :: i + |t| <= k < |s| ==> IsWhitespace(s[k])
    ensures forall k :: i <= k < i + |t| ==> s[k] == t[k - i]
  {
    forall k | 0 <= k < i ensures IsWhitespace(s[k]) {
      assert s[..i][k] == s[k];
    }
    forall k | i + |t| <= k < |s| ensures IsWhitespace(s[k]) {
      assert s[i + |t|..][k - i - |t|] == s[k];
    }
    forall k | i <= k < i + |t| ensures s[k] == t[k - i] {
      assert s[i..i + |t|][k - i] == s[k];
    }
  }

  /** `Trim` computes exactly the text `IsTrimOf` describes. */
  lemma TrimCharacterized(s: string, t: string)
    ensures IsTrimOf(s, t) <==> Trim(s) == t
  {
    if IsTrimOf(s, t) {
      TrimOfIsUnique(s, Trim(s), t);
    }
  }

  /** Trimming a text wrapped in whitespace gives the text back. */
  lemma TrimPadded(pre: string, t: string, post: string)
    requires AllWhitespace(pre) && AllWhitespace(post)
    requires |t| > 0 ==> !IsWhitespace(t[0]) && !IsWhitespace(t[|t| - 1])
    ensures Trim(pre + t + post) == t
  {
    var s := pre + t + post;
    assert s[..|pre|] == pre;
    assert s[|pre|..|pre| + |t|] == t;
    assert s[|pre| + |t|..] == post;
    assert TrimmedAt(s, t, |pre|);
    TrimOfIsUnique(s, Trim(s), t);
  }

  predicate IsDigit(c: char) {
    '0' <= c <= '9'
  }

  predicate AllDigits(s: string) {
    forall k :: 0 <= k < |s| ==> IsDigit(s[k])
  }

  function DigitValue(c: char): (d: nat)
    requires IsDigit(c)
    ensures d < 10
  {
    c as int - '0' as int
  }

  function DigitChar(d: nat): (c: char)
    requires d < 10
    ensures IsDigit(c) && DigitValue(c) == d
  {
    ('0' as int + d) as char
  }

  /** The number a string of decimal digits denotes, most significant first. */
  function DigitsValue(ds: string): nat
    requires AllDigits(ds)
    decreases |ds|
  {
    if |ds| == 0 then 0
    else DigitsValue(ds[..|ds| - 1]) * 10 + DigitValue(ds[|ds| - 1])
  }

  /** The part of its input `usize::from_str` reads as digits: everything
      after one optional leading '+'. */
  function UnsignedDigits(s: string): (ds: string)
    ensures |s| > 0 && s[0] == '+' ==> ds == s[1..]
    ensures |s| == 0 || s[0] != '+' ==> ds == s
  {
    if |s| > 0 && s[0] == '+' then s[1..] else s
  }

  /** Rust's `usize::from_str` as a reference definition: an optional '+',
      then at least one ASCII digit and nothing else, denoting a value that
      fits in 64 bits. Leading zeros are accepted; '-' is not. */
  function ParseUsize(s: string): (r: Option<nat>)
    ensures r.Some? ==> r.value <= USIZE_MAX
    ensures r.Some? ==> |s| > 0 && AllDigits(UnsignedDigits(s)) && |UnsignedDigits(s)| > 0
  {
    var ds := UnsignedDigits(s);
    if |ds| == 0 || !AllDigits(ds) then None
    else if DigitsValue(ds) > USIZE_MAX then None
    else Some(DigitsValue(ds))
  }

  /** A prefix of a digit string never denotes more than the whole string. */
  lemma {:induction false} PrefixValueAtMost(ds: string, i: nat)
    requires AllDigits(ds) && i <= |ds|
    ensures AllDigits(ds[..i]) && DigitsValue(ds[..i]) <= DigitsValue(ds)
    decreases |ds|
  {
    if i < |ds| {
      var front := ds[..|ds| - 1];
      assert front[..i] == ds[..i];
      PrefixValueAtMost(front, i);
    } else {
      assert ds[..i] == ds;
    }
  }

  /** The algorithm of Rust's `from_str_radix` for `usize`: strip one '+',
      then accumulate digit by digit with checked multiplication and
      addition. It agrees with the reference definition `ParseUsize`. */
  method ParseUsizeChecked(s: string) returns (ok: bool, n: nat)
    ensures ok <==> ParseUsize(s).Some?
    ensures ok ==> ParseUsize(s) == Some(n)
  {
    if |s| == 0 {
      return false, 0;
    }
    if |s| == 1 && (s[0] == '+' || s[0] == '-') {
      return false, 0;
    }
    var digits := UnsignedDigits(s);
    n := 0;
    var i := 0;
    while i < |digits|
      invariant 0 <= i <= |digits|
      invariant AllDigits(digits[..i])
      invariant n == DigitsValue(digits[..i]) <= USIZE_MAX
    {
      var c := digits[i];
      if !IsDigit(c) {
        return false, 0;
      }
      var d := DigitValue(c);
      assert digits[..i + 1][..i] == digits[..i];
      assert DigitsValue(digits[..i + 1]) == n * 10 + d;
      if n * 10 > USIZE_MAX || n * 10 + d > USIZE_MAX {
        if AllDigits(digits) {
          PrefixValueAtMost(digits, i + 1);
        }
        return false, 0;
      }
      n := n * 10 + d;
      i := i + 1;
    }
    assert digits[..i] == digits;
    return true, n;
  }

  /** Rust's decimal rendering of a `usize`, as `format!("{}", n)` prints it. */
  function NatToString(n: nat): (r: string)
    ensures |r| > 0 && AllDigits(r) && DigitsValue(r) == n
    ensures r[0] == '0' ==> n == 0
    ensures n <= USIZE_MAX ==> ParseUsize(r) == Some(n)
    decreases n
  {
    if n < 10 then
      [DigitChar(n)]
    else
      var p := NatToString(n / 10);
      var r := p + [DigitChar(n % 10)];
      assert r[..|r| - 1] == p;
      r
  }
}
