/** The pieces of Rust's standard string handling the command line relies on:
    `str::splitn`, `str::parse::<u32>` and `str::to_lowercase`, on strings
    seen as sequences of characters. */
module Text {
  import opened Wrappers

  /** The first position of `c` in `s`. */
  function IndexOf(s: string, c: char): (r: Option<nat>)
    ensures r.None? <==> c !in s
    ensures r.Some? ==> r.value < |s| && s[r.value] == c && c !in s[..r.value]
  {
    if s == [] then None
    else if s[0] == c then Some(0)
    else match IndexOf(s[1..], c)
      case None => None
      case Some(k) => Some(k + 1)
  }

  /** `s.splitn(n, sep)` for n >= 1: cut at the first n - 1 separators; the
      last part keeps whatever is left, separators included. */
  function SplitN(s: string, n: nat, sep: char): (parts: seq<string>)
    requires n >= 1
    ensures 1 <= |parts| <= n
    ensures forall k :: 0 <= k < |parts| - 1 ==> sep !in parts[k]
    ensures |parts| < n ==> sep !in parts[|parts| - 1]
    decreases n
  {
    if n == 1 then [s]
    else match IndexOf(s, sep)
      case None => [s]
      case Some(k) => [s[..k]] + SplitN(s[k + 1..], n - 1, sep)
  }

  /** The parts put back together with `sep` between them. */
  function Join(parts: seq<string>, sep: char): string {
    if parts == [] then []
    else if |parts| == 1 then parts[0]
    else parts[0] + [sep] + Join(parts[1..], sep)
  }

  lemma JoinCons(first: string, rest: seq<string>, sep: char)
    requires rest != []
    ensures Join([first] + rest, sep) == first + [sep] + Join(rest, sep)
  {
    assert ([first] + rest)[1..] == rest;
  }

  /** One cut of `SplitN`: the text before the first separator, then the
      rest split into one part fewer. */
  lemma SplitNCut(s: string, n: nat, sep: char, k: nat)
    requires n > 1 && IndexOf(s, sep) == Some(k)
    ensures SplitN(s, n, sep) == [s[..k]] + SplitN(s[k + 1..], n - 1, sep)
  {
  }

  /** A string is the text before position k, the character there, and the rest. */
  lemma CutAt(s: string, k: nat)
    requires k < |s|
    ensures s == s[..k] + [s[k]] + s[k + 1..]
  {
    assert s[k..] == [s[k]] + s[k + 1..];
    assert s == s[..k] + s[k..];
  }

  /** Splitting loses nothing: joining the parts gives the string back. */
  lemma {:induction false} JoinSplitN(s: string, n: nat, sep: char)
    requires n >= 1
    ensures Join(SplitN(s, n, sep), sep) == s
    decreases n
  {
    if n > 1 && IndexOf(s, sep).Some? {
      var k := IndexOf(s, sep).value;
      SplitNCut(s, n, sep, k);
      CutAt(s, k);
      var first, rest := s[..k], s[k + 1..];
      JoinSplitN(rest, n - 1, sep);
      JoinCons(first, SplitN(rest, n - 1, sep), sep);
    }
  }

  predicate IsDigit(c: char) {
    '0' <= c <= '9'
  }

  function DigitValue(c: char): nat
    requires IsDigit(c)
  {
    c as int - '0' as int
  }

  function DigitChar(d: nat): (c: char)
    requires d < 10
    ensures IsDigit(c) && DigitValue(c) == d
  {
    ('0' as int + d) as char
  }

  predicate AllDigits(s: string) {
    forall k :: 0 <= k < |s| ==> IsDigit(s[k])
  }

  /** The number a run of decimal digits spells, most significant first. */
  function DigitsValue(s: string): nat
    requires AllDigits(s)
  {
    if s == [] then 0 else DigitsValue(s[..|s| - 1]) * 10 + DigitValue(s[|s| - 1])
  }

  /** `s.parse::<u32>()`: an optional leading `+`, then at least one decimal
      digit and nothing else, with a value below 2^32. */
  function ParseU32(s: string): (r: Option<nat>)
    ensures r.Some? ==> r.value < 0x1_0000_0000
  {
    var digits := if |s| > 0 && s[0] == '+' then s[1..] else s;
    if digits == [] || !AllDigits(digits) then None
    else if DigitsValue(digits) < 0x1_0000_0000 then Some(DigitsValue(digits))
    else None
  }

  /** The decimal rendering of `n`, without sign or leading zeros. */
  function Decimal(n: nat): (s: string)
    ensures |s| > 0 && AllDigits(s)
  {
    if n < 10 then [DigitChar(n)] else Decimal(n / 10) + [DigitChar(n % 10)]
  }

  lemma {:induction false} DigitsValueOfDecimal(n: nat)
    ensures DigitsValue(Decimal(n)) == n
  {
    if n >= 10 {
      DigitsValueOfDecimal(n / 10);
      var s := Decimal(n);
      assert s[..|s| - 1] == Decimal(n / 10);
    }
  }

  /** Every u32 read back from its decimal rendering is itself. */
  lemma ParseU32Decimal(n: nat)
    requires n < 0x1_0000_0000
    ensures ParseU32(Decimal(n)) == Some(n)
  {
    DigitsValueOfDecimal(n);
  }

  /** `char::to_lowercase` on ASCII letters; every other character is kept. */
  function LowerChar(c: char): char {
    if 'A' <= c <= 'Z' then (c as int + 32) as char else c
  }

  function UpperChar(c: char): char {
    if 'a' <= c <= 'z' then (c as int - 32) as char else c
  }

  /** `str::to_lowercase`, character by character. */
  function ToLower(s: string): (r: string)
    ensures |r| == |s|
    ensures forall k :: 0 <= k < |s| ==> r[k] == LowerChar(s[k])
  {
    if s == [] then [] else [LowerChar(s[0])] + ToLower(s[1..])
  }

  /** `s` spells the lower-case word `word` with any mix of letter cases. */
  predicate SameLetters(s: string, word: string) {
    |s| == |word| && forall k :: 0 <= k < |s| ==> s[k] == word[k] || s[k] == UpperChar(word[k])
  }

  predicate IsLowerWord(word: string) {
    forall k :: 0 <= k < |word| ==> 'a' <= word[k] <= 'z'
  }

  /** Lower-casing `s` gives a lower-case word exactly when `s` is that word
      in some mix of cases. */
  lemma ToLowerMatches(s: string, word: string)
    requires IsLowerWord(word)
    ensures ToLower(s) == word <==> SameLetters(s, word)
  {
    if SameLetters(s, word) {
      forall k | 0 <= k < |s| ensures ToLower(s)[k] == word[k] {
      }
    }
    if ToLower(s) == word {
      forall k | 0 <= k < |s| ensures s[k] == word[k] || s[k] == UpperChar(word[k]) {
        assert LowerChar(s[k]) == word[k];
      }
    }
  }
}
