/**
 * Day 1: the calibration value of a line is ten times its first digit plus
 * its last digit. Part 1 counts only the characters '0'..'9'; part 2 also
 * counts the spelled-out words "zero".."nine", which may overlap.
 */
module Trebuchet {
  import opened Wrappers
  import opened Text

  /** The keys of the word table, in their order; the word at index `d` means `d`. */
  const Words: seq<string> := ["zero", "one", "two", "three", "four", "five", "six", "seven", "eight", "nine"]

  /** The first word of the table, from index `k` on, that `s` starts with. */
  function WordFrom(s: string, k: nat): (r: Option<nat>)
    requires k <= 10
    ensures r.Some? ==> k <= r.value < 10 && StartsWith(s, Words[r.value])
    ensures r.Some? ==> forall j | k <= j < r.value :: !StartsWith(s, Words[j])
    ensures r.None? ==> forall j | k <= j < 10 :: !StartsWith(s, Words[j])
    decreases 10 - k
  {
    if k == 10 then None
    else if StartsWith(s, Words[k]) then Some(k)
    else WordFrom(s, k + 1)
  }

  /** No two words of the table share their first two letters, so at most one of them starts any text. */
  lemma WordsDifferEarly(a: nat, b: nat)
    requires a < 10 && b < 10 && a != b
    ensures Words[a][0] != Words[b][0] || Words[a][1] != Words[b][1]
  {
    assert Words[0][0] == 'z' && Words[1][0] == 'o' && Words[2][0] == 't' && Words[3][0] == 't' && Words[4][0] == 'f';
    assert Words[5][0] == 'f' && Words[6][0] == 's' && Words[7][0] == 's' && Words[8][0] == 'e' && Words[9][0] == 'n';
    assert Words[2][1] == 'w' && Words[3][1] == 'h' && Words[4][1] == 'o' && Words[5][1] == 'i';
    assert Words[6][1] == 'i' && Words[7][1] == 'e';
  }

  lemma WordPrefixUnique(s: string, a: nat, b: nat)
    requires a < 10 && b < 10
    requires StartsWith(s, Words[a]) && StartsWith(s, Words[b])
    ensures a == b
  {
    assert |Words[a]| >= 3 && |Words[b]| >= 3;
    assert Words[a][0] == s[..|Words[a]|][0] == s[0] && Words[a][1] == s[..|Words[a]|][1] == s[1];
    assert Words[b][0] == s[..|Words[b]|][0] == s[0] && Words[b][1] == s[..|Words[b]|][1] == s[1];
    if a != b {
      WordsDifferEarly(a, b);
    }
  }

  /**
   * `try_parse_digit(index, text)`: the digit character at `index`, or else
   * the value of the word that the text starting at `index` begins with.
   */
  function TryParseDigit(index: nat, text: string): (r: Option<nat>)
    requires index < |text|
    ensures r.Some? ==> r.value < 10
    ensures IsDigit(text[index]) ==> r == Some(DigitValue(text[index]))
    ensures !IsDigit(text[index]) && r.Some? ==> StartsWith(text[index..], Words[r.value])
  {
    if IsDigit(text[index]) then Some(DigitValue(text[index]))
    else WordFrom(text[index..], 0)
  }

  /** A spelled-out digit, followed by anything, reads back as that digit. */
  lemma TryParseWord(d: nat, rest: string)
    requires d < 10
    ensures TryParseDigit(0, Words[d] + rest) == Some(d)
  {
    var t := Words[d] + rest;
    assert t[0..] == t;
    assert t[..|Words[d]|] == Words[d];
    assert !IsDigit(Words[d][0]);
    var r := TryParseDigit(0, t);
    WordPrefixUnique(t, r.value, d);
  }

  // ---- part 1 -----------------------------------------------------------------

  /** The loop of `get_first_digit` from position `i` on: the position of the first digit character. */
  function FirstDigitIndex(text: string, i: nat): (r: Option<nat>)
    requires i <= |text|
    ensures r.Some? ==> i <= r.value < |text| && IsDigit(text[r.value]) &&
                        forall k | i <= k < r.value :: !IsDigit(text[k])
    ensures r.None? ==> forall k | i <= k < |text| :: !IsDigit(text[k])
    decreases |text| - i
  {
    if i == |text| then None
    else if IsDigit(text[i]) then Some(i)
    else FirstDigitIndex(text, i + 1)
  }

  /** `get_first_digit`: the value of the first digit character, or nothing when there is none. */
  function FirstDigit(text: string): Option<nat> {
    var i := FirstDigitIndex(text, 0);
    if i.Some? then Some(DigitValue(text[i.value])) else None
  }

  /** `reverse`: the characters in the opposite order. */
  function Reverse(text: string): (r: string)
    ensures |r| == |text| && forall i | 0 <= i < |text| :: r[i] == text[|text| - 1 - i]
  {
    if |text| == 0 then [] else Reverse(text[1..]) + [text[0]]
  }

  /** `get_last_digit`: the first digit of the reversed text. */
  function LastDigit(text: string): Option<nat> {
    FirstDigit(Reverse(text))
  }

  /** The last digit of a text is the value of its last digit character. */
  lemma LastDigitIsLastDigitChar(text: string)
    ensures LastDigit(text).Some? <==> exists i | 0 <= i < |text| :: IsDigit(text[i])
    ensures LastDigit(text).Some? ==>
              exists i | 0 <= i < |text| :: IsDigit(text[i]) && LastDigit(text).value == DigitValue(text[i]) &&
                                            forall j | i < j < |text| :: !IsDigit(text[j])
  {
    var r := Reverse(text);
    var k := FirstDigitIndex(r, 0);
    if k.Some? {
      var m := |text| - 1 - k.value;
      assert IsDigit(text[m]);
      forall j | m < j < |text| ensures !IsDigit(text[j]) {
        assert r[|text| - 1 - j] == text[j];
      }
    } else {
      forall i | 0 <= i < |text| ensures !IsDigit(text[i]) {
        assert r[|text| - 1 - i] == text[i];
      }
    }
  }

  // ---- part 2 -----------------------------------------------------------------

  /** The loop of `get_first_digit_2` from index `i` on: the first index where `try_parse_digit` succeeds. */
  function FirstParsedIndex(text: string, i: nat): (r: Option<nat>)
    requires i <= |text|
    ensures r.Some? ==> i <= r.value < |text| && TryParseDigit(r.value, text).Some? &&
                        forall k | i <= k < r.value :: TryParseDigit(k, text).None?
    ensures r.None? ==> forall k | i <= k < |text| :: TryParseDigit(k, text).None?
    decreases |text| - i
  {
    if i == |text| then None
    else if TryParseDigit(i, text).Some? then Some(i)
    else FirstParsedIndex(text, i + 1)
  }

  /** `get_first_digit_2`: the result at the smallest index where `try_parse_digit` succeeds. */
  function FirstDigit2(text: string): Option<nat> {
    var i := FirstParsedIndex(text, 0);
    if i.Some? then TryParseDigit(i.value, text) else None
  }

  /** The loop of `get_last_digit_2` over the indices below `n`, from `n - 1` down. */
  function LastParsedIndex(text: string, n: nat): (r: Option<nat>)
    requires n <= |text|
    ensures r.Some? ==> r.value < n && TryParseDigit(r.value, text).Some?
    ensures forall k | 0 <= k < n && (r.None? || r.value < k) :: TryParseDigit(k, text).None?
  {
    if n == 0 then None
    else if TryParseDigit(n - 1, text).Some? then Some(n - 1)
    else LastParsedIndex(text, n - 1)
  }

  /** `get_last_digit_2`: the result at the largest index where `try_parse_digit` succeeds. */
  function LastDigit2(text: string): Option<nat> {
    var i := LastParsedIndex(text, |text|);
    if i.Some? then TryParseDigit(i.value, text) else None
  }

  /** Indices where nothing parses do not change where the downward scan stops. */
  lemma {:induction false} LastParsedSkip(text: string, m: nat, n: nat)
    requires m <= n <= |text|
    requires forall k | m <= k < n :: TryParseDigit(k, text).None?
    ensures LastParsedIndex(text, n) == LastParsedIndex(text, m)
    decreases n
  {
    if m < n {
      LastParsedSkip(text, m, n - 1);
    }
  }

  /** No word of the table starts anywhere in the text. */
  predicate NoWords(text: string) {
    forall i, d | 0 <= i < |text| && 0 <= d < 10 :: !StartsWith(text[i..], Words[d])
  }

  /**
   * Part 2 finds a digit wherever part 1 does, and on a text in which no
   * word of the table occurs the two parts agree at both ends.
   */
  lemma PartsAgreeWithoutWords(text: string)
    ensures FirstDigit(text).Some? ==> FirstDigit2(text).Some? && LastDigit2(text).Some?
    ensures NoWords(text) ==> FirstDigit2(text) == FirstDigit(text) && LastDigit2(text) == LastDigit(text)
  {
    var first := FirstDigitIndex(text, 0);
    if first.Some? {
      assert TryParseDigit(first.value, text).Some?;
    }
    if NoWords(text) {
      assert forall i | 0 <= i < |text| :: TryParseDigit(i, text).Some? <==> IsDigit(text[i]);
      FirstAgree(text);
      LastAgree(text);
    }
  }

  lemma FirstAgree(text: string)
    requires forall i | 0 <= i < |text| :: TryParseDigit(i, text).Some? <==> IsDigit(text[i])
    ensures FirstDigit2(text) == FirstDigit(text)
  {
    var a, b := FirstParsedIndex(text, 0), FirstDigitIndex(text, 0);
    if a.Some? && b.Some? {
      assert !(a.value < b.value) && !(b.value < a.value);
    }
  }

  lemma LastAgree(text: string)
    requires forall i | 0 <= i < |text| :: TryParseDigit(i, text).Some? <==> IsDigit(text[i])
    ensures LastDigit2(text) == LastDigit(text)
  {
    LastDigitIsLastDigitChar(text);
    var a := LastParsedIndex(text, |text|);
    if a.Some? {
      var j := a.value;
      assert IsDigit(text[j]);
      var i :| 0 <= i < |text| && IsDigit(text[i]) && LastDigit(text).value == DigitValue(text[i]) &&
               forall k | i < k < |text| :: !IsDigit(text[k]);
      assert !(i < j);
      assert TryParseDigit(i, text).Some?;
      assert i == j;
      assert LastDigit2(text) == Some(DigitValue(text[i]));
    } else {
      assert forall k | 0 <= k < |text| :: !IsDigit(text[k]);
    }
  }

  // ---- calibration values -------------------------------------------------------

  /** `10*first_digit + last_digit`: a two-digit number whose tens are the first digit and units the last. */
  function LineValue(first: nat, last: nat): (v: nat)
    requires first < 10 && last < 10
    ensures v <= 99 && v / 10 == first && v % 10 == last
  {
    10 * first + last
  }

  /**
   * The sum over all lines of part 1's values; a line without a digit makes
   * `10*None` raise, modelled as `None`.
   */
  function CalibrationSum(lines: seq<string>): (r: Option<nat>)
    ensures r.Some? <==> forall i | 0 <= i < |lines| :: FirstDigit(lines[i]).Some?
    ensures r.Some? ==> r.value <= 99 * |lines|
  {
    if |lines| == 0 then Some(0)
    else
      var line := lines[|lines| - 1];
      var rest := CalibrationSum(lines[..|lines| - 1]);
      var first, last := FirstDigit(line), LastDigit(line);
      LastDigitIsLastDigitChar(line);
      assert forall i | 0 <= i < |lines| - 1 :: lines[i] == lines[..|lines| - 1][i];
      if rest.None? || first.None? then None
      else Some(rest.value + LineValue(first.value, last.value))
  }

  /** The sum over all lines of part 2's values, failing on a line where nothing parses. */
  function CalibrationSum2(lines: seq<string>): (r: Option<nat>)
    ensures r.Some? <==> forall i | 0 <= i < |lines| :: FirstDigit2(lines[i]).Some?
    ensures r.Some? ==> r.value <= 99 * |lines|
  {
    if |lines| == 0 then Some(0)
    else
      var line := lines[|lines| - 1];
      var rest := CalibrationSum2(lines[..|lines| - 1]);
      var first, last := FirstDigit2(line), LastDigit2(line);
      assert forall i | 0 <= i < |lines| - 1 :: lines[i] == lines[..|lines| - 1][i];
      if rest.None? || first.None? then None
      else Some(rest.value + LineValue(first.value, last.value))
  }

  /** Every word of the table has at least three letters and starts with one of z, o, t, f, s, e, n. */
  lemma WordShape(d: nat)
    requires d < 10
    ensures |Words[d]| >= 3 && Words[d][0] in "zotfsen"
  {
    assert Words[0][0] == 'z' && Words[1][0] == 'o' && Words[2][0] == 't' && Words[3][0] == 't' && Words[4][0] == 'f';
    assert Words[5][0] == 'f' && Words[6][0] == 's' && Words[7][0] == 's' && Words[8][0] == 'e' && Words[9][0] == 'n';
  }

  /** A text shorter than three letters, or starting with a letter no word starts with, starts no word. */
  lemma NoParseAt(text: string, i: nat)
    requires i < |text| && !IsDigit(text[i]) && (|text| - i < 3 || text[i] !in "zotfsen")
    ensures TryParseDigit(i, text).None?
  {
    forall d | 0 <= d < 10 ensures !StartsWith(text[i..], Words[d]) {
      WordShape(d);
    }
  }

  /** A word of the table at index `i` that no digit character precedes there parses as its value. */
  lemma ParseWordAt(text: string, i: nat, d: nat)
    requires i < |text| && d < 10 && StartsWith(text[i..], Words[d])
    ensures TryParseDigit(i, text) == Some(d)
  {
    TryParseWord(d, text[i + |Words[d]|..]);
    assert text[i..] == Words[d] + text[i + |Words[d]|..];
    assert TryParseDigit(i, text) == TryParseDigit(0, text[i..]);
  }

  /** In "two1nine" the first digit is the word "two": the line's value starts with 2. */
  lemma TwoOneNineFirst()
    ensures FirstDigit2("two1nine") == Some(2)
  {
    var t := "two1nine";
    assert t[0..][..3] == Words[2];
    ParseWordAt(t, 0, 2);
  }

  /** In "two1nine" the last digit is the word "nine", after the digit 1: the value is 29. */
  lemma TwoOneNineLast()
    ensures LastDigit2("two1nine") == Some(9)
  {
    var t := "two1nine";
    NoParseAt(t, 7);
    NoParseAt(t, 6);
    NoParseAt(t, 5);
    assert t[4..][..4] == Words[9];
    ParseWordAt(t, 4, 9);
    assert LastParsedIndex(t, 5) == Some(4);
    LastParsedSkip(t, 5, 8);
  }

  /** "eightwothree" starts with "eight", whose last letter also begins "two". */
  lemma EightTwoThreeFirst()
    ensures FirstDigit2("eightwothree") == Some(8)
  {
    var t := "eightwothree";
    assert t[0..][..5] == Words[8];
    ParseWordAt(t, 0, 8);
  }

  /** Nothing parses in the last four letters "hree" of "eightwothree". */
  lemma EightTwoThreeTail()
    ensures forall k | 8 <= k < 12 :: TryParseDigit(k, "eightwothree").None?
  {
    var t := "eightwothree";
    NoParseAt(t, 11);
    NoParseAt(t, 10);
    NoParseAt(t, 9);
    NoParseAt(t, 8);
  }

  /** "eightwothree" ends with "three": the value is 83. */
  lemma EightTwoThreeLast()
    ensures LastDigit2("eightwothree") == Some(3)
  {
    var t := "eightwothree";
    EightTwoThreeTail();
    assert t[7..][..5] == Words[3];
    ParseWordAt(t, 7, 3);
    assert LastParsedIndex(t, 8) == Some(7);
    LastParsedSkip(t, 8, 12);
  }
}
