/**
 * The two string rules applied to every calorie value before it is summed:
 * `cleanInputString` deletes the characters of the class `[+-\s]`, and
 * `isInvalidInput` searches, case-insensitively and unanchored, for `\d+e\d+`
 * (a number in scientific notation).
 */
module Sanitizer {

  import opened Wrappers
  import opened JsNumber

  /**
   * JavaScript's `\s`: the WhiteSpace and LineTerminator code points of
   * ECMAScript (tab, vertical tab, form feed, the byte order mark, the
   * Unicode space separators, line feed, carriage return, and the line and
   * paragraph separators).
   */
  predicate IsWs(c: char)
  {
    c == '\t' || c == '\n' || c == '\U{000B}' || c == '\U{000C}' || c == '\r' ||
    c == ' ' || c == '\U{00A0}' || c == '\U{1680}' ||
    ('\U{2000}' <= c <= '\U{200A}') ||
    c == '\U{2028}' || c == '\U{2029}' || c == '\U{202F}' || c == '\U{205F}' ||
    c == '\U{3000}' || c == '\U{FEFF}'
  }

  /**
   * Membership in the class `[+-\s]`. With `\s` on one side, the `-` does not
   * form a range: the class is `+`, `-` and every `\s` character.
   */
  predicate IsStripped(c: char)
  {
    c == '+' || c == '-' || IsWs(c)
  }

  /** `str.replace(/[+-\s]/g, '')`. */
  function CleanInputString(s: string): (r: string)
    ensures |r| <= |s|
    ensures forall i :: 0 <= i < |r| ==> !IsStripped(r[i])
  {
    if s == [] then []
    else if IsStripped(s[0]) then CleanInputString(s[1..])
    else [s[0]] + CleanInputString(s[1..])
  }

  /** Cleaning works character by character, keeping the order of what it keeps. */
  lemma {:induction false} CleanAppend(a: string, b: string)
    ensures CleanInputString(a + b) == CleanInputString(a) + CleanInputString(b)
  {
    if a == [] {
      assert a + b == b;
    } else {
      assert (a + b)[0] == a[0] && (a + b)[1..] == a[1..] + b;
      CleanAppend(a[1..], b);
    }
  }

  /** Cleaning a single character deletes it exactly when it is in `[+-\s]`. */
  lemma CleanSingle(c: char)
    ensures CleanInputString([c]) == if IsStripped(c) then [] else [c]
  {
    assert [c][1..] == [];
  }

  /**
   * Every `+`, `-` and whitespace character is deleted and every other
   * character occurs as often as before.
   */
  lemma {:induction false} CleanCounts(s: string, c: char)
    ensures multiset(CleanInputString(s))[c] == if IsStripped(c) then 0 else multiset(s)[c]
  {
    if s != [] {
      CleanCounts(s[1..], c);
      assert s == [s[0]] + s[1..];
      assert multiset(s) == multiset([s[0]]) + multiset(s[1..]);
    }
  }

  /** A string is left as it is exactly when it has nothing to delete. */
  lemma {:induction false} CleanFixedIff(s: string)
    ensures CleanInputString(s) == s <==> forall i :: 0 <= i < |s| ==> !IsStripped(s[i])
  {
    if s != [] {
      CleanFixedIff(s[1..]);
      if IsStripped(s[0]) {
        assert |CleanInputString(s)| < |s|;
      } else if CleanInputString(s) == s {
        assert CleanInputString(s[1..]) == s[1..];
      }
    }
  }

  /** Cleaning twice is cleaning once. */
  lemma CleanIdempotent(s: string)
    ensures CleanInputString(CleanInputString(s)) == CleanInputString(s)
  {
    CleanFixedIff(CleanInputString(s));
  }

  predicate IsE(c: char)
  {
    c == 'e' || c == 'E'
  }

  /** The end of the longest run of digits that starts at `i`. */
  function DigitRunEnd(s: string, i: nat): (j: nat)
    requires i <= |s|
    ensures i <= j <= |s| && AllDigits(s[i..j])
    ensures j == |s| || !IsDigit(s[j])
    decreases |s| - i
  {
    if i < |s| && IsDigit(s[i]) then
      var j := DigitRunEnd(s, i + 1);
      assert s[i..j] == [s[i]] + s[i + 1..j];
      j
    else i
  }

  /**
   * `s[i..k]` matches `\d+e\d+` (with `/i`), the `e` standing at `j`.
   */
  predicate SciShapeAt(s: string, i: int, j: int, k: int)
  {
    0 <= i < j && j + 1 < k <= |s| &&
    AllDigits(s[i..j]) && IsE(s[j]) && AllDigits(s[j + 1..k])
  }

  /** Some substring of `s` matches `\d+e\d+`. */
  ghost predicate HasSciShape(s: string)
  {
    exists i, j, k :: SciShapeAt(s, i, j, k)
  }

  /** The part of a JavaScript match array the source uses: `index` and `[0]`. */
  datatype RegExpMatch = RegExpMatch(index: nat, text: string)

  /**
   * `m` is the match `String.prototype.match` reports: it is the substring of
   * `s` at `m.index`, it matches the pattern, no match starts further left, and
   * no match from the same start is longer.
   */
  ghost predicate IsLeftmostLongest(s: string, m: RegExpMatch)
  {
    var k := m.index + |m.text|;
    k <= |s| && m.text == s[m.index..k] &&
    (exists j :: SciShapeAt(s, m.index, j, k)) &&
    (forall i', j', k' :: SciShapeAt(s, i', j', k') ==> m.index <= i') &&
    (forall j', k' :: SciShapeAt(s, m.index, j', k') ==> k' <= k)
  }

  /** The pattern tried at one start position, with greedy `\d+` on both sides. */
  function MatchAt(s: string, i: nat): Option<RegExpMatch>
    requires i <= |s|
  {
    var j := DigitRunEnd(s, i);
    if i < j && j + 1 < |s| && IsE(s[j]) && IsDigit(s[j + 1]) then
      Some(RegExpMatch(i, s[i..DigitRunEnd(s, j + 1)]))
    else None
  }

  /** The pattern tried at every start position from `i` on, leftmost first. */
  function SearchFrom(s: string, i: nat): Option<RegExpMatch>
    requires i <= |s|
    decreases |s| - i
  {
    if i == |s| then None
    else if MatchAt(s, i).Some? then MatchAt(s, i)
    else SearchFrom(s, i + 1)
  }

  /** `str.match(/\d+e\d+/i)`: `None` is `null`. */
  function IsInvalidInput(s: string): (r: Option<RegExpMatch>)
    ensures r.Some? <==> HasSciShape(s)
    ensures r.Some? ==> IsLeftmostLongest(s, r.value)
  {
    SearchFromCorrect(s, 0);
    SearchFrom(s, 0)
  }

  /** A run of digits from `i` never reaches past the longest one. */
  lemma {:induction false} DigitRunMax(s: string, i: nat, k: nat)
    requires i <= k <= |s| && AllDigits(s[i..k])
    ensures k <= DigitRunEnd(s, i)
    decreases |s| - i
  {
    if i < k {
      assert IsDigit(s[i..k][0]);
      assert s[i + 1..k] == s[i..k][1..];
      DigitRunMax(s, i + 1, k);
    }
  }

  /** A run of digits from `i` that stops at a non-digit is the longest one. */
  lemma DigitRunExact(s: string, i: nat, j: nat)
    requires i <= j < |s| && AllDigits(s[i..j]) && !IsDigit(s[j])
    ensures DigitRunEnd(s, i) == j
  {
    DigitRunMax(s, i, j);
  }

  /** The match tried at `i` succeeds exactly when some match starts at `i`, and it is the longest one. */
  lemma MatchAtCorrect(s: string, i: nat)
    requires i <= |s|
    ensures MatchAt(s, i).Some? <==> exists j, k :: SciShapeAt(s, i, j, k)
    ensures MatchAt(s, i).Some? ==> MatchAt(s, i).value.index == i && IsLeftmostFrom(s, i, MatchAt(s, i).value)
  {
    var j := DigitRunEnd(s, i);
    if MatchAt(s, i).Some? {
      var k := DigitRunEnd(s, j + 1);
      DigitRunMax(s, j + 1, j + 2);
      assert SciShapeAt(s, i, j, k);
      forall j', k' | SciShapeAt(s, i, j', k')
        ensures k' <= k
      {
        DigitRunExact(s, i, j');
        DigitRunMax(s, j + 1, k');
      }
    } else {
      forall j', k' | SciShapeAt(s, i, j', k')
        ensures false
      {
        DigitRunExact(s, i, j');
      }
    }
  }

  /** `m` starts at `i`, matches, and no match from `i` is longer. */
  ghost predicate IsLeftmostFrom(s: string, i: nat, m: RegExpMatch)
  {
    var k := m.index + |m.text|;
    k <= |s| && m.text == s[m.index..k] &&
    (exists j :: SciShapeAt(s, m.index, j, k)) &&
    (forall j', k' :: SciShapeAt(s, m.index, j', k') ==> k' <= k)
  }

  lemma {:induction false} SearchFromCorrect(s: string, i: nat)
    requires i <= |s|
    ensures SearchFrom(s, i).None? ==> forall i', j, k :: i <= i' && SciShapeAt(s, i', j, k) ==> false
    ensures SearchFrom(s, i).Some? ==>
      var m := SearchFrom(s, i).value;
      i <= m.index && IsLeftmostFrom(s, i, m) &&
      forall i', j, k :: i <= i' && SciShapeAt(s, i', j, k) ==> m.index <= i'
    decreases |s| - i
  {
    if i < |s| {
      MatchAtCorrect(s, i);
      if MatchAt(s, i).None? {
        SearchFromCorrect(s, i + 1);
      }
    }
  }
}
