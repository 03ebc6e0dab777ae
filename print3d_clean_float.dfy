/**
 * `clean_float` of the 3D-print toolbox: the text of a number loses the
 * zeros that trail its fractional part, keeping at least one digit after
 * the point ("0.000" becomes "0.0").
 */
module Print3dCleanFloat {

  /** `str.rfind`: the position of the last `c` in `s`, or -1. */
  function RFind(s: string, c: char): (r: int)
    ensures -1 <= r < |s|
    ensures r >= 0 ==> s[r] == c && forall k :: r < k < |s| ==> s[k] != c
    ensures r == -1 ==> forall k :: 0 <= k < |s| ==> s[k] != c
  {
    if s == [] then -1
    else if s[|s| - 1] == c then |s| - 1
    else RFind(s[..|s| - 1], c)
  }

  /** `str.rstrip(c)`: `s` without the run of `c` that ends it. */
  function RStrip(s: string, c: char): (r: string)
    ensures |r| <= |s| && r == s[..|r|]
    ensures forall k :: |r| <= k < |s| ==> s[k] == c
    ensures r == [] || r[|r| - 1] != c
  {
    if s == [] || s[|s| - 1] != c then s
    else RStrip(s[..|s| - 1], c)
  }

  /** A Python slice `s[:n]` for `n >= 0`: at most the first `n` characters. */
  function Take(s: string, n: nat): (r: string)
  {
    if n <= |s| then s[..n] else s
  }

  /** `clean_float`. */
  function CleanFloat(text: string): (r: string)
  {
    var index := RFind(text, '.');
    if index == -1 then text
    else
      var head := Take(text, index + 2);
      head + RStrip(text[|head|..], '0')
  }

  /** Text without a point is returned unchanged. */
  lemma NoPointUnchanged(text: string)
    requires forall k :: 0 <= k < |text| ==> text[k] != '.'
    ensures CleanFloat(text) == text
  {
  }

  /** The last point is found wherever it is. */
  lemma RFindLast(s: string, c: char, index: nat)
    requires index < |s| && s[index] == c
    requires forall k :: index < k < |s| ==> s[k] != c
    ensures RFind(s, c) == index
  {
  }

  /**
   * Otherwise the result is a prefix of the text that keeps everything up
   * to the character after the last point, and what it drops is a run of
   * zeros that it does not end with.
   */
  lemma CleanFloatTrims(text: string, index: nat)
    requires index < |text| && text[index] == '.'
    requires forall k :: index < k < |text| ==> text[k] != '.'
    ensures var r := CleanFloat(text);
      |r| <= |text| && r == text[..|r|] &&
      |r| >= (if index + 2 <= |text| then index + 2 else |text|) &&
      (forall k :: |r| <= k < |text| ==> text[k] == '0') &&
      (|r| > index + 2 ==> r[|r| - 1] != '0')
  {
    RFindLast(text, '.', index);
    var n := if index + 2 <= |text| then index + 2 else |text|;
    assert Take(text, index + 2) == text[..n];
    var tail := RStrip(text[n..], '0');
    assert CleanFloat(text) == text[..n] + tail;
    KeepPrefix(text, n, tail);
  }

  /**
   * The text's first `n` characters followed by what stripping zeros leaves
   * of the rest is a prefix of the text that drops only zeros.
   */
  lemma KeepPrefix(text: string, n: nat, tail: string)
    requires n <= |text|
    requires tail == RStrip(text[n..], '0')
    ensures var r := text[..n] + tail;
      |r| <= |text| && r == text[..|r|] && |r| >= n &&
      (forall k :: |r| <= k < |text| ==> text[k] == '0') &&
      (|r| > n ==> r[|r| - 1] != '0')
  {
    var rest := text[n..];
    assert forall k :: n + |tail| <= k < |text| ==> text[k] == rest[k - n];
    assert text[..n + |tail|] == text[..n] + text[n..n + |tail|];
  }

  /** Cleaning twice is cleaning once. */
  lemma CleanFloatIdempotent(text: string)
    ensures CleanFloat(CleanFloat(text)) == CleanFloat(text)
  {
    var index := RFind(text, '.');
    if index != -1 {
      var r := CleanFloat(text);
      CleanFloatTrims(text, index);
      assert r[index] == '.';
      assert forall k :: index < k < |r| ==> r[k] == text[k];
      RFindLast(r, '.', index);
      var head := Take(r, index + 2);
      assert head == Take(text, index + 2);
      var tail := r[|head|..];
      assert tail == RStrip(text[|head|..], '0');
      assert RStrip(tail, '0') == tail;
      assert r == head + tail;
    }
  }

  /** The example the source gives, and one more. */
  lemma CleanFloatExamples()
    ensures CleanFloat("0.000") == "0.0"
    ensures CleanFloat("1.2500") == "1.25"
    ensures CleanFloat("12") == "12"
    ensures CleanFloat("3.") == "3."
  {
    RFindLast("0.000", '.', 1);
    assert "0.000"[3..] == "00";
    assert RStrip("00", '0') == "";
    RFindLast("1.2500", '.', 1);
    assert "1.2500"[3..] == "500";
    assert RStrip("500", '0') == "5";
    RFindLast("3.", '.', 1);
  }
}
