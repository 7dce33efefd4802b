/**
 * `correct_grammar` (backend/main.py): the LanguageTool matches for a text
 * are applied from the last to the first, each replacing the characters it
 * covers with its first suggested replacement. Python slicing clamps its
 * bounds, so a match that reaches outside the text is cut, not rejected.
 *
 * The HTTP call to LanguageTool is a parameter: the decoded `matches`, or
 * `Unavailable` when the request, the JSON decoding or reading a match's
 * fields raised, in which case the original text comes back.
 */
module GrammarCorrection {

  /** One match: `offset`, `length` and the `value` of each suggested replacement, best first. */
  datatype Match = Match(offset: int, length: int, replacements: seq<string>)

  datatype CheckAnswer = Unavailable | Checked(matches: seq<Match>)

  /** Where Python's slice bound `k` falls in a string of length `n`: negative bounds count from the end, and both ends clamp. */
  function SliceIndex(k: int, n: nat): (j: nat)
    ensures j <= n
    ensures 0 <= k <= n ==> j == k
    ensures k > n ==> j == n
    ensures k < 0 ==> j == (if n + k < 0 then 0 else n + k)
  {
    if k < 0 then (if n + k < 0 then 0 else n + k)
    else if k > n then n
    else k
  }

  /** `s[:k]` */
  function PyPrefix(s: string, k: int): string {
    s[..SliceIndex(k, |s|)]
  }

  /** `s[k:]` */
  function PySuffix(s: string, k: int): string {
    s[SliceIndex(k, |s|)..]
  }

  /** A match edits the text only when it has a first replacement and that replacement is not empty. */
  predicate Applies(m: Match) {
    |m.replacements| > 0 && m.replacements[0] != ""
  }

  /** One iteration of the loop: `corrected[:offset] + replacement + corrected[offset+length:]`, or nothing. */
  function Splice(text: string, m: Match): (r: string)
    ensures !Applies(m) ==> r == text
    ensures Applies(m) && 0 <= m.offset && 0 <= m.length && m.offset + m.length <= |text| ==>
      r == text[..m.offset] + m.replacements[0] + text[m.offset + m.length..]
  {
    if Applies(m) then PyPrefix(text, m.offset) + m.replacements[0] + PySuffix(text, m.offset + m.length)
    else text
  }

  /** The matches applied from the last to the first: the tail goes in before the head. */
  function ApplyAll(text: string, ms: seq<Match>): string
    decreases |ms|
  {
    if ms == [] then text else Splice(ApplyAll(text, ms[1..]), ms[0])
  }

  /** What `correct_grammar` returns for a text and the checker's answer. */
  function Corrected(text: string, answer: CheckAnswer): string {
    match answer
    case Unavailable => text
    case Checked(ms) => ApplyAll(text, ms)
  }

  /** The loop over `reversed(matches)`; an unavailable checker leaves the text as it was. */
  method CorrectGrammar(text: string, answer: CheckAnswer) returns (corrected: string)
    ensures answer.Unavailable? ==> corrected == text
    ensures answer.Checked? ==> corrected == ApplyAll(text, answer.matches)
    ensures corrected == Corrected(text, answer)
  {
    if answer.Unavailable? {
      return text;
    }
    var ms := answer.matches;
    corrected := text;
    var i := |ms|;
    while i > 0
      invariant 0 <= i <= |ms|
      invariant corrected == ApplyAll(text, ms[i..])
    {
      i := i - 1;
      assert ms[i..][1..] == ms[i + 1..];
      corrected := Splice(corrected, ms[i]);
    }
    assert ms[0..] == ms;
  }

  /** Without a single usable replacement the text comes back unchanged. */
  lemma {:induction false} NoEditsNoChange(text: string, ms: seq<Match>)
    requires forall k :: 0 <= k < |ms| ==> !Applies(ms[k])
    ensures ApplyAll(text, ms) == text
    decreases |ms|
  {
    if ms != [] {
      NoEditsNoChange(text, ms[1..]);
    }
  }

  /**
   * Matches in ascending order that do not overlap, start at or after `from`
   * and end inside a text of length `n`: the shape LanguageTool reports.
   */
  predicate WellPlaced(ms: seq<Match>, from: int, n: int)
    decreases |ms|
  {
    ms == [] ||
    (from <= ms[0].offset && 0 <= ms[0].length && ms[0].offset + ms[0].length <= n
     && WellPlaced(ms[1..], ms[0].offset + ms[0].length, n))
  }

  /** What a match puts in place of the characters it covers. */
  function Covered(text: string, m: Match): string
    requires 0 <= m.offset && 0 <= m.length && m.offset + m.length <= |text|
  {
    if Applies(m) then m.replacements[0] else text[m.offset..m.offset + m.length]
  }

  /**
   * The intended result, read left to right over the ORIGINAL text from
   * position `pos`: the untouched gap before each match, then what the
   * match puts in place of its range, and finally the rest of the text.
   */
  function Rewritten(text: string, ms: seq<Match>, pos: int): string
    requires 0 <= pos <= |text| && WellPlaced(ms, pos, |text|)
    decreases |ms|
  {
    if ms == [] then text[pos..]
    else
      var m := ms[0];
      text[pos..m.offset] + Covered(text, m) + Rewritten(text, ms[1..], m.offset + m.length)
  }

  lemma PrefixOfAppend(a: string, b: string, k: nat)
    requires k <= |a|
    ensures (a + b)[..k] == a[..k]
  {
  }

  lemma SuffixOfAppend(a: string, b: string)
    ensures (a + b)[|a|..] == b
  {
  }

  lemma SplitAt(s: string, i: nat, j: nat)
    requires i <= j <= |s|
    ensures s[..j] == s[..i] + s[i..j]
  {
  }

  lemma Regroup(a: string, b: string, c: string, d: string)
    ensures a + b + c + d == a + (b + c + d)
  {
  }

  /**
   * Applying well-placed matches back to front splices every one of them at
   * its offset in the original text, and leaves every character outside the
   * matched ranges where it was.
   */
  lemma {:induction false} ApplyAllRewrites(text: string, ms: seq<Match>, pos: int)
    requires 0 <= pos <= |text| && WellPlaced(ms, pos, |text|)
    ensures ApplyAll(text, ms) == text[..pos] + Rewritten(text, ms, pos)
    decreases |ms|
  {
    if ms == [] {
      assert text == text[..pos] + text[pos..];
    } else {
      var m := ms[0];
      var end := m.offset + m.length;
      ApplyAllRewrites(text, ms[1..], end);
      var rest := Rewritten(text, ms[1..], end);
      var head := text[..end];
      var t := head + rest;
      assert ApplyAll(text, ms) == Splice(t, m);
      assert Rewritten(text, ms, pos) == text[pos..m.offset] + Covered(text, m) + rest;
      assert head[..m.offset] == text[..m.offset];
      PrefixOfAppend(head, rest, m.offset);
      SuffixOfAppend(head, rest);
      SplitAt(text, pos, m.offset);
      if Applies(m) {
        var r := m.replacements[0];
        assert Splice(t, m) == t[..m.offset] + r + t[end..];
        assert Splice(t, m) == text[..pos] + text[pos..m.offset] + r + rest;
        Regroup(text[..pos], text[pos..m.offset], r, rest);
      } else {
        SplitAt(text, m.offset, end);
        assert t == text[..pos] + text[pos..m.offset] + text[m.offset..end] + rest;
        Regroup(text[..pos], text[pos..m.offset], text[m.offset..end], rest);
      }
    }
  }

  /** The whole text from the start: corrections of a well-formed answer splice at original offsets. */
  lemma CorrectionsAtOriginalOffsets(text: string, ms: seq<Match>)
    requires WellPlaced(ms, 0, |text|)
    ensures ApplyAll(text, ms) == Rewritten(text, ms, 0)
  {
    ApplyAllRewrites(text, ms, 0);
    assert text[..0] == [];
  }
}
