/** The two text helpers at the top of exec_guard.py: `title`, which wraps a message in
    Pango markup, and `truncate_with_ellipses`, which shortens a filename for display.
    Python slicing is modelled exactly, negative bounds included. */
module Text {

  /** Python's normalisation of one slice bound against a sequence of length `n`:
      a negative bound counts from the end, and both ends are clamped to `0..n`. */
  function SliceBound(i: int, n: nat): (b: nat)
    ensures b <= n
    ensures 0 <= i <= n ==> b == i
  {
    if i < 0 then (if n + i < 0 then 0 else n + i)
    else if i > n then n
    else i
  }

  /** Python's `s[start:stop]`: empty when the normalised bounds cross. */
  function Slice(s: string, start: int, stop: int): (r: string)
    ensures |r| <= |s|
  {
    var a, b := SliceBound(start, |s|), SliceBound(stop, |s|);
    if a < b then s[a..b] else []
  }

  const Ellipsis: string := "..."

  /** Number of characters `truncate_with_ellipses` always keeps from the end. */
  function TailLength(text: string): (k: nat)
    ensures k <= |text| && k <= 3
  {
    if |text| < 3 then |text| else 3
  }

  // ---------------------------------------------------------------------------
  // title

  /** `title`: the message in bold, big markup. */
  function Title(text: string): (r: string)
    ensures |r| == |text| + 18
    ensures r[..8] == "<big><b>" && r[|r| - 10..] == "</b></big>"
    ensures r[8..|r| - 10] == text
  {
    "<big><b>" + text + "</b></big>"
  }

  /** Wrapping in markup loses nothing: different messages give different titles. */
  lemma TitleInjective(a: string, b: string)
    requires Title(a) == Title(b)
    ensures a == b
  {
    assert a == Title(a)[8..|Title(a)| - 10];
  }

  // ---------------------------------------------------------------------------
  // truncate_with_ellipses, as written

  /** `truncate_with_ellipses` exactly as exec_guard.py writes it: the text without its
      last three characters is the prefix, of which `max - 1` characters are kept, and
      the ellipsis goes in when the prefix is LONGER than `max`. */
  function TruncateWithEllipsesAsWritten(text: string, max: int): (r: string)
    ensures |r| <= |text| + |Ellipsis|
  {
    var prefix := Slice(text, 0, -3);
    var suffix := Slice(text, -3, |text|);
    var ellipsis := if |prefix| > max then Ellipsis else "";
    SplitParts(text);
    Slice(prefix, 0, max - 1) + ellipsis + suffix
  }

  /** The prefix and suffix the function splits `text` into. */
  lemma SplitParts(text: string)
    ensures Slice(text, 0, -3) == text[..|text| - TailLength(text)]
    ensures Slice(text, -3, |text|) == text[|text| - TailLength(text)..]
  {
  }

  /** A text at most `max + 2` long comes back unchanged (for a negative `max` even
      the empty prefix is "longer", so an ellipsis would appear). */
  lemma AsWrittenShortTextUnchanged(text: string, max: int)
    requires max >= 0 && |text| <= max + 2
    ensures TruncateWithEllipsesAsWritten(text, max) == text
  {
    SplitParts(text);
    var k := TailLength(text);
    var prefix := text[..|text| - k];
    assert Slice(prefix, 0, max - 1) == prefix;
    assert prefix + text[|text| - k..] == text;
  }

  /** Whatever the length and whatever `max`, the result ends with the last three
      characters of `text` (all of it when it is shorter than three). */
  lemma AsWrittenKeepsTail(text: string, max: int)
    ensures var r := TruncateWithEllipsesAsWritten(text, max);
            var k := TailLength(text);
            |r| >= k && r[|r| - k..] == text[|text| - k..]
  {
    SplitParts(text);
  }

  /** When the prefix is longer than `max` (and `max` is positive), the first `max - 1`
      characters, the ellipsis and the last three characters are shown: `max + 5` in all. */
  lemma AsWrittenEllipsisCase(text: string, max: int)
    requires max >= 1 && |text| - 3 > max
    ensures var r := TruncateWithEllipsesAsWritten(text, max);
            r == text[..max - 1] + Ellipsis + text[|text| - 3..] && |r| == max + 5
  {
    SplitParts(text);
    var prefix := text[..|text| - 3];
    assert Slice(prefix, 0, max - 1) == text[..max - 1];
  }

  /** For a positive `max` the result is never longer than `max + 5`. */
  lemma AsWrittenLengthBound(text: string, max: int)
    requires max >= 1
    ensures |TruncateWithEllipsesAsWritten(text, max)| <= max + 5
  {
    SplitParts(text);
    if |text| <= max + 2 {
      AsWrittenShortTextUnchanged(text, max);
    } else if |text| - 3 > max {
      AsWrittenEllipsisCase(text, max);
    }
  }

  /** The gap between the two cases: a text exactly `max + 3` long gets no ellipsis,
      yet only `max - 1` of its `max` prefix characters are kept, so the character at
      index `max - 1` disappears without trace. */
  lemma AsWrittenDropsCharacter(text: string, max: int)
    requires max >= 1 && |text| == max + 3
    ensures var r := TruncateWithEllipsesAsWritten(text, max);
            r == text[..max - 1] + text[max..] && |r| == |text| - 1
  {
    SplitParts(text);
    var prefix := text[..|text| - 3];
    assert Slice(prefix, 0, max - 1) == text[..max - 1];
  }

  /** The smallest instance: with `max` 1, "abcd" is shown as "bcd". */
  lemma AsWrittenDropsCharacterExample()
    ensures TruncateWithEllipsesAsWritten("abcd", 1) == "bcd"
  {
    AsWrittenDropsCharacter("abcd", 1);
  }

  // ---------------------------------------------------------------------------
  // truncate_with_ellipses, corrected

  /** `truncate_with_ellipses` with the prefix cut only where the ellipsis goes in: a
      prefix of at most `max` characters is kept whole, a longer one is cut to
      `max - 1` characters followed by the ellipsis. For every positive `max` a text is
      then either shown whole (up to `max + 3` characters) or visibly shortened to
      `max + 5`. */
  function TruncateWithEllipses(text: string, max: int): (r: string)
    ensures max >= 1 && |text| <= max + 3 ==> r == text
    ensures max >= 1 && |text| > max + 3 ==>
              r == text[..max - 1] + Ellipsis + text[|text| - 3..] && |r| == max + 5
    ensures max >= 1 ==> |r| <= max + 5
  {
    var prefix := Slice(text, 0, -3);
    var suffix := Slice(text, -3, |text|);
    SplitParts(text);
    assert text[..|text| - TailLength(text)] + text[|text| - TailLength(text)..] == text;
    (if |prefix| > max then Slice(prefix, 0, max - 1) + Ellipsis else prefix) + suffix
  }

  /** The correction changes the result only for texts exactly `max + 3` long. */
  lemma CorrectionOnlyAtGap(text: string, max: int)
    requires max >= 1 && |text| != max + 3
    ensures TruncateWithEllipses(text, max) == TruncateWithEllipsesAsWritten(text, max)
  {
    if |text| <= max + 2 {
      AsWrittenShortTextUnchanged(text, max);
    } else {
      AsWrittenEllipsisCase(text, max);
    }
  }
}
