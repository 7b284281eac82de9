/**
 * The forward-only scanner that the element filter parser drives: an immutable text and
 * one cursor position that only ever moves forward and never leaves `0..|text|`.
 */
module ElementFilter {
  import opened Wrappers
  import opened KotlinText

  /** What a regular-expression search reports: where the match starts (`range.first`)
      and the text it matched (`value`). */
  datatype RegexMatch = RegexMatch(first: int, value: string)

  /** A compiled pattern seen only through `find(input, startIndex)`: the first match
      found when searching from `startIndex`, if any. The pattern language is not modelled. */
  type Finder = (string, int) -> Option<RegexMatch>

  function Min(a: int, b: int): int
  {
    if a < b then a else b
  }

  /** Where the cursor ends after advancing by each of `steps` in turn from `pos`, every
      step clamped to the end of a text of length `len`. */
  function PositionAfter(pos: nat, steps: seq<nat>, len: nat): nat
    decreases steps
  {
    if steps == [] then pos else PositionAfter(Min(pos + steps[0], len), steps[1..], len)
  }

  function Sum(steps: seq<nat>): nat
  {
    if steps == [] then 0 else steps[0] + Sum(steps[1..])
  }

  /** Advancing step by step ends where one advance by the total would: at the total, or at
      the end of the text if that is nearer. */
  lemma {:induction false} PositionAfterIsSum(pos: nat, steps: seq<nat>, len: nat)
    requires pos <= len
    ensures PositionAfter(pos, steps, len) == Min(pos + Sum(steps), len)
    decreases steps
  {
    if steps != [] {
      PositionAfterIsSum(Min(pos + steps[0], len), steps[1..], len);
    }
  }

  /** `IndexOfString`'s result read in terms of the prefix relation on the rest of the text. */
  lemma IndexOfStringAsPrefix(s: string, t: string, from: nat)
    requires from <= |s|
    ensures var r := IndexOfString(s, t, from);
      r == -1 || (from <= r <= |s| && t <= s[r..])
    ensures var r := IndexOfString(s, t, from);
      forall k :: from <= k <= |s| && (r == -1 || k < r) ==> !(t <= s[k..])
  {
    var r := IndexOfString(s, t, from);
    forall k | from <= k <= |s| && (r == -1 || k < r)
      ensures !(t <= s[k..])
    {
      assert !StartsWithAt(s, t, k);
    }
  }

  class StringWithCursor {
    const text: string
    var cursorPos: nat

    ghost predicate Valid()
      reads this
    {
      cursorPos <= |text|
    }

    constructor (str: string)
      ensures Valid() && text == str && cursorPos == 0
    {
      text := str;
      cursorPos := 0;
    }

    /** The character under the cursor; `None` exactly when the cursor is at the end. */
    function CharAtCursor(): (r: Option<char>)
      reads this
      requires Valid()
      ensures r.None? <==> cursorPos == |text|
      ensures r.Some? ==> r.value == text[cursorPos]
    {
      if cursorPos < |text| then Some(text[cursorPos]) else None
    }

    /** Whether no more than `x` characters are left after the cursor. */
    function IsAtEnd(x: int := 0): (r: bool)
      reads this
      requires Valid()
      ensures r <==> |text[cursorPos..]| <= x
      ensures x == 0 ==> (r <==> CharAtCursor().None?)
    {
      cursorPos + x >= |text|
    }

    /** Turns a library search result into a distance from the cursor: -1, "not found",
        becomes the distance to the end of the text. */
    function ToDelta(index: int): (r: int)
      reads this
      ensures cursorPos + r == if index == -1 then |text| else index
    {
      if index == -1 then |text| - cursorPos else index - cursorPos
    }

    /** Distance from the cursor to the first occurrence of `str` at or after the cursor,
        or to the end of the text when there is none. */
    function FindNext(str: string): (r: int)
      reads this
      requires Valid()
      ensures 0 <= r <= |text| - cursorPos
      ensures cursorPos + r == |text| || str <= text[cursorPos + r..]
      ensures forall k :: cursorPos <= k < cursorPos + r ==> !(str <= text[k..])
    {
      var index := IndexOfString(text, str, cursorPos);
      IndexOfStringAsPrefix(text, str, cursorPos);
      ToDelta(index)
    }

    /** The index a character search from the cursor shifted by `offs` really starts at. */
    function SearchStart(offs: int): nat
      reads this
    {
      NonNegative(cursorPos + offs)
    }

    /** Distance from the cursor to the first `c` at or after `cursorPos + offs` (a search
        start before the text counts as 0), or to the end of the text when there is none.
        Only a negative `offs` can make the distance negative. */
    function FindNextChar(c: char, offs: int := 0): (r: int)
      reads this
      requires Valid()
      ensures cursorPos + r == |text| || (SearchStart(offs) <= cursorPos + r < |text| && text[cursorPos + r] == c)
      ensures forall k :: SearchStart(offs) <= k < cursorPos + r ==> text[k] != c
      ensures offs >= 0 ==> 0 <= r <= |text| - cursorPos
    {
      ToDelta(IndexOfChar(text, c, cursorPos + offs))
    }

    /** Whether the character just before the cursor, the last one consumed, is `c`. */
    function PreviousIs(c: char): (r: bool)
      reads this
      requires Valid() && cursorPos > 0
      ensures r <==> text[..cursorPos][cursorPos - 1] == c
    {
      c == text[cursorPos - 1]
    }

    /** Whether the character under the cursor is `c`; never at the end of the text. */
    function NextIsChar(c: char): (r: bool)
      reads this
      requires Valid()
      ensures r <==> [c] <= text[cursorPos..]
      ensures IsAtEnd() ==> !r
    {
      CharAtCursor() == Some(c)
    }

    /** Whether the text from the cursor on starts with `str`. */
    function NextIs(str: string): (r: bool)
      reads this
      requires Valid()
      ensures r <==> str <= text[cursorPos..]
    {
      StartsWithAt(text, str, cursorPos)
    }

    /** Whether the text from the cursor on starts with the all-lower-case or the
        all-upper-case form of `str`; mixed case does not match. */
    function NextIsIgnoreCase(str: string): (r: bool)
      reads this
      requires Valid()
      ensures r <==> Lowercase(str) <= text[cursorPos..] || Uppercase(str) <= text[cursorPos..]
    {
      NextIs(Lowercase(str)) || NextIs(Uppercase(str))
    }

    /** The match `find` reports when searching from the cursor, but only if it starts
        exactly at the cursor. */
    function NextMatches(find: Finder): (r: Option<RegexMatch>)
      reads this
      requires Valid()
      ensures r.Some? <==> find(text, cursorPos).Some? && find(text, cursorPos).value.first == cursorPos
      ensures r.Some? ==> r == find(text, cursorPos) && r.value.first == cursorPos
    {
      match find(text, cursorPos)
      case None => None
      case Some(m) => if m.first != cursorPos then None else Some(m)
    }

    /** The text with a marker between what has and what has not been consumed. */
    function ToString(): (r: string)
      reads this
      requires Valid()
      ensures |r| == |text| + 1
      ensures r[cursorPos] == '►'
      ensures r[..cursorPos] + r[cursorPos + 1..] == text
    {
      var r := text[..cursorPos] + "►" + text[cursorPos..];
      assert r[..cursorPos] == text[..cursorPos];
      assert r[cursorPos + 1..] == text[cursorPos..];
      r
    }

    /** Consumes and returns the character under the cursor; the cursor must not be at the end. */
    method Advance() returns (c: char)
      requires Valid() && cursorPos < |text|
      modifies this
      ensures Valid()
      ensures c == text[old(cursorPos)]
      ensures cursorPos == old(cursorPos) + 1
      ensures PreviousIs(c)
    {
      c := text[cursorPos];
      cursorPos := Min(|text|, cursorPos + 1);
    }

    /** Consumes up to `x` characters and returns them; running past the end stops at the
        end and is not an error. A negative `x` is. */
    method AdvanceBy(x: int) returns (consumed: string)
      requires Valid() && x >= 0
      modifies this
      ensures Valid()
      ensures cursorPos == Min(old(cursorPos) + x, |text|)
      ensures cursorPos == PositionAfter(old(cursorPos), [x], |text|)
      ensures consumed == text[old(cursorPos)..cursorPos]
      ensures |consumed| == Min(x, |text| - old(cursorPos))
    {
      var end := cursorPos + x;
      if |text| < end {
        consumed := text[cursorPos..];
        cursorPos := |text|;
      } else {
        consumed := text[cursorPos..end];
        cursorPos := end;
      }
    }

    /** Consumes `str` if the text from the cursor on starts with it; otherwise changes nothing. */
    method NextIsAndAdvance(str: string) returns (b: bool)
      requires Valid()
      modifies this
      ensures Valid()
      ensures b <==> str <= text[old(cursorPos)..]
      ensures cursorPos == if b then old(cursorPos) + |str| else old(cursorPos)
      ensures b ==> text[old(cursorPos)..cursorPos] == str
    {
      if !NextIs(str) {
        return false;
      }
      var consumed := AdvanceBy(|str|);
      return true;
    }

    /** Consumes `c` if it is under the cursor; otherwise changes nothing. */
    method NextIsAndAdvanceChar(c: char) returns (b: bool)
      requires Valid()
      modifies this
      ensures Valid()
      ensures b <==> old(cursorPos) < |text| && text[old(cursorPos)] == c
      ensures cursorPos == if b then old(cursorPos) + 1 else old(cursorPos)
      ensures b ==> PreviousIs(c)
    {
      if !NextIsChar(c) {
        return false;
      }
      var consumed := Advance();
      return true;
    }

    /** Consumes `|str|` characters if the text from the cursor on starts with the
        all-lower-case or the all-upper-case form of `str`; otherwise changes nothing. */
    method NextIsAndAdvanceIgnoreCase(str: string) returns (b: bool)
      requires Valid()
      modifies this
      ensures Valid()
      ensures b <==> Lowercase(str) <= text[old(cursorPos)..] || Uppercase(str) <= text[old(cursorPos)..]
      ensures cursorPos == if b then old(cursorPos) + |str| else old(cursorPos)
    {
      if !NextIsIgnoreCase(str) {
        return false;
      }
      var consumed := AdvanceBy(|str|);
      return true;
    }

    /** Consumes the matched text if `find` reports a match starting exactly at the cursor;
        otherwise changes nothing. The advance is by the length of the reported match,
        clamped to the end of the text. */
    method NextMatchesAndAdvance(find: Finder) returns (r: Option<RegexMatch>)
      requires Valid()
      modifies this
      ensures Valid()
      ensures r == old(NextMatches(find))
      ensures r.None? ==> cursorPos == old(cursorPos)
      ensures r.Some? ==> cursorPos == Min(old(cursorPos) + |r.value.value|, |text|)
      ensures r.Some? && r.value.value <= text[old(cursorPos)..] ==>
                cursorPos == old(cursorPos) + |r.value.value| && text[old(cursorPos)..cursorPos] == r.value.value
    {
      r := NextMatches(find);
      if r.None? {
        return;
      }
      var consumed := AdvanceBy(|r.value.value|);
    }
  }

  /** A `str` that has both an upper-case and a lower-case ASCII letter (at `i` and `j`) is
      not matched by `NextIsIgnoreCase`, even where the text at the cursor is `str` itself:
      only its all-lower-case and all-upper-case forms are tried. */
  lemma MixedCaseDoesNotMatchItself(cursor: StringWithCursor, str: string, i: nat, j: nat)
    requires cursor.Valid() && str <= cursor.text[cursor.cursorPos..]
    requires i < |str| && 'A' <= str[i] <= 'Z'
    requires j < |str| && 'a' <= str[j] <= 'z'
    ensures !cursor.NextIsIgnoreCase(str)
  {
  }
}
