/** The JavaScript string built-ins the add-on engine relies on, stated as
    functions over `seq<char>`: `indexOf`, `lastIndexOf`, `replace` with a
    string pattern, and `toUpperCase`. Indices are `int` so that the `-1`
    "not found" answer of the built-ins is kept as it is. */
module JsStrings {

  /** `pat` occurs in `s` starting at index `i`. */
  predicate OccursAt(s: string, pat: string, i: int)
  {
    0 <= i && i + |pat| <= |s| && s[i..i + |pat|] == pat
  }

  /** Clamping of a `position` argument to `[0, |s|]`, as `indexOf` does. */
  function ClampPosition(s: string, position: int): (start: nat)
    ensures start <= |s|
    ensures 0 <= position <= |s| ==> start == position
    ensures position < 0 ==> start == 0
    ensures position > |s| ==> start == |s|
  {
    if position < 0 then 0 else if position > |s| then |s| else position
  }

  /** First occurrence of `pat` at or after `i`, or -1. */
  function ScanForward(s: string, pat: string, i: nat): (r: int)
    requires i <= |s|
    ensures r == -1 || (i <= r && OccursAt(s, pat, r))
    ensures forall j :: i <= j && (r == -1 || j < r) ==> !OccursAt(s, pat, j)
    decreases |s| - i
  {
    if i + |pat| > |s| then -1
    else if OccursAt(s, pat, i) then i
    else ScanForward(s, pat, i + 1)
  }

  /** Last occurrence of `pat` at or before `i`, or -1. */
  function ScanBackward(s: string, pat: string, i: int): (r: int)
    ensures r == -1 || (0 <= r <= i && OccursAt(s, pat, r))
    ensures forall j :: r < j <= i ==> !OccursAt(s, pat, j)
    decreases i
  {
    if i < 0 then -1
    else if OccursAt(s, pat, i) then i
    else ScanBackward(s, pat, i - 1)
  }

  /** `s.indexOf(pat, position)`: the least index at or after the clamped
      position where `pat` occurs, or -1 when there is none. */
  function IndexOf(s: string, pat: string, position: int): (r: int)
    ensures r == -1 || (ClampPosition(s, position) <= r && OccursAt(s, pat, r))
    ensures forall j :: ClampPosition(s, position) <= j && (r == -1 || j < r) ==> !OccursAt(s, pat, j)
  {
    ScanForward(s, pat, ClampPosition(s, position))
  }

  /** `s.lastIndexOf(pat)`: the greatest index where `pat` occurs, or -1. */
  function LastIndexOf(s: string, pat: string): (r: int)
    ensures r == -1 || OccursAt(s, pat, r)
    ensures forall j :: r < j ==> !OccursAt(s, pat, j)
  {
    ScanBackward(s, pat, |s| - |pat|)
  }

  /** `s.includes(pat)`. */
  function Contains(s: string, pat: string): (b: bool)
    ensures b <==> exists i :: OccursAt(s, pat, i)
  {
    IndexOf(s, pat, 0) != -1
  }

  /** `s.replace(pat, rep)` with a string pattern: only the first occurrence
      is replaced, and a string without `pat` comes back unchanged. */
  function ReplaceFirst(s: string, pat: string, rep: string): (r: string)
    ensures (forall i :: !OccursAt(s, pat, i)) ==> r == s
    ensures forall j {:trigger OccursAt(s, pat, j)} ::
              OccursAt(s, pat, j) && (forall i :: 0 <= i < j ==> !OccursAt(s, pat, i)) ==>
                r == s[..j] + rep + s[j + |pat|..]
  {
    var j := IndexOf(s, pat, 0);
    if j == -1 then s else s[..j] + rep + s[j + |pat|..]
  }

  /** `c.toUpperCase()` for one character, over the ASCII letters. */
  function UpperChar(c: char): char
  {
    if 'a' <= c <= 'z' then (c as int - 32) as char else c
  }

  /** `s.toUpperCase()`, over the ASCII letters. */
  function Upper(s: string): (r: string)
    ensures |r| == |s|
    ensures forall i :: 0 <= i < |s| ==> r[i] == UpperChar(s[i])
    ensures forall i :: 0 <= i < |s| ==> !('a' <= r[i] <= 'z')
  {
    seq(|s|, i requires 0 <= i < |s| => UpperChar(s[i]))
  }
}
