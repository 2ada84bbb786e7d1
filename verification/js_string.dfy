/** The part of JavaScript's `String.prototype.substring` the typewriter relies on:
    both indices are clamped to `[0, length]` and swapped when the start exceeds the end. */
module JsString {

  /** Clamps an index into `[0, len]`, as `substring` does with each argument. */
  function Clamp(x: int, len: nat): (r: nat)
    ensures r <= len
    ensures 0 <= x <= len ==> r == x
    ensures x < 0 ==> r == 0
    ensures x > len ==> r == len
  {
    if x < 0 then 0 else if x > len then len else x
  }

  /** `s.substring(start, end)`. */
  function Substring(s: string, start: int, end: int): (r: string)
    ensures start <= end ==> r == s[Clamp(start, |s|)..Clamp(end, |s|)]
    ensures end < start ==> r == s[Clamp(end, |s|)..Clamp(start, |s|)]
    ensures 0 <= start <= end <= |s| ==> r == s[start..end]
    ensures start <= 0 ==> r <= s
    ensures start <= 0 && 0 <= end <= |s| ==> |r| == end
    ensures |r| <= |s|
  {
    var a := Clamp(start, |s|);
    var b := Clamp(end, |s|);
    if a <= b then s[a..b] else s[b..a]
  }

  /** How `substring` treats its arguments: their order does not matter, and an index
      below 0 acts as 0 and one past the end as the length. */
  lemma SubstringNormalises(s: string, start: int, end: int)
    ensures Substring(s, start, end) == Substring(s, end, start)
    ensures end < 0 ==> Substring(s, start, end) == Substring(s, start, 0)
    ensures end > |s| ==> Substring(s, start, end) == Substring(s, start, |s|)
    ensures start < 0 ==> Substring(s, start, end) == Substring(s, 0, end)
    ensures start > |s| ==> Substring(s, start, end) == Substring(s, |s|, end)
  {
  }

  /** Three concrete calls: `"abc".substring(2, 0)` is `"ab"`, `"abc".substring(0, 9)` is `"abc"`
      and `"abc".substring(-4, 1)` is `"a"`. */
  lemma SubstringExamples()
    ensures Substring("abc", 2, 0) == "ab"
    ensures Substring("abc", 0, 9) == "abc"
    ensures Substring("abc", -4, 1) == "a"
  {
  }
}
