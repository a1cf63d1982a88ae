/** String helpers with the semantics of the JavaScript built-ins the engine
    uses: `String.prototype.trim`, `indexOf`, `lastIndexOf`, and the pieces of
    the regular expression that finds a fenced code block. */
module Text {
  import opened Wrappers

  /** The JavaScript WhiteSpace and LineTerminator code points: the set matched
      by `\s` in a regular expression and removed by `trim()`. */
  predicate IsSpace(c: char) {
    || c == '\t' || c == '\n' || c == '\U{000B}' || c == '\U{000C}' || c == '\r'
    || c == ' ' || c == '\U{00A0}' || c == '\U{1680}'
    || ('\U{2000}' <= c && c <= '\U{200A}')
    || c == '\U{2028}' || c == '\U{2029}' || c == '\U{202F}' || c == '\U{205F}'
    || c == '\U{3000}' || c == '\U{FEFF}'
  }

  predicate AllSpace(s: string) {
    forall i :: 0 <= i < |s| ==> IsSpace(s[i])
  }

  /** Neither the first nor the last character is white space. */
  predicate IsTrimmed(s: string) {
    s == [] || (!IsSpace(s[0]) && !IsSpace(s[|s| - 1]))
  }

  /** The start of the white-space run that ends at `hi`, looking no further
      back than `lo`. */
  function SpacesBefore(s: string, lo: nat, hi: nat): (b: nat)
    requires lo <= hi <= |s|
    ensures lo <= b <= hi
    ensures AllSpace(s[b..hi])
    ensures b == lo || !IsSpace(s[b - 1])
    decreases hi - lo
  {
    if lo < hi && IsSpace(s[hi - 1]) then
      var b := SpacesBefore(s, lo, hi - 1);
      assert s[b..hi] == s[b..hi - 1] + [s[hi - 1]];
      b
    else hi
  }

  /** `s.trim()`: `s` is some white space, then the result, then some white
      space, and the result neither starts nor ends with white space. */
  function Trim(s: string): (r: string)
    ensures IsTrimmed(r)
    ensures exists a, b :: 0 <= a <= b <= |s| && r == s[a..b] && AllSpace(s[..a]) && AllSpace(s[b..])
  {
    var a := SkipSpaces(s, 0);
    var b := SpacesBefore(s, a, |s|);
    assert s[..a] == s[0..a] && s[b..] == s[b..|s|];
    s[a..b]
  }

  /** A string that is already trimmed is left alone by `trim()`. */
  lemma {:induction false} TrimOfTrimmed(s: string)
    requires IsTrimmed(s)
    ensures Trim(s) == s
  {
    assert SkipSpaces(s, 0) == 0;
    assert SpacesBefore(s, 0, |s|) == |s|;
  }

  /** `s.indexOf(c)`: the first index holding `c`, or -1 when there is none. */
  function IndexOf(s: string, c: char): (r: int)
    ensures -1 <= r < |s|
    ensures r == -1 <==> c !in s
    ensures r >= 0 ==> s[r] == c && forall k :: 0 <= k < r ==> s[k] != c
  {
    if |s| == 0 then -1
    else if s[0] == c then 0
    else
      var k := IndexOf(s[1..], c);
      assert s == [s[0]] + s[1..];
      if k == -1 then -1 else k + 1
  }

  /** `s.lastIndexOf(c)`: the last index holding `c`, or -1 when there is none. */
  function LastIndexOf(s: string, c: char): (r: int)
    ensures -1 <= r < |s|
    ensures r == -1 <==> c !in s
    ensures r >= 0 ==> s[r] == c && forall k :: r < k < |s| ==> s[k] != c
  {
    if |s| == 0 then -1
    else if s[|s| - 1] == c then |s| - 1
    else
      var k := LastIndexOf(s[..|s| - 1], c);
      assert s == s[..|s| - 1] + [s[|s| - 1]];
      k
  }

  /** Three backticks, the code-fence marker, start at index `i`. */
  predicate FenceAt(s: string, i: int) {
    0 <= i && i + 3 <= |s| && s[i] == '`' && s[i + 1] == '`' && s[i + 2] == '`'
  }

  /** The first fence at or after `from`. */
  function FindFence(s: string, from: nat): (r: Option<nat>)
    ensures r.Some? ==> from <= r.value && FenceAt(s, r.value)
    ensures r.Some? ==> forall k :: from <= k < r.value ==> !FenceAt(s, k)
    ensures r.None? ==> forall k :: from <= k ==> !FenceAt(s, k)
    decreases |s| - from
  {
    if from + 3 > |s| then None
    else if FenceAt(s, from) then Some(from)
    else FindFence(s, from + 1)
  }

  /** The language tag `json` occurs in `s` at index `i`. */
  predicate JsonTagAt(s: string, i: nat) {
    i + 4 <= |s| && s[i] == 'j' && s[i + 1] == 's' && s[i + 2] == 'o' && s[i + 3] == 'n'
  }

  /** The first index at or after `from` that is not white space (or `|s|`):
      where a greedy `\s*` starting at `from` stops. */
  function SkipSpaces(s: string, from: nat): (r: nat)
    requires from <= |s|
    ensures from <= r <= |s|
    ensures AllSpace(s[from..r])
    ensures r == |s| || !IsSpace(s[r])
    decreases |s| - from
  {
    if from < |s| && IsSpace(s[from]) then
      var r := SkipSpaces(s, from + 1);
      assert s[from..r] == [s[from]] + s[from + 1..r];
      r
    else from
  }
}
