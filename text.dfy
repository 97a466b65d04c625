/** String operations of Python's `str` that the bot relies on, written out. */
module Text {

  predicate StartsWith(s: string, prefix: string) {
    |prefix| <= |s| && s[..|prefix|] == prefix
  }

  predicate EndsWith(s: string, suffix: string) {
    |suffix| <= |s| && s[|s| - |suffix|..] == suffix
  }

  /** `sub` occurs in `s` starting at index `i`. */
  predicate OccursAt(s: string, sub: string, i: int) {
    0 <= i && i + |sub| <= |s| && s[i..i + |sub|] == sub
  }

  /** `sub in s`, Python's substring test. */
  predicate Contains(s: string, sub: string) {
    exists i | 0 <= i <= |s| :: OccursAt(s, sub, i)
  }

  /** Concatenation of a sequence of strings (`"".join`). */
  function Concat(parts: seq<string>): string {
    if parts == [] then "" else parts[0] + Concat(parts[1..])
  }

  lemma {:induction false} ConcatAppend(a: seq<string>, b: seq<string>)
    ensures Concat(a + b) == Concat(a) + Concat(b)
  {
    if a == [] {
      assert a + b == b;
    } else {
      assert (a + b)[1..] == a[1..] + b;
      ConcatAppend(a[1..], b);
    }
  }

  /** Python's `str.lower()` restricted to ASCII letters. */
  function LowerChar(c: char): (r: char)
    ensures 'A' <= c <= 'Z' ==> 'a' <= r <= 'z'
    ensures !('A' <= c <= 'Z') ==> r == c
  {
    if 'A' <= c <= 'Z' then (c as int - 'A' as int + 'a' as int) as char else c
  }

  function Lower(s: string): (r: string)
    ensures |r| == |s|
    ensures forall i :: 0 <= i < |s| ==> r[i] == LowerChar(s[i])
  {
    if s == [] then "" else [LowerChar(s[0])] + Lower(s[1..])
  }

  /** Decimal rendering of a non-negative integer, as `str(n)` / an f-string gives it. */
  function NatToString(n: nat): (r: string)
    ensures |r| > 0
    ensures forall i :: 0 <= i < |r| ==> '0' <= r[i] <= '9'
  {
    if n < 10 then [Digit(n)] else NatToString(n / 10) + [Digit(n % 10)]
  }

  function Digit(d: nat): (c: char)
    requires d < 10
    ensures '0' <= c <= '9'
  {
    ("0123456789")[d]
  }

  /** `s.rstrip(c)`: every trailing `c` removed. */
  function RStrip(s: string, c: char): (r: string)
    ensures r <= s
    ensures r == [] || r[|r| - 1] != c
    ensures forall i :: |r| <= i < |s| ==> s[i] == c
  {
    if s != [] && s[|s| - 1] == c then RStrip(s[..|s| - 1], c) else s
  }

  /** `s.lstrip(c)`: every leading `c` removed. */
  function LStrip(s: string, c: char): (r: string)
    ensures |r| <= |s| && r == s[|s| - |r|..]
    ensures r == [] || r[0] != c
    ensures forall i :: 0 <= i < |s| - |r| ==> s[i] == c
  {
    if s != [] && s[0] == c then LStrip(s[1..], c) else s
  }

  /** `s.strip(c)`. */
  function Strip(s: string, c: char): string {
    RStrip(LStrip(s, c), c)
  }

  /**
   * `s.replace(pattern, replacement)`: scanning from the left, each occurrence of
   * `pattern` that does not overlap an earlier one becomes `replacement`.
   */
  function Replace(s: string, pattern: string, replacement: string): string
    requires pattern != ""
    decreases |s|
  {
    if StartsWith(s, pattern) then replacement + Replace(s[|pattern|..], pattern, replacement)
    else if s == [] then ""
    else [s[0]] + Replace(s[1..], pattern, replacement)
  }

  /** Text without the pattern's first character passes through `Replace` unchanged. */
  lemma {:induction false} ReplaceSkips(u: string, t: string, pattern: string, replacement: string)
    requires pattern != "" && pattern[0] !in u
    ensures Replace(u + t, pattern, replacement) == u + Replace(t, pattern, replacement)
  {
    if u != [] {
      assert (u + t)[0] == u[0] != pattern[0];
      assert (u + t)[1..] == u[1..] + t;
      ReplaceSkips(u[1..], t, pattern, replacement);
    } else {
      assert u + t == t;
    }
  }

  /** An occurrence at the front is replaced, and the scan resumes after it. */
  lemma ReplaceHead(t: string, pattern: string, replacement: string)
    requires pattern != ""
    ensures Replace(pattern + t, pattern, replacement) == replacement + Replace(t, pattern, replacement)
  {
    assert (pattern + t)[..|pattern|] == pattern;
    assert (pattern + t)[|pattern|..] == t;
  }

  /** The characters for which Python's `str.isspace()` holds. */
  predicate IsSpace(c: char) {
    || c == ' '
    || '\t' <= c <= '\r'
    || '\U{001C}' <= c <= '\U{001F}'
    || c == '\U{0085}' || c == '\U{00A0}' || c == '\U{1680}'
    || '\U{2000}' <= c <= '\U{200A}'
    || c == '\U{2028}' || c == '\U{2029}' || c == '\U{202F}' || c == '\U{205F}' || c == '\U{3000}'
  }

  /** A token of `str.split()`: non-empty, without whitespace. */
  predicate IsWord(t: string) {
    t != "" && forall i :: 0 <= i < |t| ==> !IsSpace(t[i])
  }

  /** Length of the run of non-whitespace characters that starts `s`. */
  function WordLength(s: string): (n: nat)
    ensures n <= |s|
    ensures forall i :: 0 <= i < n ==> !IsSpace(s[i])
    ensures n == |s| || IsSpace(s[n])
  {
    if s == [] || IsSpace(s[0]) then 0 else 1 + WordLength(s[1..])
  }

  /** `s.split()`: the maximal runs of non-whitespace characters, in order. */
  function Split(s: string): (ts: seq<string>)
    ensures forall k :: 0 <= k < |ts| ==> IsWord(ts[k])
    decreases |s|
  {
    if s == [] then []
    else if IsSpace(s[0]) then Split(s[1..])
    else
      var n := WordLength(s);
      [s[..n]] + Split(s[n..])
  }

  /** `" ".join(ts)`. */
  function Join(ts: seq<string>): string {
    if ts == [] then ""
    else if |ts| == 1 then ts[0]
    else ts[0] + " " + Join(ts[1..])
  }

  lemma {:induction false} WordLengthOfWord(w: string, s: string)
    requires IsWord(w)
    requires s == [] || IsSpace(s[0])
    ensures WordLength(w + s) == |w|
  {
    assert (w + s)[0] == w[0] && !IsSpace(w[0]);
    if |w| > 1 {
      assert (w + s)[1..] == w[1..] + s;
      WordLengthOfWord(w[1..], s);
    } else {
      assert (w + s)[1..] == s;
    }
  }

  /** Splitting undoes joining with single spaces. */
  lemma {:induction false} SplitJoin(ts: seq<string>)
    requires forall k :: 0 <= k < |ts| ==> IsWord(ts[k])
    ensures Split(Join(ts)) == ts
  {
    if ts == [] {
    } else if |ts| == 1 {
      WordLengthOfWord(ts[0], "");
      assert ts[0] + "" == ts[0];
      assert ts[0][|ts[0]|..] == "";
    } else {
      var w, rest := ts[0], " " + Join(ts[1..]);
      WordLengthOfWord(w, rest);
      assert Join(ts) == w + rest;
      assert (w + rest)[..|w|] == w && (w + rest)[|w|..] == rest;
      assert rest[1..] == Join(ts[1..]);
      SplitJoin(ts[1..]);
    }
  }
}
