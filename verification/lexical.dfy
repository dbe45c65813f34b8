/** How the language reads a text byte by byte: code, strings, line comments and block comments that nest. */
module Lexical {
  // A line comment ends at a line feed only. A text is its bytes, one character each.

  import opened Wrappers

  /** The byte just before, where a comment mark may be half read. */
  datatype Half = Plain | Star | Slash

  datatype Mode =
    | Code
    | CodeSlash                       // code, after a slash
    | Line
    | Block(depth: nat, half: Half)
    | Str
    | Escape                          // a string, after a backslash

  function CodeStep(c: char): Mode {
    if c == '/' then CodeSlash else if c == '"' then Str else Code
  }

  function BlockStep(depth: nat, half: Half, c: char): Mode {
    if half == Star && c == '/' then (if depth <= 1 then Code else Block(depth - 1, Plain))
    else if half == Slash && c == '*' then Block(depth + 1, Plain)
    else Block(depth, if c == '*' then Star else if c == '/' then Slash else Plain)
  }

  function Step(m: Mode, c: char): Mode {
    match m
    case Code => CodeStep(c)
    case CodeSlash => if c == '/' then Line else if c == '*' then Block(1, Plain) else CodeStep(c)
    case Line => if c == '\n' then Code else Line
    case Block(depth, half) => BlockStep(depth, half, c)
    case Str => if c == '"' then Code else if c == '\\' then Escape else Str
    case Escape => Str
  }

  /** The mode before byte `i` of a reading that starts at `from` in mode `m`. */
  function ModeFrom(s: string, from: nat, m: Mode, i: nat): Mode
    requires i <= |s|
    decreases i
  {
    if i <= from then m else Step(ModeFrom(s, from, m, i - 1), s[i - 1])
  }

  /** The mode before byte `i` of the whole text. */
  function ModeAt(s: string, i: nat): Mode
    requires i <= |s|
  {
    ModeFrom(s, 0, Code, i)
  }

  predicate InCode(m: Mode) {
    m == Code || m == CodeSlash
  }

  /** A reading may be resumed anywhere. */
  lemma {:induction false} Resume(s: string, from: nat, m: Mode, mid: nat, i: nat)
    requires from <= mid <= i <= |s|
    ensures ModeFrom(s, from, m, i) == ModeFrom(s, mid, ModeFrom(s, from, m, mid), i)
    decreases i
  {
    if mid < i {
      Resume(s, from, m, mid, i - 1);
    }
  }

  /** Readings of two texts agree as long as the bytes do, at whatever offsets. */
  lemma {:induction false} SameBytes(s: string, a: nat, t: string, b: nat, m: Mode, n: nat)
    requires a + n <= |s| && b + n <= |t|
    requires s[a..a + n] == t[b..b + n]
    ensures ModeFrom(s, a, m, a + n) == ModeFrom(t, b, m, b + n)
  {
    if n > 0 {
      assert s[a + n - 1] == s[a..a + n][n - 1] && t[b + n - 1] == t[b..b + n][n - 1];
      assert s[a..a + n - 1] == s[a..a + n][..n - 1] && t[b..b + n - 1] == t[b..b + n][..n - 1];
      SameBytes(s, a, t, b, m, n - 1);
    }
  }

  predicate StartsWith(s: string, i: nat, a: char, b: char) {
    i + 1 < |s| && s[i] == a && s[i + 1] == b
  }

  /** The mode in which a block comment opened at `start` reaches byte `i`. */
  function BlockMode(s: string, start: nat, i: nat): Mode
    requires i <= |s|
  {
    ModeFrom(s, start + 2, Block(1, Plain), i)
  }

  /** The block comment opened at `start` is still open before every byte up to `end`. */
  ghost predicate OpenThrough(s: string, start: nat, end: nat)
    requires end <= |s|
  {
    forall k :: start + 2 <= k <= end ==> BlockMode(s, start, k).Block?
  }

  /** The block comment opened at `start` ends just before byte `end`, and not earlier. */
  ghost predicate ClosesAt(s: string, start: nat, end: nat) {
    start + 2 < end <= |s| && OpenThrough(s, start, end - 1) && BlockMode(s, start, end) == Code
  }

  /** What a search for the end of the comment that starts here has to answer. */
  ghost predicate BlockEnd(s: string, start: nat, end: Option<nat>) {
    if !StartsWith(s, start, '/', '*') then end == None
    else if end.Some? then ClosesAt(s, start, end.value)
    else OpenThrough(s, start, |s|)
  }

  /** A comment ends in one place at most, and not when it stays open. */
  lemma ClosesOnce(s: string, start: nat, a: nat, b: nat)
    requires ClosesAt(s, start, a)
    ensures ClosesAt(s, start, b) ==> a == b
    ensures b <= |s| && a <= b ==> !OpenThrough(s, start, b)
  {
  }

  /** The half mark in front of byte `i` does not combine with it. */
  predicate Settled(half: Half, s: string, i: nat) {
    (half == Star ==> i < |s| && s[i] != '/') && (half == Slash ==> i < |s| && s[i] != '*')
  }
}
