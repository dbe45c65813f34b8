/** The scan for delimiters and comments that folding works on; it needs no parse. */
module Folding {
  import opened Wrappers
  import opened Lexical

  datatype ByteRange = ByteRange(start: nat, end: nat)
  datatype DelimiterRange = DelimiterRange(opening: char, range: ByteRange)
  datatype Open = Open(opening: char, at: nat)

  datatype LexicalStructure = LexicalStructure(
    delimiters: seq<DelimiterRange>,
    blockComments: seq<ByteRange>,
    lineComments: seq<ByteRange>
  )

  predicate Opens(c: char) {
    c == '{' || c == '(' || c == '['
  }

  predicate Closes(c: char) {
    c == '}' || c == ')' || c == ']'
  }

  function Expected(closing: char): char {
    if closing == '}' then '{' else if closing == ')' then '(' else '['
  }

  // ----- delimiters, byte by byte -----

  datatype Pairing = Pairing(open: seq<Open>, pairs: seq<DelimiterRange>)

  /** What byte `i` does, when it is code. */
  function PairStep(p: Pairing, c: char, i: nat): Pairing {
    if Opens(c) then p.(open := p.open + [Open(c, i)])
    else if Closes(c) && p.open != [] && p.open[|p.open| - 1].opening == Expected(c) then
      var top := p.open[|p.open| - 1];
      if top.at <= i then
        Pairing(p.open[..|p.open| - 1], p.pairs + [DelimiterRange(top.opening, ByteRange(top.at, i + 1))])
      else p
    else p
  }

  /** The delimiters of the first `i` bytes; bytes of comments and strings are no delimiters. */
  function Paired(s: string, i: nat): Pairing
    requires i <= |s|
  {
    if i == 0 then Pairing([], [])
    else if InCode(ModeAt(s, i - 1)) then PairStep(Paired(s, i - 1), s[i - 1], i - 1)
    else Paired(s, i - 1)
  }

  predicate CodeOpener(s: string, i: nat) {
    i < |s| && Opens(s[i]) && InCode(ModeAt(s, i))
  }

  /** A pair of an opening and its closing delimiter, both in code. */
  predicate GoodPair(s: string, d: DelimiterRange) {
    && d.range.start + 1 < d.range.end <= |s|
    && CodeOpener(s, d.range.start) && s[d.range.start] == d.opening
    && InCode(ModeAt(s, d.range.end - 1)) && Closes(s[d.range.end - 1]) && Expected(s[d.range.end - 1]) == d.opening
  }

  predicate NestedOrDisjoint(a: ByteRange, b: ByteRange) {
    || a.end <= b.start || b.end <= a.start
    || (a.start < b.start && b.end < a.end)
    || (b.start < a.start && a.end < b.end)
  }

  predicate Outside(p: nat, r: ByteRange) {
    p < r.start || r.end <= p
  }

  /** The open delimiters: in order, in code, and outside every pair. */
  ghost predicate OpenInOrder(s: string, p: Pairing, i: nat) {
    && (forall k :: 0 <= k < |p.open| ==>
          p.open[k].at < i && CodeOpener(s, p.open[k].at) && s[p.open[k].at] == p.open[k].opening)
    && (forall j, k :: 0 <= j < k < |p.open| ==> p.open[j].at < p.open[k].at)
    && (forall j, k :: 0 <= j < |p.open| && 0 <= k < |p.pairs| ==> Outside(p.open[j].at, p.pairs[k].range))
  }

  ghost predicate PairsWellFormed(s: string, p: Pairing, i: nat) {
    && (forall k :: 0 <= k < |p.pairs| ==> GoodPair(s, p.pairs[k]) && p.pairs[k].range.end <= i)
    && (forall j, k :: 0 <= j < k < |p.pairs| ==> NestedOrDisjoint(p.pairs[j].range, p.pairs[k].range))
  }

  ghost predicate OpenAt(p: Pairing, at: nat) {
    exists k :: 0 <= k < |p.open| && p.open[k].at == at
  }

  ghost predicate PairAt(p: Pairing, at: nat) {
    exists k :: 0 <= k < |p.pairs| && p.pairs[k].range.start == at
  }

  /** No opening delimiter is lost. */
  ghost predicate OpenersKept(s: string, p: Pairing, i: nat) {
    forall at :: 0 <= at < i && CodeOpener(s, at) ==> OpenAt(p, at) || PairAt(p, at)
  }

  lemma StepKeepsOrder(s: string, p: Pairing, i: nat)
    requires i < |s| && InCode(ModeAt(s, i)) && OpenInOrder(s, p, i) && PairsWellFormed(s, p, i)
    ensures OpenInOrder(s, PairStep(p, s[i], i), i + 1)
  {
  }

  lemma StepKeepsPairs(s: string, p: Pairing, i: nat)
    requires i < |s| && InCode(ModeAt(s, i)) && OpenInOrder(s, p, i) && PairsWellFormed(s, p, i)
    ensures PairsWellFormed(s, PairStep(p, s[i], i), i + 1)
  {
  }

  lemma StepKeepsOpeners(s: string, p: Pairing, i: nat)
    requires i < |s| && InCode(ModeAt(s, i)) && OpenInOrder(s, p, i) && OpenersKept(s, p, i)
    ensures OpenersKept(s, PairStep(p, s[i], i), i + 1)
  {
    var q := PairStep(p, s[i], i);
    forall at | 0 <= at < i + 1 && CodeOpener(s, at)
      ensures OpenAt(q, at) || PairAt(q, at)
    {
      if at == i {
        assert q.open[|p.open|].at == i;
      } else if OpenAt(p, at) {
        var k :| 0 <= k < |p.open| && p.open[k].at == at;
        if k < |q.open| {
          assert q.open[k].at == at;
        } else {
          assert q.pairs[|p.pairs|].range.start == at;
        }
      } else {
        var k :| 0 <= k < |p.pairs| && p.pairs[k].range.start == at;
        assert q.pairs[k].range.start == at;
      }
    }
  }

  /** Pairs are nested or disjoint, made of matching delimiters of the code, and no opening delimiter is lost. */
  lemma {:induction false} PairingIsSound(s: string, i: nat)
    requires i <= |s|
    ensures OpenInOrder(s, Paired(s, i), i)
    ensures PairsWellFormed(s, Paired(s, i), i)
    ensures OpenersKept(s, Paired(s, i), i)
  {
    if i > 0 {
      PairingIsSound(s, i - 1);
      var p := Paired(s, i - 1);
      if InCode(ModeAt(s, i - 1)) {
        StepKeepsOrder(s, p, i - 1);
        StepKeepsPairs(s, p, i - 1);
        StepKeepsOpeners(s, p, i - 1);
      }
    }
  }

  lemma NoOpenInside(s: string, p: Pairing, i: nat, j: nat, at: nat)
    requires OpenInOrder(s, p, i) && j < |p.pairs| && p.pairs[j].range.start <= at < p.pairs[j].range.end
    ensures !OpenAt(p, at)
  {
    forall k | 0 <= k < |p.open|
      ensures p.open[k].at != at
    {
      assert Outside(p.open[k].at, p.pairs[j].range);
    }
  }

  lemma InnerEndsInside(s: string, p: Pairing, i: nat, j: nat, k: nat)
    requires PairsWellFormed(s, p, i) && j < |p.pairs| && k < |p.pairs|
    requires p.pairs[j].range.start <= p.pairs[k].range.start < p.pairs[j].range.end
    ensures p.pairs[k].range.end <= p.pairs[j].range.end
  {
    if j < k {
      assert NestedOrDisjoint(p.pairs[j].range, p.pairs[k].range);
    } else if k < j {
      assert NestedOrDisjoint(p.pairs[k].range, p.pairs[j].range);
    }
  }

  lemma InsideOf(s: string, p: Pairing, i: nat, j: nat, at: nat)
    requires OpenInOrder(s, p, i) && PairsWellFormed(s, p, i) && OpenersKept(s, p, i)
    requires at < i && CodeOpener(s, at)
    requires j < |p.pairs| && p.pairs[j].range.start <= at < p.pairs[j].range.end
    ensures exists e :: e in p.pairs && e.range.start == at && e.range.end <= p.pairs[j].range.end
  {
    NoOpenInside(s, p, i, j, at);
    var k :| 0 <= k < |p.pairs| && p.pairs[k].range.start == at;
    InnerEndsInside(s, p, i, j, k);
    assert p.pairs[k] in p.pairs;
  }

  /** Inside a pair, every opening delimiter of the code is paired inside it too. */
  lemma InsideIsPaired(s: string, d: DelimiterRange, at: nat)
    requires d in Paired(s, |s|).pairs && d.range.start <= at < d.range.end && CodeOpener(s, at)
    ensures exists e :: e in Paired(s, |s|).pairs && e.range.start == at && e.range.end <= d.range.end
  {
    PairingIsSound(s, |s|);
    var p := Paired(s, |s|);
    var j :| 0 <= j < |p.pairs| && p.pairs[j] == d;
    InsideOf(s, p, |s|, j, at);
  }

  // ----- comments -----

  ghost predicate LineCommentAt(s: string, r: ByteRange) {
    && StartsWith(s, r.start, '/', '/') && ModeAt(s, r.start) == Code
    && r.start + 2 <= r.end <= |s|
    && (forall k :: r.start + 2 <= k < r.end ==> s[k] != '\n')
    && (r.end < |s| ==> s[r.end] == '\n')
  }

  ghost predicate BlockCommentAt(s: string, r: ByteRange) {
    && StartsWith(s, r.start, '/', '*') && ModeAt(s, r.start) == Code
    && (ClosesAt(s, r.start, r.end) || (r.end == |s| && OpenThrough(s, r.start, |s|)))
  }

  /** The two scanners agree on where a comment ends; one that does not end runs to the end of the text here. */
  lemma BlockEndsAgree(s: string, r: ByteRange, end: Option<nat>)
    requires BlockCommentAt(s, r) && BlockEnd(s, r.start, end)
    ensures r.end == if end.Some? then end.value else |s|
  {
    if end.Some? {
      ClosesOnce(s, r.start, end.value, r.end);
    }
  }

  ghost predicate InOrder(ranges: seq<ByteRange>, i: nat) {
    && (forall k :: 0 <= k < |ranges| ==> ranges[k].start < ranges[k].end <= i)
    && (forall j, k :: 0 <= j < k < |ranges| ==> ranges[j].end <= ranges[k].start)
  }

  ghost predicate RangeAt(ranges: seq<ByteRange>, start: nat) {
    exists k :: 0 <= k < |ranges| && ranges[k].start == start
  }

  /** The line comments that start before `i`, all of them, in order. */
  ghost predicate LineComments(s: string, ranges: seq<ByteRange>, i: nat)
    requires i <= |s|
  {
    && InOrder(ranges, i)
    && (forall k :: 0 <= k < |ranges| ==> LineCommentAt(s, ranges[k]))
    && (forall a :: 0 <= a < i && StartsWith(s, a, '/', '/') && ModeAt(s, a) == Code ==> RangeAt(ranges, a))
  }

  ghost predicate BlockComments(s: string, ranges: seq<ByteRange>, i: nat)
    requires i <= |s|
  {
    && InOrder(ranges, i)
    && (forall k :: 0 <= k < |ranges| ==> BlockCommentAt(s, ranges[k]))
    && (forall a :: 0 <= a < i && StartsWith(s, a, '/', '*') && ModeAt(s, a) == Code ==> RangeAt(ranges, a))
  }

  /** The scan is between two lexical items, or at the end. */
  predicate AtTop(s: string, i: nat) {
    && i <= |s|
    && (i < |s| ==>
          || ModeAt(s, i) == Code
          || (ModeAt(s, i) == CodeSlash && s[i] != '/' && s[i] != '*')
          || (ModeAt(s, i) == Line && s[i] == '\n'))
  }

  /** The byte is not code, or the second of a comment mark. */
  predicate NotCode(s: string, k: nat)
    requires k < |s|
  {
    ModeAt(s, k) != Code && (ModeAt(s, k) == CodeSlash ==> s[k] == '/' || s[k] == '*')
  }

  /** No byte after `i` and before `j` is read as code. */
  ghost predicate Skipped(s: string, i: nat, j: nat)
    requires j <= |s|
  {
    forall k :: i < k < j ==> NotCode(s, k)
  }

  /** The same, by what the modes are. */
  ghost predicate ModesSkipped(s: string, i: nat, j: nat)
    requires j <= |s|
  {
    forall k :: i < k < j ==> ModeAt(s, k) != Code && (ModeAt(s, k) == CodeSlash ==> s[k] == '/' || s[k] == '*')
  }

  lemma SkippedModes(s: string, i: nat, j: nat)
    requires j <= |s| && Skipped(s, i, j)
    ensures ModesSkipped(s, i, j)
  {
    forall k | i < k < j
      ensures ModeAt(s, k) != Code && (ModeAt(s, k) == CodeSlash ==> s[k] == '/' || s[k] == '*')
    {
      assert NotCode(s, k);
    }
  }

  lemma {:induction false} SkippingKeepsPairs(s: string, i: nat, j: nat)
    requires i < j <= |s| && ModesSkipped(s, i, j) && !Opens(s[i]) && !Closes(s[i])
    ensures Paired(s, j) == Paired(s, i)
    decreases j
  {
    if i + 1 < j {
      SkippingKeepsPairs(s, i, j - 1);
    }
  }

  lemma SkippingKeepsLines(s: string, lines: seq<ByteRange>, i: nat, j: nat)
    requires i < j <= |s| && ModesSkipped(s, i, j) && LineComments(s, lines, i)
    requires !(ModeAt(s, i) == Code && StartsWith(s, i, '/', '/'))
    ensures LineComments(s, lines, j)
  {
  }

  lemma SkippingKeepsBlocks(s: string, blocks: seq<ByteRange>, i: nat, j: nat)
    requires i < j <= |s| && ModesSkipped(s, i, j) && BlockComments(s, blocks, i)
    requires !(ModeAt(s, i) == Code && StartsWith(s, i, '/', '*'))
    ensures BlockComments(s, blocks, j)
  {
  }

  lemma SkippingKeepsComments(s: string, lines: seq<ByteRange>, blocks: seq<ByteRange>, i: nat, j: nat)
    requires i < j <= |s| && ModesSkipped(s, i, j) && LineComments(s, lines, i) && BlockComments(s, blocks, i)
    requires !(ModeAt(s, i) == Code && StartsWith(s, i, '/', '/'))
      && !(ModeAt(s, i) == Code && StartsWith(s, i, '/', '*'))
    ensures LineComments(s, lines, j) && BlockComments(s, blocks, j)
  {
    SkippingKeepsLines(s, lines, i, j);
    SkippingKeepsBlocks(s, blocks, i, j);
  }

  lemma RangeAdded(ranges: seq<ByteRange>, r: ByteRange, start: nat)
    requires RangeAt(ranges, start) || r.start == start
    ensures RangeAt(ranges + [r], start)
  {
    var next := ranges + [r];
    if r.start == start {
      assert next[|ranges|].start == start;
    } else {
      var k :| 0 <= k < |ranges| && ranges[k].start == start;
      assert next[k].start == start;
    }
  }

  lemma OrderExtends(ranges: seq<ByteRange>, i: nat, j: nat)
    requires InOrder(ranges, i) && i < j
    ensures InOrder(ranges + [ByteRange(i, j)], j)
  {
  }

  lemma LinesExtend(s: string, lines: seq<ByteRange>, i: nat, j: nat)
    requires i < j <= |s| && ModesSkipped(s, i, j) && LineComments(s, lines, i) && LineCommentAt(s, ByteRange(i, j))
    ensures LineComments(s, lines + [ByteRange(i, j)], j)
  {
    OrderExtends(lines, i, j);
    forall a | 0 <= a < j && StartsWith(s, a, '/', '/') && ModeAt(s, a) == Code
      ensures RangeAt(lines + [ByteRange(i, j)], a)
    {
      RangeAdded(lines, ByteRange(i, j), a);
    }
  }

  lemma BlocksExtend(s: string, blocks: seq<ByteRange>, i: nat, j: nat)
    requires i < j <= |s| && ModesSkipped(s, i, j) && BlockComments(s, blocks, i) && BlockCommentAt(s, ByteRange(i, j))
    ensures BlockComments(s, blocks + [ByteRange(i, j)], j)
  {
    OrderExtends(blocks, i, j);
    forall a | 0 <= a < j && StartsWith(s, a, '/', '*') && ModeAt(s, a) == Code
      ensures RangeAt(blocks + [ByteRange(i, j)], a)
    {
      RangeAdded(blocks, ByteRange(i, j), a);
    }
  }

  lemma LineCommentFound(s: string, lines: seq<ByteRange>, blocks: seq<ByteRange>, i: nat, j: nat)
    requires i < j <= |s| && ModesSkipped(s, i, j) && LineComments(s, lines, i) && BlockComments(s, blocks, i)
    requires LineCommentAt(s, ByteRange(i, j))
    ensures LineComments(s, lines + [ByteRange(i, j)], j) && BlockComments(s, blocks, j)
  {
    LinesExtend(s, lines, i, j);
    SkippingKeepsBlocks(s, blocks, i, j);
  }

  lemma BlockCommentFound(s: string, lines: seq<ByteRange>, blocks: seq<ByteRange>, i: nat, j: nat)
    requires i < j <= |s| && ModesSkipped(s, i, j) && LineComments(s, lines, i) && BlockComments(s, blocks, i)
    requires BlockCommentAt(s, ByteRange(i, j))
    ensures LineComments(s, lines, j) && BlockComments(s, blocks + [ByteRange(i, j)], j)
  {
    SkippingKeepsLines(s, lines, i, j);
    BlocksExtend(s, blocks, i, j);
  }

  // ----- the scan -----

  lemma StringStep(s: string, i: nat)
    requires i < |s| && ModeAt(s, i) == Str
    ensures NotCode(s, i)
    ensures s[i] == '"' ==> ModeAt(s, i + 1) == Code
    ensures s[i] == '\\' && i + 1 < |s| ==> NotCode(s, i + 1) && ModeAt(s, i + 2) == Str
    ensures s[i] != '"' && s[i] != '\\' ==> ModeAt(s, i + 1) == Str
  {
    assert ModeAt(s, i + 1) == Step(Str, s[i]);
  }

  /** Past the string literal that starts at `start`, or to the end of the text. */
  method SkipString(bytes: string, start: nat) returns (i: nat)
    requires start < |bytes| && bytes[start] == '"' && InCode(ModeAt(bytes, start))
    ensures start < i <= |bytes| && AtTop(bytes, i) && Skipped(bytes, start, i)
  {
    i := start + 1;
    while i < |bytes|
      invariant start < i <= |bytes| && Skipped(bytes, start, i)
      invariant i < |bytes| ==> ModeAt(bytes, i) == Str
    {
      StringStep(bytes, i);
      if bytes[i] == '\\' {
        i := if i + 2 <= |bytes| then i + 2 else |bytes|;
      } else if bytes[i] == '"' {
        i := i + 1;
        break;
      } else {
        i := i + 1;
      }
    }
  }

  method SkipLine(bytes: string, start: nat) returns (i: nat)
    requires StartsWith(bytes, start, '/', '/') && ModeAt(bytes, start) == Code
    ensures start < i <= |bytes| && AtTop(bytes, i) && Skipped(bytes, start, i)
    ensures LineCommentAt(bytes, ByteRange(start, i))
  {
    i := start + 2;
    assert ModeAt(bytes, start + 1) == CodeSlash;
    assert NotCode(bytes, start + 1);
    while i < |bytes| && bytes[i] != '\n'
      invariant start + 2 <= i <= |bytes| && Skipped(bytes, start, i) && ModeAt(bytes, i) == Line
      invariant forall k :: start + 2 <= k < i ==> bytes[k] != '\n'
    {
      assert NotCode(bytes, i);
      i := i + 1;
    }
  }

  /** A block comment met in the scan behaves as on its own. */
  lemma BlockInTheScan(s: string, start: nat, i: nat)
    requires StartsWith(s, start, '/', '*') && ModeAt(s, start) == Code && start + 2 <= i <= |s|
    ensures ModeAt(s, i) == BlockMode(s, start, i)
  {
    assert ModeAt(s, start + 1) == CodeSlash;
    assert ModeAt(s, start + 2) == Block(1, Plain);
    Resume(s, 0, Code, start + 2, i);
  }

  lemma BlockIsSkipped(s: string, start: nat, i: nat)
    requires StartsWith(s, start, '/', '*') && ModeAt(s, start) == Code && start + 2 <= i <= |s|
    requires forall k :: start + 2 <= k < i ==> BlockMode(s, start, k).Block?
    ensures Skipped(s, start, i)
  {
    assert ModeAt(s, start + 1) == CodeSlash;
    forall k | start < k < i
      ensures NotCode(s, k)
    {
      if start + 2 <= k {
        BlockInTheScan(s, start, k);
      }
    }
  }

  method SkipBlock(bytes: string, start: nat) returns (i: nat)
    requires StartsWith(bytes, start, '/', '*') && ModeAt(bytes, start) == Code
    ensures start < i <= |bytes| && AtTop(bytes, i) && Skipped(bytes, start, i)
    ensures BlockCommentAt(bytes, ByteRange(start, i))
  {
    var depth := 1;
    i := start + 2;
    ghost var half := Plain;
    while i < |bytes| && depth > 0
      invariant start + 2 <= i <= |bytes| && depth >= 0
      invariant depth > 0 ==> OpenThrough(bytes, start, i) && BlockMode(bytes, start, i) == Block(depth, half)
      invariant depth > 0 && i < |bytes| ==> Settled(half, bytes, i)
      invariant depth == 0 ==> ClosesAt(bytes, start, i)
    {
      if StartsWith(bytes, i, '/', '*') {
        assert BlockMode(bytes, start, i + 1) == Block(depth, Slash);
        assert BlockMode(bytes, start, i + 2) == Block(depth + 1, Plain);
        depth, i, half := depth + 1, i + 2, Plain;
      } else if StartsWith(bytes, i, '*', '/') {
        assert BlockMode(bytes, start, i + 1) == Block(depth, Star);
        assert BlockMode(bytes, start, i + 2) == if depth == 1 then Code else Block(depth - 1, Plain);
        depth, i, half := depth - 1, i + 2, Plain;
      } else {
        half := if bytes[i] == '*' then Star else if bytes[i] == '/' then Slash else Plain;
        i := i + 1;
        assert BlockMode(bytes, start, i) == Block(depth, half);
      }
    }
    BlockIsSkipped(bytes, start, i);
    BlockInTheScan(bytes, start, i);
  }

  /** What a byte of code does to the open delimiters and the pairs. */
  method PairDelimiter(pairing: Pairing, c: char, i: nat) returns (next: Pairing)
    requires forall k :: 0 <= k < |pairing.open| ==> pairing.open[k].at < i
    ensures next == PairStep(pairing, c, i)
  {
    next := pairing;
    if Opens(c) {
      next := pairing.(open := pairing.open + [Open(c, i)]);
    } else if Closes(c) {
      var n := |pairing.open|;
      if n > 0 && pairing.open[n - 1].opening == Expected(c) {
        var top := pairing.open[n - 1];
        var range := DelimiterRange(top.opening, ByteRange(top.at, i + 1));
        next := Pairing(pairing.open[..n - 1], pairing.pairs + [range]);
      }
    }
  }

  /** A byte that starts neither a string nor a comment. */
  lemma OtherByte(s: string, lines: seq<ByteRange>, blocks: seq<ByteRange>, i: nat)
    requires i < |s| && AtTop(s, i) && LineComments(s, lines, i) && BlockComments(s, blocks, i)
    requires s[i] != '"' && !StartsWith(s, i, '/', '/') && !StartsWith(s, i, '/', '*')
    ensures forall k :: 0 <= k < |Paired(s, i).open| ==> Paired(s, i).open[k].at < i
    ensures AtTop(s, i + 1) && Paired(s, i + 1) == PairStep(Paired(s, i), s[i], i)
    ensures LineComments(s, lines, i + 1) && BlockComments(s, blocks, i + 1)
  {
    PairingIsSound(s, i);
    SkippingKeepsComments(s, lines, blocks, i, i + 1);
  }

  lemma StringSkipped(s: string, lines: seq<ByteRange>, blocks: seq<ByteRange>, i: nat, j: nat)
    requires i < j <= |s| && Skipped(s, i, j) && LineComments(s, lines, i) && BlockComments(s, blocks, i)
    requires s[i] == '"'
    ensures Paired(s, j) == Paired(s, i)
    ensures LineComments(s, lines, j) && BlockComments(s, blocks, j)
  {
    SkippedModes(s, i, j);
    SkippingKeepsPairs(s, i, j);
    SkippingKeepsComments(s, lines, blocks, i, j);
  }

  lemma LineSkipped(s: string, lines: seq<ByteRange>, blocks: seq<ByteRange>, i: nat, j: nat)
    requires i < j <= |s| && Skipped(s, i, j) && LineComments(s, lines, i) && BlockComments(s, blocks, i)
    requires LineCommentAt(s, ByteRange(i, j))
    ensures Paired(s, j) == Paired(s, i)
    ensures LineComments(s, lines + [ByteRange(i, j)], j) && BlockComments(s, blocks, j)
  {
    SkippedModes(s, i, j);
    SkippingKeepsPairs(s, i, j);
    LineCommentFound(s, lines, blocks, i, j);
  }

  lemma BlockSkipped(s: string, lines: seq<ByteRange>, blocks: seq<ByteRange>, i: nat, j: nat)
    requires i < j <= |s| && Skipped(s, i, j) && LineComments(s, lines, i) && BlockComments(s, blocks, i)
    requires BlockCommentAt(s, ByteRange(i, j))
    ensures Paired(s, j) == Paired(s, i)
    ensures LineComments(s, lines, j) && BlockComments(s, blocks + [ByteRange(i, j)], j)
  {
    SkippedModes(s, i, j);
    SkippingKeepsPairs(s, i, j);
    BlockCommentFound(s, lines, blocks, i, j);
  }

  /** The whole scan: the pairs of the text, and all its comments in order. */
  method ScanSource(source: string) returns (result: LexicalStructure)
    ensures result.delimiters == Paired(source, |source|).pairs
    ensures LineComments(source, result.lineComments, |source|)
    ensures BlockComments(source, result.blockComments, |source|)
  {
    var pairing := Pairing([], []);
    var blocks, lines := [], [];
    var i := 0;
    while i < |source|
      invariant AtTop(source, i) && pairing == Paired(source, i)
      invariant LineComments(source, lines, i) && BlockComments(source, blocks, i)
    {
      var start := i;
      if source[i] == '"' {
        i := SkipString(source, start);
        StringSkipped(source, lines, blocks, start, i);
      } else if StartsWith(source, i, '/', '/') {
        i := SkipLine(source, start);
        LineSkipped(source, lines, blocks, start, i);
        lines := lines + [ByteRange(start, i)];
      } else if StartsWith(source, i, '/', '*') {
        i := SkipBlock(source, start);
        BlockSkipped(source, lines, blocks, start, i);
        blocks := blocks + [ByteRange(start, i)];
      } else {
        OtherByte(source, lines, blocks, start);
        pairing := PairDelimiter(pairing, source[i], i);
        i := i + 1;
      }
    }
    result := LexicalStructure(pairing.pairs, blocks, lines);
  }
}
