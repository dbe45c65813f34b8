/** Where a new declaration may be inserted after an existing one, and how the text reads afterwards. */
module ImportEdits {
  import opened Wrappers
  import opened Lexical

  datatype LineInsertion =
    | AtNextLine(offset: nat)
    | AtEndOfFile(offset: nat)
    | BeforeSameLineCode(offset: nat)

  datatype ImportEdit = ImportEdit(start: nat, end: nat, replacement: string)

  predicate Blank(c: char) {
    c == ' ' || c == '\t' || c == 12 as char
  }

  predicate LineBreak(c: char) {
    c == '\r' || c == '\n'
  }

  // ----- comments -----

  method SkipLineComment(bytes: string, start: nat) returns (end: nat)
    requires start <= |bytes|
    ensures start <= end <= |bytes|
    ensures forall k :: start <= k < end ==> !LineBreak(bytes[k])
    ensures end < |bytes| ==> LineBreak(bytes[end])
  {
    end := start;
    while end < |bytes| && !LineBreak(bytes[end])
      invariant start <= end <= |bytes|
      invariant forall k :: start <= k < end ==> !LineBreak(bytes[k])
    {
      end := end + 1;
    }
  }

  /** The end of the block comment that starts here, nested comments included. */
  method SkipBlockComment(bytes: string, start: nat) returns (end: Option<nat>)
    ensures BlockEnd(bytes, start, end)
  {
    if !StartsWith(bytes, start, '/', '*') {
      return None;
    }
    var depth, index := 1, start + 2;
    ghost var half := Plain;
    while index + 1 < |bytes|
      invariant start + 2 <= index <= |bytes| && depth >= 1
      invariant OpenThrough(bytes, start, index)
      invariant BlockMode(bytes, start, index) == Block(depth, half) && Settled(half, bytes, index)
    {
      ghost var a, b := bytes[index], bytes[index + 1];
      if bytes[index] == '/' && bytes[index + 1] == '*' {
        assert BlockMode(bytes, start, index + 1) == Block(depth, Slash);
        assert BlockMode(bytes, start, index + 2) == Block(depth + 1, Plain);
        depth, index, half := depth + 1, index + 2, Plain;
      } else if bytes[index] == '*' && bytes[index + 1] == '/' {
        assert BlockMode(bytes, start, index + 1) == Block(depth, Star);
        assert BlockMode(bytes, start, index + 2) == if depth == 1 then Code else Block(depth - 1, Plain);
        depth, index, half := depth - 1, index + 2, Plain;
        if depth == 0 {
          return Some(index);
        }
      } else {
        half := if a == '*' then Star else if a == '/' then Slash else Plain;
        index := index + 1;
        assert BlockMode(bytes, start, index) == Block(depth, half);
      }
    }
    if index < |bytes| {
      assert BlockMode(bytes, start, |bytes|).Block?;
    }
    return None;
  }

  // ----- the end of the line -----

  /** A byte that may stand between a declaration and the end of its line. */
  predicate TriviaStep(m: Mode, c: char) {
    match m
    case Code => Blank(c) || c == '/'
    case CodeSlash => c == '/' || c == '*'
    case Line => !LineBreak(c)
    case Block(_, _) => true
    case Str => false
    case Escape => false
  }

  ghost predicate Trivia(s: string, from: nat, to: nat)
    requires to <= |s|
  {
    forall k {:trigger ModeFrom(s, from, Code, k)} ::
      from <= k < to ==> TriviaStep(ModeFrom(s, from, Code, k), s[k])
  }

  /** The line break at `i` ends before `end`: a carriage return takes a line feed after it along. */
  predicate BreaksLine(s: string, i: nat, end: nat) {
    && i < |s|
    && LineBreak(s[i])
    && end == if StartsWith(s, i, '\r', '\n') then i + 2 else i + 1
  }

  predicate StartsComment(s: string, i: nat) {
    StartsWith(s, i, '/', '/') || StartsWith(s, i, '/', '*')
  }

  /** The blanks and comments after `from` stop before byte `p`. */
  ghost predicate TriviaEnds(s: string, from: nat, p: nat) {
    from <= p <= |s| && Trivia(s, from, p) && ModeFrom(s, from, Code, p) != CodeSlash
  }

  /** What a search from `from` has to answer; nothing when the line ends in an open block comment. */
  ghost predicate LineEnd(s: string, from: nat, r: Option<LineInsertion>)
    requires from <= |s|
  {
    match r
    case None => TriviaEnds(s, from, |s|) && ModeFrom(s, from, Code, |s|).Block?
    case Some(line) => LineEndAt(s, from, line)
  }

  ghost predicate LineEndAt(s: string, from: nat, line: LineInsertion)
    requires from <= |s|
  {
    match line
    case AtEndOfFile(offset) =>
      offset == |s| && TriviaEnds(s, from, |s|) && !ModeFrom(s, from, Code, |s|).Block?
    case AtNextLine(offset) =>
      exists p :: TriviaEnds(s, from, p) && !ModeFrom(s, from, Code, p).Block? && BreaksLine(s, p, offset)
    case BeforeSameLineCode(offset) =>
      && TriviaEnds(s, from, offset) && ModeFrom(s, from, Code, offset) == Code
      && offset < |s| && !Blank(s[offset]) && !LineBreak(s[offset]) && !StartsComment(s, offset)
  }

  lemma CommentOpens(s: string, from: nat, i: nat)
    requires from <= i && StartsComment(s, i) && ModeFrom(s, from, Code, i) == Code
    ensures ModeFrom(s, from, Code, i + 1) == CodeSlash
    ensures ModeFrom(s, from, Code, i + 2) == if s[i + 1] == '/' then Line else Block(1, Plain)
  {
    assert ModeFrom(s, from, Code, i + 1) == Step(Code, s[i]);
  }

  lemma {:induction false} LineContinues(s: string, from: nat, i: nat, end: nat)
    requires from <= i <= end <= |s| && ModeFrom(s, from, Code, i) == Line
    requires forall k :: i <= k < end ==> !LineBreak(s[k])
    ensures forall k :: i <= k <= end ==> ModeFrom(s, from, Code, k) == Line
    decreases end
  {
    if i < end {
      LineContinues(s, from, i, end - 1);
    }
  }

  /** A block comment met on the way behaves as on its own. */
  lemma BlockOnTheWay(s: string, from: nat, i: nat, end: nat)
    requires from <= i && i + 2 <= end <= |s| && ModeFrom(s, from, Code, i + 2) == Block(1, Plain)
    ensures forall k :: i + 2 <= k <= end ==> ModeFrom(s, from, Code, k) == BlockMode(s, i, k)
  {
    forall k | i + 2 <= k <= end
      ensures ModeFrom(s, from, Code, k) == BlockMode(s, i, k)
    {
      Resume(s, from, Code, i + 2, k);
    }
  }

  lemma LineCommentIsTrivia(s: string, from: nat, i: nat, end: nat)
    requires TriviaEnds(s, from, i) && ModeFrom(s, from, Code, i) == Code && StartsWith(s, i, '/', '/')
    requires i <= end <= |s| && (forall k :: i <= k < end ==> !LineBreak(s[k])) && (end < |s| ==> LineBreak(s[end]))
    ensures TriviaEnds(s, from, end) && ModeFrom(s, from, Code, end) == Line
  {
    CommentOpens(s, from, i);
    assert !LineBreak(s[i]) && !LineBreak(s[i + 1]);
    LineContinues(s, from, i + 2, end);
  }

  lemma BlockCommentIsTrivia(s: string, from: nat, i: nat, end: nat)
    requires TriviaEnds(s, from, i) && ModeFrom(s, from, Code, i) == Code && StartsWith(s, i, '/', '*')
    requires i + 2 <= end <= |s| && (OpenThrough(s, i, end) || ClosesAt(s, i, end))
    ensures TriviaEnds(s, from, end) && ModeFrom(s, from, Code, end) == BlockMode(s, i, end)
  {
    CommentOpens(s, from, i);
    BlockOnTheWay(s, from, i, end);
    forall k | i <= k < end
      ensures TriviaStep(ModeFrom(s, from, Code, k), s[k])
    {
      if i + 2 <= k {
        assert BlockMode(s, i, k).Block?;
      }
    }
  }

  /** The point after the comments that trail a declaration. */
  method SafeEndOfLine(source: string, from: nat) returns (r: Option<LineInsertion>)
    requires from <= |source|
    ensures LineEnd(source, from, r)
  {
    var index := from;
    while true
      invariant TriviaEnds(source, from, index) && ModeFrom(source, from, Code, index) == Code
      decreases |source| - index
    {
      while index < |source| && Blank(source[index])
        invariant TriviaEnds(source, from, index) && ModeFrom(source, from, Code, index) == Code
      {
        index := index + 1;
      }
      if index == |source| {
        return Some(AtEndOfFile(index));
      }
      if StartsWith(source, index, '/', '/') {
        var end := SkipLineComment(source, index);
        LineCommentIsTrivia(source, from, index, end);
        index := end;
      } else if StartsWith(source, index, '/', '*') {
        var end := SkipBlockComment(source, index);
        BlockCommentIsTrivia(source, from, index, if end.Some? then end.value else |source|);
        if end.None? {
          return None;
        }
        index := end.value;
        continue;
      }
      if index == |source| {
        return Some(AtEndOfFile(index));
      }
      if source[index] == '\r' {
        var end := if index + 1 < |source| && source[index + 1] == '\n' then index + 2 else index + 1;
        assert BreaksLine(source, index, end);
        return Some(AtNextLine(end));
      }
      if source[index] == '\n' {
        assert BreaksLine(source, index, index + 1);
        return Some(AtNextLine(index + 1));
      }
      return Some(BeforeSameLineCode(index));
    }
  }

  // ----- the answer is the only one -----

  /** Where the trivia stop, for an answer. */
  ghost predicate StopsAt(s: string, from: nat, r: Option<LineInsertion>, p: nat)
    requires from <= |s|
  {
    && TriviaEnds(s, from, p)
    && match r
       case None => p == |s|
       case Some(line) => LineStopsAt(s, line, p)
  }

  ghost predicate LineStopsAt(s: string, line: LineInsertion, p: nat) {
    match line
    case AtEndOfFile(offset) => p == |s|
    case AtNextLine(offset) => BreaksLine(s, p, offset)
    case BeforeSameLineCode(offset) => p == offset
  }

  lemma SomeStop(s: string, from: nat, r: Option<LineInsertion>) returns (p: nat)
    requires from <= |s| && LineEnd(s, from, r)
    ensures StopsAt(s, from, r, p)
    ensures r.Some? && r.value.AtNextLine? ==> !ModeFrom(s, from, Code, p).Block?
  {
    match r
    case None => p := |s|;
    case Some(line) =>
      match line
      case AtEndOfFile(_) => p := |s|;
      case AtNextLine(offset) =>
        p :| TriviaEnds(s, from, p) && !ModeFrom(s, from, Code, p).Block? && BreaksLine(s, p, offset);
      case BeforeSameLineCode(offset) => p := offset;
  }

  /** What stops an answer may not be passed over. */
  lemma NoLaterStop(s: string, from: nat, r: Option<LineInsertion>, p: nat, q: nat)
    requires from <= |s| && LineEnd(s, from, r) && StopsAt(s, from, r, p) && p < q
    requires r.Some? && r.value.AtNextLine? ==> !ModeFrom(s, from, Code, p).Block?
    ensures !TriviaEnds(s, from, q)
  {
    if p < |s| {
      assert TriviaStep(ModeFrom(s, from, Code, p), s[p]) ==>
          s[p] == '/' && ModeFrom(s, from, Code, p + 1) == CodeSlash;
      assert s[p] == '/' && p + 1 < |s| ==>
          TriviaStep(ModeFrom(s, from, Code, p), s[p]) ==> !TriviaStep(ModeFrom(s, from, Code, p + 1), s[p + 1]);
    }
  }

  /** The contract leaves one answer: the kind of insertion and its place. */
  lemma LineEndIsUnique(s: string, from: nat, r: Option<LineInsertion>, other: Option<LineInsertion>)
    requires from <= |s| && LineEnd(s, from, r) && LineEnd(s, from, other)
    ensures r == other
  {
    var p := SomeStop(s, from, r);
    var q := SomeStop(s, from, other);
    if p < q {
      NoLaterStop(s, from, r, p, q);
    } else if q < p {
      NoLaterStop(s, from, other, q, p);
    }
  }

  // ----- the edit -----

  function ApplyEdit(s: string, edit: ImportEdit): string
    requires edit.start <= edit.end <= |s|
  {
    s[..edit.start] + edit.replacement + s[edit.end..]
  }

  /** The byte does not continue a character of several bytes. */
  predicate CharBoundary(s: string, i: nat) {
    i == 0 || i == |s| || (i < |s| && !(0x80 <= s[i] as int < 0xC0))
  }

  /** What goes in front of the declaration, and behind it. */
  function Before(line: LineInsertion, lineEnding: string): string {
    if line.AtNextLine? then "" else lineEnding
  }

  function After(line: LineInsertion, lineEnding: string): string {
    if line.AtEndOfFile? then "" else lineEnding
  }

  const MAX_OFFSET: nat := 0xffff_ffff

  /** The edit for an answer of the search. */
  ghost predicate EditFor(s: string, from: nat, declaration: string, lineEnding: string, edit: Option<ImportEdit>)
    requires from <= |s|
  {
    exists r :: LineEnd(s, from, r) && edit == EditAt(r, declaration, lineEnding)
  }

  function EditAt(r: Option<LineInsertion>, declaration: string, lineEnding: string): Option<ImportEdit> {
    if r.None? || r.value.offset > MAX_OFFSET then None
    else
      var replacement := Before(r.value, lineEnding) + declaration + After(r.value, lineEnding);
      Some(ImportEdit(r.value.offset, r.value.offset, replacement))
  }

  method InsertAfterDeclarationLine(source: string, from: nat, declaration: string, lineEnding: string)
    returns (edit: Option<ImportEdit>)
    ensures from <= |source| && CharBoundary(source, from) ==> EditFor(source, from, declaration, lineEnding, edit)
    ensures !(from <= |source| && CharBoundary(source, from)) ==> edit == None
  {
    if from > |source| || !CharBoundary(source, from) {
      return None;
    }
    var r := SafeEndOfLine(source, from);
    if r.None? {
      return None;
    }
    match r.value
    case AtNextLine(offset) =>
      edit := Insertion(offset, declaration + lineEnding);
      assert "" + declaration + lineEnding == declaration + lineEnding;
    case AtEndOfFile(offset) =>
      edit := Insertion(offset, lineEnding + declaration);
      assert lineEnding + declaration + "" == lineEnding + declaration;
    case BeforeSameLineCode(offset) =>
      edit := Insertion(offset, lineEnding + declaration + lineEnding);
  }

  function Insertion(offset: nat, replacement: string): Option<ImportEdit> {
    if offset > MAX_OFFSET then None else Some(ImportEdit(offset, offset, replacement))
  }

  method PreferredLineEnding(source: string) returns (ending: string)
    ensures ending == "\r\n" <==>
      exists i :: 0 < i < |source| && source[i] == '\n' && source[i - 1] == '\r' && '\n' !in source[..i]
    ensures ending == "\n" || ending == "\r\n"
  {
    var i := 0;
    while i < |source| && source[i] != '\n'
      invariant i <= |source| && '\n' !in source[..i]
    {
      i := i + 1;
    }
    ending := if 0 < i < |source| && source[i - 1] == '\r' then "\r\n" else "\n";
    if ending == "\n" {
      forall j | 0 < j < |source| && source[j] == '\n' && source[j - 1] == '\r'
        ensures '\n' in source[..j]
      {
        assert source[..j][i] == '\n';
      }
    }
  }

  // ----- insertion is safe -----

  predicate LineEnding(ending: string) {
    ending == "\n" || ending == "\r\n"
  }

  /** A text that starts and ends in code. */
  predicate Closed(declaration: string) {
    ModeAt(declaration, |declaration|) == Code
  }

  /** A carriage return without its line feed ends the line comment that trails the declaration. */
  ghost predicate LoneReturnEndsComment(s: string, from: nat) {
    exists p: nat :: TriviaEnds(s, from, p) && ModeFrom(s, from, Code, p) == Line
      && p < |s| && s[p] == '\r' && !StartsWith(s, p, '\r', '\n')
  }

  /** Every carriage return comes before a line feed. */
  ghost predicate ReturnsPaired(s: string) {
    forall i :: 0 <= i < |s| && s[i] == '\r' ==> i + 1 < |s| && s[i + 1] == '\n'
  }

  lemma PairedReturnsAreNotLone(s: string, from: nat)
    requires ReturnsPaired(s)
    ensures !LoneReturnEndsComment(s, from)
  {
  }

  lemma TriviaLeaveCodeOrComment(s: string, from: nat, p: nat)
    requires TriviaEnds(s, from, p)
    ensures ModeFrom(s, from, Code, p) == Code || ModeFrom(s, from, Code, p) == Line
      || ModeFrom(s, from, Code, p).Block?
  {
    if from < p {
      assert TriviaStep(ModeFrom(s, from, Code, p - 1), s[p - 1]);
    }
  }

  /** How the text reads where the declaration goes. */
  lemma ModeAtInsertion(s: string, from: nat, line: LineInsertion)
    requires from <= |s| && ModeAt(s, from) == Code && LineEndAt(s, from, line)
    ensures from <= line.offset <= |s|
    ensures ModeAt(s, line.offset) == Code || ModeAt(s, line.offset) == Line
    ensures line.BeforeSameLineCode? ==> ModeAt(s, line.offset) == Code
    ensures line.AtNextLine? ==> (ModeAt(s, line.offset) == Line <==> LoneReturnEndsComment(s, from))
    ensures !line.AtNextLine? ==> !LoneReturnEndsComment(s, from)
    ensures line.AtEndOfFile? ==> line.offset == |s|
  {
    var p := SomeStop(s, from, Some(line));
    TriviaLeaveCodeOrComment(s, from, p);
    Resume(s, 0, Code, from, p);
    forall q: nat | TriviaEnds(s, from, q) && ModeFrom(s, from, Code, q) == Line && q < |s| && s[q] == '\r'
      ensures q == p
    {
      SecondStop(s, from, line, p, q);
    }
    if line.AtNextLine? {
      BreakModes(s, p, line.offset);
    }
  }

  lemma SecondStop(s: string, from: nat, line: LineInsertion, p: nat, q: nat)
    requires from <= |s| && LineEndAt(s, from, line) && StopsAt(s, from, Some(line), p)
    requires line.AtNextLine? ==> !ModeFrom(s, from, Code, p).Block?
    requires TriviaEnds(s, from, q) && ModeFrom(s, from, Code, q) == Line && q < |s| && s[q] == '\r'
    ensures q == p
  {
    if p < q {
      NoLaterStop(s, from, Some(line), p, q);
    }
  }

  lemma BreakModes(s: string, p: nat, end: nat)
    requires BreaksLine(s, p, end) && (ModeAt(s, p) == Code || ModeAt(s, p) == Line)
    ensures end <= |s|
    ensures ModeAt(s, end) == if ModeAt(s, p) == Line && s[p] == '\r'
      && !StartsWith(s, p, '\r', '\n') then Line else Code
  {
    assert ModeAt(s, p + 1) == Step(ModeAt(s, p), s[p]);
    if end == p + 2 {
      assert ModeAt(s, p + 2) == Step(ModeAt(s, p + 1), s[p + 1]);
    }
  }

  /** A line ending inserted in code or in a line comment leads back to code. */
  lemma EndingReturnsToCode(t: string, i: nat, ending: string)
    requires LineEnding(ending) && i + |ending| <= |t| && t[i..i + |ending|] == ending
    requires ModeAt(t, i) == Code || ModeAt(t, i) == Line
    ensures ModeAt(t, i + |ending|) == Code
  {
    assert t[i] == ending[0];
    assert ModeAt(t, i + 1) == Step(ModeAt(t, i), t[i]);
    if |ending| == 2 {
      assert t[i + 1] == ending[1];
      assert ModeAt(t, i + 2) == Step(ModeAt(t, i + 1), t[i + 1]);
    }
  }

  /** A piece of a text reads from where it starts as its own bytes do. */
  lemma PieceReads(t: string, i: nat, piece: string, k: nat)
    requires i + |piece| <= |t| && t[i..i + |piece|] == piece && k <= |piece|
    ensures ModeAt(t, i + k) == ModeFrom(piece, 0, ModeAt(t, i), k)
  {
    Resume(t, 0, Code, i, i + k);
    assert t[i..i + k] == piece[..k];
    SameBytes(t, i, piece, 0, ModeAt(t, i), k);
  }

  /** The edited text in its pieces. */
  lemma Pieces(s: string, o: nat, before: string, declaration: string, after: string, t: string)
    requires o <= |s| && t == s[..o] + (before + declaration + after) + s[o..]
    ensures |t| == |s| + |before| + |declaration| + |after|
    ensures t[..o] == s[..o]
    ensures t[o..o + |before|] == before
    ensures t[o + |before|..o + |before| + |declaration|] == declaration
    ensures t[o + |before| + |declaration|..o + |before| + |declaration| + |after|] == after
    ensures t[o + |before| + |declaration| + |after|..] == s[o..]
  {
    assert t == s[..o] + before + declaration + after + s[o..];
  }

  /** Bytes before the edit read as they did. */
  lemma EarlierBytesReadTheSame(s: string, t: string, o: nat, i: nat)
    requires i <= o <= |s| && o <= |t| && t[..o] == s[..o]
    ensures ModeAt(t, i) == ModeAt(s, i)
  {
    assert t[..i] == t[..o][..i] && s[..i] == s[..o][..i];
    SameBytes(s, 0, t, 0, Code, i);
  }

  /** The text after the edit for an answer of the search, made behind a declaration that ends in code. */
  ghost predicate Inserted(s: string, from: nat, line: LineInsertion, declaration: string, ending: string, t: string) {
    && from <= |s| && ModeAt(s, from) == Code && LineEnding(ending)
    && LineEndAt(s, from, line) && line.offset <= |s| && line.offset <= MAX_OFFSET
    && t == ApplyEdit(s, EditAt(Some(line), declaration, ending).value)
  }

  /** The new text: the declaration on a line of its own, at the end of the text without a line ending behind it. */
  lemma InsertedText(s: string, from: nat, line: LineInsertion, declaration: string, ending: string, t: string)
    requires Inserted(s, from, line, declaration, ending, t)
    ensures match line
      case AtEndOfFile(_) => t == s + ending + declaration
      case AtNextLine(o) => t == s[..o] + declaration + ending + s[o..]
      case BeforeSameLineCode(o) => t == s[..o] + ending + declaration + ending + s[o..]
  {
    var o := line.offset;
    assert line.AtEndOfFile? ==> s[..o] == s && s[o..] == "";
  }

  /** There is no edit exactly for an open block comment and for a place beyond the 32-bit offsets. */
  lemma NoEditExactly(s: string, from: nat, declaration: string, ending: string, edit: Option<ImportEdit>)
    requires from <= |s| && EditFor(s, from, declaration, ending, edit)
    ensures edit == None <==>
      forall r :: LineEnd(s, from, r) ==> r.None? || r.value.offset >= 0x1_0000_0000
  {
    var r :| LineEnd(s, from, r) && edit == EditAt(r, declaration, ending);
    forall q | LineEnd(s, from, q)
      ensures q == r
    {
      LineEndIsUnique(s, from, q, r);
    }
  }

  /** Where the declaration starts in the new text. */
  function DeclarationStart(line: LineInsertion, ending: string): nat {
    line.offset + |Before(line, ending)|
  }

  /** What stands before the declaration leads back to code, where it is not empty. */
  lemma StartReads(s: string, o: nat, before: string, declaration: string, after: string, t: string, ending: string)
    requires o <= |s| && t == s[..o] + (before + declaration + after) + s[o..]
    requires LineEnding(ending) && (before == "" || before == ending)
    requires ModeAt(s, o) == Code || ModeAt(s, o) == Line
    ensures o + |before| <= |t|
    ensures ModeAt(t, o + |before|) == if before == "" then ModeAt(s, o) else Code
  {
    Pieces(s, o, before, declaration, after, t);
    EarlierBytesReadTheSame(s, t, o, o);
    if before != "" {
      EndingReturnsToCode(t, o, ending);
    }
  }

  lemma StartMode(s: string, line: LineInsertion, declaration: string, ending: string, t: string, lone: bool)
    requires line.offset <= |s| && LineEnding(ending)
    requires t == s[..line.offset] + (Before(line, ending) + declaration + After(line, ending)) + s[line.offset..]
    requires ModeAt(s, line.offset) == Code || ModeAt(s, line.offset) == Line
    requires line.AtNextLine? ==> (ModeAt(s, line.offset) == Line <==> lone)
    requires !line.AtNextLine? ==> !lone
    ensures DeclarationStart(line, ending) <= |t|
    ensures ModeAt(t, DeclarationStart(line, ending)) == Code <==> !lone
  {
    StartReads(s, line.offset, Before(line, ending), declaration, After(line, ending), t, ending);
  }

  /**
   The inserted declaration starts in code, unless the comment before it was ended by a carriage return alone, which
   does not end a comment for the language: then, and only then, the declaration is lost in that comment.
   */
  lemma DeclarationStartsInCode(
    s: string, from: nat, line: LineInsertion, declaration: string, ending: string, t: string)
    requires Inserted(s, from, line, declaration, ending, t)
    ensures DeclarationStart(line, ending) <= |t|
    ensures ModeAt(t, DeclarationStart(line, ending)) == Code <==> !LoneReturnEndsComment(s, from)
  {
    ModeAtInsertion(s, from, line);
    StartMode(s, line, declaration, ending, t, LoneReturnEndsComment(s, from));
  }

  /** The bytes before the insertion stay, and read as they did. */
  lemma HeadIsKept(s: string, from: nat, line: LineInsertion, declaration: string, ending: string, t: string)
    requires Inserted(s, from, line, declaration, ending, t)
    ensures from <= line.offset <= |s| <= |t|
    ensures forall i :: 0 <= i < line.offset ==> t[i] == s[i]
    ensures forall i {:trigger ModeAt(s, i)} :: 0 <= i < line.offset ==> ModeAt(t, i) == ModeAt(s, i)
  {
    var o := line.offset;
    ModeAtInsertion(s, from, line);
    Pieces(s, o, Before(line, ending), declaration, After(line, ending), t);
    forall i | 0 <= i < o
      ensures t[i] == s[i] && ModeAt(t, i) == ModeAt(s, i)
    {
      assert t[..o][i] == s[..o][i];
      EarlierBytesReadTheSame(s, t, o, i);
    }
  }

  /** The declaration is in the text from `start` on, and reads as it does on its own. */
  ghost predicate ReadsAlone(t: string, start: nat, declaration: string) {
    && start + |declaration| <= |t|
    && t[start..start + |declaration|] == declaration
    && forall i :: 0 <= i <= |declaration| ==> ModeAt(t, start + i) == ModeAt(declaration, i)
  }

  lemma PieceReadsAlone(t: string, start: nat, piece: string)
    requires start + |piece| <= |t| && t[start..start + |piece|] == piece && ModeAt(t, start) == Code
    ensures ReadsAlone(t, start, piece)
  {
    forall i | 0 <= i <= |piece|
      ensures ModeAt(t, start + i) == ModeAt(piece, i)
    {
      PieceReads(t, start, piece, i);
    }
  }

  /** From `end` on the text is a line ending and then what followed byte `o`. */
  ghost predicate Follows(s: string, o: nat, t: string, end: nat, ending: string) {
    && o <= |s| && end + |ending| + |s| == |t| + o
    && t[end..end + |ending|] == ending && t[end + |ending|..] == s[o..]
  }

  lemma DeclarationIsInPlace(
    s: string, from: nat, line: LineInsertion, declaration: string, ending: string, t: string)
    requires Inserted(s, from, line, declaration, ending, t)
    ensures DeclarationStart(line, ending) + |declaration| + |After(line, ending)| <= |t|
    ensures t[DeclarationStart(line, ending)..DeclarationStart(line, ending) + |declaration|] == declaration
    ensures |t| == |s| + |Before(line, ending)| + |declaration| + |After(line, ending)|
    ensures !line.AtEndOfFile? ==> Follows(s, line.offset, t, DeclarationStart(line, ending) + |declaration|, ending)
  {
    Pieces(s, line.offset, Before(line, ending), declaration, After(line, ending), t);
  }

  /** The declaration reads as it does on its own. */
  lemma DeclarationIsRead(s: string, from: nat, line: LineInsertion, declaration: string, ending: string, t: string)
    requires Inserted(s, from, line, declaration, ending, t) && !LoneReturnEndsComment(s, from)
    ensures ReadsAlone(t, DeclarationStart(line, ending), declaration)
  {
    DeclarationIsInPlace(s, from, line, declaration, ending, t);
    DeclarationStartsInCode(s, from, line, declaration, ending, t);
    PieceReadsAlone(t, DeclarationStart(line, ending), declaration);
  }

  /** The bytes from `o` on stay, and read as they did. */
  ghost predicate RestKept(s: string, t: string, o: nat) {
    && |s| <= |t|
    && (forall i :: o <= i < |s| ==> t[i + (|t| - |s|)] == s[i])
    && (forall i {:trigger ModeAt(s, i)} :: o <= i < |s| ==> ModeAt(t, i + (|t| - |s|)) == ModeAt(s, i))
  }

  lemma RestFollows(s: string, o: nat, t: string, start: nat, piece: string, ending: string)
    requires ReadsAlone(t, start, piece) && Closed(piece) && LineEnding(ending)
    requires Follows(s, o, t, start + |piece|, ending) && ModeAt(s, o) == Code && |s| <= |t|
    ensures RestKept(s, t, o)
  {
    assert ModeAt(t, start + |piece|) == ModeAt(piece, |piece|);
    EndingReturnsToCode(t, start + |piece|, ending);
    RestReadsTheSame(s, t, o, |t| - |s|);
  }

  lemma InsertionInsideFindsCode(s: string, from: nat, line: LineInsertion)
    requires from <= |s| && ModeAt(s, from) == Code && LineEndAt(s, from, line)
    requires !LoneReturnEndsComment(s, from) && !line.AtEndOfFile?
    ensures line.offset <= |s| && ModeAt(s, line.offset) == Code
  {
    ModeAtInsertion(s, from, line);
  }

  /** The bytes behind the insertion stay, and read as they did. */
  lemma TailIsKept(s: string, from: nat, line: LineInsertion, declaration: string, ending: string, t: string)
    requires Inserted(s, from, line, declaration, ending, t) && !LoneReturnEndsComment(s, from) && Closed(declaration)
    ensures RestKept(s, t, line.offset)
  {
    DeclarationIsInPlace(s, from, line, declaration, ending, t);
    if !line.AtEndOfFile? {
      InsertionInsideFindsCode(s, from, line);
      DeclarationIsRead(s, from, line, declaration, ending, t);
      RestFollows(s, line.offset, t, DeclarationStart(line, ending), declaration, ending);
    }
  }

  lemma SuffixReads(t: string, start: nat, rest: string, k: nat)
    requires start <= |t| && t[start..] == rest && k < |rest|
    ensures start + |rest| == |t| && t[start + k] == rest[k]
    ensures ModeAt(t, start + k) == ModeFrom(rest, 0, ModeAt(t, start), k)
  {
    assert t[start..][k] == rest[k];
    assert t[start..start + |rest|] == rest;
    PieceReads(t, start, rest, k);
  }

  lemma RestReadsTheSame(s: string, t: string, o: nat, shift: nat)
    requires o <= |s| && |t| == |s| + shift && t[o + shift..] == s[o..] && ModeAt(t, o + shift) == ModeAt(s, o)
    ensures forall i :: o <= i < |s| ==> t[i + shift] == s[i]
    ensures forall i {:trigger ModeAt(s, i)} :: o <= i < |s| ==> ModeAt(t, i + shift) == ModeAt(s, i)
  {
    var rest := s[o..];
    forall i | o <= i < |s|
      ensures t[i + shift] == s[i] && ModeAt(t, i + shift) == ModeAt(s, i)
    {
      SuffixReads(t, o + shift, rest, i - o);
      SuffixReads(s, o, rest, i - o);
    }
  }

  /** A text without line feed that starts in a line comment stays in it. */
  lemma {:induction false} PieceStaysInLine(t: string, start: nat, piece: string, k: nat)
    requires start + |piece| <= |t| && t[start..start + |piece|] == piece && '\n' !in piece && k <= |piece|
    requires ModeAt(t, start) == Line
    ensures ModeAt(t, start + k) == Line
  {
    if k > 0 {
      PieceStaysInLine(t, start, piece, k - 1);
      assert t[start + k - 1] == piece[k - 1];
      assert piece[k - 1] in piece;
    }
  }

  /** Where the comment goes on over the insertion. */
  lemma LostPlace(s: string, from: nat, line: LineInsertion, declaration: string, ending: string, t: string)
    requires Inserted(s, from, line, declaration, ending, t) && LoneReturnEndsComment(s, from)
    ensures ModeAt(s, line.offset) == Line
    ensures line.offset + |declaration| <= |t| && t[line.offset..line.offset + |declaration|] == declaration
    ensures Follows(s, line.offset, t, line.offset + |declaration|, ending)
    ensures forall i :: 0 <= i < line.offset ==> t[i] == s[i]
  {
    ModeAtInsertion(s, from, line);
    assert DeclarationStart(line, ending) == line.offset;
    HeadIsKept(s, from, line, declaration, ending, t);
    DeclarationIsInPlace(s, from, line, declaration, ending, t);
  }

  lemma LostTail(s: string, t: string, o: nat, declaration: string, ending: string)
    requires o < |s| && o + |declaration| <= |t| && ModeAt(s, o) == Line && LineEnding(ending)
    requires t[o..o + |declaration|] == declaration && '\n' !in declaration
    requires Follows(s, o, t, o + |declaration|, ending) && forall i :: 0 <= i < o ==> t[i] == s[i]
    ensures !RestKept(s, t, o)
  {
    HeadReadsInLine(s, t, o, declaration);
    EndingReturnsToCode(t, o + |declaration|, ending);
    assert ModeAt(t, o + (|t| - |s|)) == Code;
  }

  /** Behind a declaration that is lost in a comment, the text reads in code where it read in the comment before. */
  lemma TailIsLost(s: string, from: nat, line: LineInsertion, declaration: string, ending: string, t: string)
    requires Inserted(s, from, line, declaration, ending, t) && LoneReturnEndsComment(s, from)
    requires '\n' !in declaration && line.offset < |s|
    ensures !RestKept(s, t, line.offset)
  {
    LostPlace(s, from, line, declaration, ending, t);
    LostTail(s, t, line.offset, declaration, ending);
  }

  lemma HeadReadsInLine(s: string, t: string, o: nat, declaration: string)
    requires o <= |s| && o + |declaration| <= |t| && ModeAt(s, o) == Line && t[o..o + |declaration|] == declaration
    requires (forall i :: 0 <= i < o ==> t[i] == s[i]) && '\n' !in declaration
    ensures ModeAt(t, o + |declaration|) == Line
  {
    assert t[..o] == s[..o];
    EarlierBytesReadTheSame(s, t, o, o);
    PieceStaysInLine(t, o, declaration, |declaration|);
  }

  /**
   Exactly when no lone carriage return ends the comment does the text behind a one-line declaration read as before.
   */
  lemma TailIsKeptExactly(s: string, from: nat, line: LineInsertion, declaration: string, ending: string, t: string)
    requires Inserted(s, from, line, declaration, ending, t) && line.offset < |s|
    requires Closed(declaration) && '\n' !in declaration
    ensures RestKept(s, t, line.offset) <==> !LoneReturnEndsComment(s, from)
  {
    if LoneReturnEndsComment(s, from) {
      TailIsLost(s, from, line, declaration, ending, t);
    } else {
      TailIsKept(s, from, line, declaration, ending, t);
    }
  }

  /** A semicolon, a line comment that a carriage return alone seems to end, and one more byte. */
  const LONE_RETURN: string := ";//\rx"

  lemma LoneReturnModes(s: string)
    requires s == LONE_RETURN
    ensures ModeAt(s, 1) == Code && ModeAt(s, 4) == Line
    ensures LineEnd(s, 1, Some(AtNextLine(4))) && LoneReturnEndsComment(s, 1)
  {
    assert ModeAt(s, 1) == Code;
    assert ModeAt(s, 2) == CodeSlash;
    assert ModeAt(s, 3) == Line;
    assert ModeAt(s, 4) == Line;
    assert ModeFrom(s, 1, Code, 2) == CodeSlash;
    assert ModeFrom(s, 1, Code, 3) == Line;
    assert TriviaEnds(s, 1, 3);
    assert BreaksLine(s, 3, 4);
  }

  /**
   In this text the search answers byte 4, and whatever declaration is inserted there behind the semicolon starts inside
   the line comment: it is lost.
   */
  lemma LoneReturnLosesTheDeclaration(declaration: string, ending: string)
    requires LineEnding(ending)
    ensures LineEnd(LONE_RETURN, 1, Some(AtNextLine(4)))
    ensures var t := ApplyEdit(LONE_RETURN, EditAt(Some(AtNextLine(4)), declaration, ending).value);
      && Inserted(LONE_RETURN, 1, AtNextLine(4), declaration, ending, t)
      && t[4..4 + |declaration|] == declaration && ModeAt(t, 4) == Line
  {
    var s, line := LONE_RETURN, AtNextLine(4);
    var t := ApplyEdit(s, EditAt(Some(line), declaration, ending).value);
    LoneReturnModes(s);
    DeclarationIsInPlace(s, 1, line, declaration, ending, t);
    HeadIsKept(s, 1, line, declaration, ending, t);
    EarlierBytesReadTheSame(s, t, 4, 4);
  }

  /** A declaration without quotes and slashes, as the generated imports are, is closed. */
  lemma {:induction false} PlainTextIsClosed(declaration: string, i: nat)
    requires '"' !in declaration && '/' !in declaration && i <= |declaration|
    ensures ModeAt(declaration, i) == Code
  {
    if i > 0 {
      PlainTextIsClosed(declaration, i - 1);
      assert declaration[i - 1] in declaration;
    }
  }
}
