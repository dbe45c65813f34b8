/** A grammar of texts with strings and comments, and that `Lexical` reads exactly their code as code. */
module LexicalGrammar {
  import opened Lexical

  // ----- the grammar -----

  /** A piece of a string: a byte, or a backslash with any byte. */
  datatype Unit = Raw(c: char) | Escaped(c: char)

  /** A piece of a block comment: bytes, or a comment in it. */
  datatype Part = Chars(text: string) | Nested(parts: seq<Part>)

  datatype Token =
    | Byte(c: char)
    | Slash(next: char)
    | StringLiteral(units: seq<Unit>)
    | LineComment(text: string)
    | BlockComment(parts: seq<Part>)

  predicate ValidUnit(u: Unit) {
    u.Raw? ==> u.c != '"' && u.c != '\\'
  }

  predicate ValidPart(p: Part) {
    match p
    case Chars(text) => '*' !in text && '/' !in text
    case Nested(parts) => forall q | q in parts :: ValidPart(q)
  }

  predicate Valid(t: Token) {
    match t
    case Byte(c) => c != '"' && c != '/'
    case Slash(next) => next != '"' && next != '/' && next != '*'
    case StringLiteral(units) => forall u | u in units :: ValidUnit(u)
    case LineComment(text) => '\n' !in text
    case BlockComment(parts) => forall p | p in parts :: ValidPart(p)
  }

  function UnitText(u: Unit): string {
    if u.Raw? then [u.c] else ['\\', u.c]
  }

  function UnitsText(units: seq<Unit>): string {
    if units == [] then "" else UnitText(units[0]) + UnitsText(units[1..])
  }

  function PartText(p: Part): string
    decreases p
  {
    match p
    case Chars(text) => text
    case Nested(parts) => "/*" + PartsText(parts) + "*/"
  }

  function PartsText(parts: seq<Part>): string
    decreases parts
  {
    if parts == [] then "" else PartText(parts[0]) + PartsText(parts[1..])
  }

  function TokenText(t: Token): string {
    match t
    case Byte(c) => [c]
    case Slash(next) => ['/', next]
    case StringLiteral(units) => "\"" + UnitsText(units) + "\""
    case LineComment(text) => "//" + text + "\n"
    case BlockComment(parts) => "/*" + PartsText(parts) + "*/"
  }

  function Text(ts: seq<Token>): string {
    if ts == [] then "" else TokenText(ts[0]) + Text(ts[1..])
  }

  function Repeat(b: bool, n: nat): (r: seq<bool>)
    ensures |r| == n
  {
    seq(n, i => b)
  }

  /** Which bytes are read in code: all of a byte or a slash, and of the others the marks they start with. */
  function CodeBytes(t: Token): seq<bool> {
    match t
    case Byte(_) => [true]
    case Slash(_) => [true, true]
    case StringLiteral(_) => [true] + Repeat(false, |TokenText(t)| - 1)
    case _ => [true, true] + Repeat(false, |TokenText(t)| - 2)
  }

  function AllCodeBytes(ts: seq<Token>): seq<bool> {
    if ts == [] then [] else CodeBytes(ts[0]) + AllCodeBytes(ts[1..])
  }

  // ----- readings put together -----

  /** Read from mode `m`, the text leads to mode `n`, and just the marked bytes are read in code. */
  ghost predicate Reads(s: string, m: Mode, n: Mode, code: seq<bool>) {
    && |code| == |s| && ModeFrom(s, 0, m, |s|) == n
    && forall k {:trigger ModeFrom(s, 0, m, k)} :: 0 <= k < |s| ==> (InCode(ModeFrom(s, 0, m, k)) <==> code[k])
  }

  lemma ReadsNothing(m: Mode)
    ensures Reads("", m, m, [])
  {
  }

  lemma ReadsByte(c: char, m: Mode)
    ensures Reads([c], m, Step(m, c), [InCode(m)])
  {
    assert ModeFrom([c], 0, m, 1) == Step(ModeFrom([c], 0, m, 0), c);
  }

  lemma FirstModes(s: string, a: string, b: string, m: Mode, k: nat)
    requires s == a + b && k <= |a|
    ensures ModeFrom(s, 0, m, k) == ModeFrom(a, 0, m, k)
  {
    assert s[0..k] == a[0..k];
    SameBytes(s, 0, a, 0, m, k);
  }

  lemma BackSlice(s: string, a: string, b: string, k: nat)
    requires s == a + b && k <= |b|
    ensures s[|a|..|a| + k] == b[0..k]
  {
  }

  lemma LaterModes(s: string, p: nat, b: string, m: Mode, n: Mode, k: nat)
    requires p + k <= |s| && k <= |b| && s[p..p + k] == b[0..k] && ModeFrom(s, 0, m, p) == n
    ensures ModeFrom(s, 0, m, p + k) == ModeFrom(b, 0, n, k)
  {
    Resume(s, 0, m, p, p + k);
    SameBytes(s, p, b, 0, n, k);
  }

  lemma SecondModes(s: string, a: string, b: string, m: Mode, n: Mode, k: nat)
    requires s == a + b && k <= |b| && ModeFrom(a, 0, m, |a|) == n
    ensures ModeFrom(s, 0, m, |a| + k) == ModeFrom(b, 0, n, k)
  {
    FirstModes(s, a, b, m, |a|);
    BackSlice(s, a, b, k);
    LaterModes(s, |a|, b, m, n, k);
  }

  lemma ReadsBoth(a: string, b: string, m: Mode, n: Mode, o: Mode, x: seq<bool>, y: seq<bool>)
    requires Reads(a, m, n, x) && Reads(b, n, o, y)
    ensures Reads(a + b, m, o, x + y)
  {
    SecondModes(a + b, a, b, m, n, |b|);
    forall k | 0 <= k < |a + b|
      ensures InCode(ModeFrom(a + b, 0, m, k)) <==> (x + y)[k]
    {
      if k < |a| {
        FirstModes(a + b, a, b, m, k);
      } else {
        SecondModes(a + b, a, b, m, n, k - |a|);
      }
    }
  }

  lemma ReadsTwo(c: char, d: char, m: Mode)
    ensures Reads([c, d], m, Step(Step(m, c), d), [InCode(m), InCode(Step(m, c))])
  {
    ReadsByte(c, m);
    ReadsByte(d, Step(m, c));
    ReadsBoth([c], [d], m, Step(m, c), Step(Step(m, c), d), [InCode(m)], [InCode(Step(m, c))]);
    assert [c] + [d] == [c, d];
    assert [InCode(m)] + [InCode(Step(m, c))] == [InCode(m), InCode(Step(m, c))];
  }

  lemma RepeatBoth(m: nat, n: nat)
    ensures Repeat(false, m) + Repeat(false, n) == Repeat(false, m + n)
  {
  }

  /** Bytes that are all read in one mode, which is not code. */
  lemma {:induction false} ReadsSame(s: string, m: Mode)
    requires !InCode(m) && forall c | c in s :: Step(m, c) == m
    ensures Reads(s, m, m, Repeat(false, |s|))
    decreases |s|
  {
    if s != "" {
      var front := s[..|s| - 1];
      var last := s[|s| - 1];
      assert s == front + [last] && last in s;
      ReadsSame(front, m);
      ReadsByte(last, m);
      ReadsBoth(front, [last], m, m, m, Repeat(false, |front|), [false]);
      assert Repeat(false, |front|) + [false] == Repeat(false, |s|);
    }
  }

  // ----- strings and comments -----

  lemma UnitIsRead(u: Unit)
    requires ValidUnit(u)
    ensures Reads(UnitText(u), Str, Str, Repeat(false, |UnitText(u)|))
  {
    if u.Raw? {
      ReadsByte(u.c, Str);
      assert Repeat(false, 1) == [false];
    } else {
      ReadsTwo('\\', u.c, Str);
      assert Repeat(false, 2) == [false, false];
    }
  }

  lemma {:induction false} UnitsAreRead(units: seq<Unit>)
    requires forall u | u in units :: ValidUnit(u)
    ensures Reads(UnitsText(units), Str, Str, Repeat(false, |UnitsText(units)|))
    decreases units
  {
    if units == [] {
      ReadsNothing(Str);
    } else {
      var a, b := UnitText(units[0]), UnitsText(units[1..]);
      UnitIsRead(units[0]);
      UnitsAreRead(units[1..]);
      ReadsBoth(a, b, Str, Str, Str, Repeat(false, |a|), Repeat(false, |b|));
      RepeatBoth(|a|, |b|);
    }
  }

  lemma {:induction false} PartIsRead(p: Part, depth: nat)
    requires ValidPart(p) && depth > 0
    ensures Reads(PartText(p), Block(depth, Plain), Block(depth, Plain), Repeat(false, |PartText(p)|))
    decreases p
  {
    match p
    case Chars(text) => ReadsSame(text, Block(depth, Plain));
    case Nested(parts) =>
      var inside := PartsText(parts);
      ReadsTwo('/', '*', Block(depth, Plain));
      PartsAreRead(parts, depth + 1);
      ReadsTwo('*', '/', Block(depth + 1, Plain));
      Enclosed(inside, Block(depth, Plain), Block(depth + 1, Plain), Block(depth, Plain), [false, false]);
      assert [false, false] + Repeat(false, |inside| + 2) == Repeat(false, |inside| + 4);
  }

  /** A text between the marks of a block comment. */
  lemma Enclosed(inside: string, m: Mode, n: Mode, o: Mode, start: seq<bool>)
    requires Reads(['/', '*'], m, n, start) && Reads(inside, n, n, Repeat(false, |inside|))
    requires Reads(['*', '/'], n, o, [false, false])
    ensures Reads("/*" + inside + "*/", m, o, start + Repeat(false, |inside| + 2))
  {
    ReadsBoth(inside, ['*', '/'], n, n, o, Repeat(false, |inside|), [false, false]);
    assert Repeat(false, |inside|) + [false, false] == Repeat(false, |inside| + 2);
    ReadsBoth(['/', '*'], inside + ['*', '/'], m, n, o, start, Repeat(false, |inside| + 2));
    assert "/*" + inside + "*/" == ['/', '*'] + (inside + ['*', '/']);
  }

  lemma {:induction false} PartsAreRead(parts: seq<Part>, depth: nat)
    requires (forall p | p in parts :: ValidPart(p)) && depth > 0
    ensures Reads(PartsText(parts), Block(depth, Plain), Block(depth, Plain), Repeat(false, |PartsText(parts)|))
    decreases parts
  {
    var m := Block(depth, Plain);
    if parts == [] {
      ReadsNothing(m);
    } else {
      var a, b := PartText(parts[0]), PartsText(parts[1..]);
      PartIsRead(parts[0], depth);
      PartsAreRead(parts[1..], depth);
      ReadsBoth(a, b, m, m, m, Repeat(false, |a|), Repeat(false, |b|));
      RepeatBoth(|a|, |b|);
    }
  }

  // ----- tokens -----

  lemma StringIsRead(units: seq<Unit>)
    requires forall u | u in units :: ValidUnit(u)
    ensures Reads(TokenText(StringLiteral(units)), Code, Code, CodeBytes(StringLiteral(units)))
  {
    var inside := UnitsText(units);
    ReadsByte('"', Code);
    UnitsAreRead(units);
    ReadsByte('"', Str);
    ReadsBoth(inside, ['"'], Str, Str, Code, Repeat(false, |inside|), [false]);
    assert Repeat(false, |inside|) + [false] == Repeat(false, |inside| + 1);
    ReadsBoth(['"'], inside + ['"'], Code, Str, Code, [true], Repeat(false, |inside| + 1));
    assert "\"" + inside + "\"" == ['"'] + (inside + ['"']);
  }

  lemma LineCommentIsRead(text: string)
    requires '\n' !in text
    ensures Reads(TokenText(LineComment(text)), Code, Code, CodeBytes(LineComment(text)))
  {
    ReadsTwo('/', '/', Code);
    ReadsSame(text, Line);
    ReadsByte('\n', Line);
    ReadsBoth(text, ['\n'], Line, Line, Code, Repeat(false, |text|), [false]);
    assert Repeat(false, |text|) + [false] == Repeat(false, |text| + 1);
    ReadsBoth(['/', '/'], text + ['\n'], Code, Line, Code, [true, true], Repeat(false, |text| + 1));
    assert "//" + text + "\n" == ['/', '/'] + (text + ['\n']);
  }

  lemma BlockCommentIsRead(parts: seq<Part>)
    requires forall p | p in parts :: ValidPart(p)
    ensures Reads(TokenText(BlockComment(parts)), Code, Code, CodeBytes(BlockComment(parts)))
  {
    ReadsTwo('/', '*', Code);
    PartsAreRead(parts, 1);
    ReadsTwo('*', '/', Block(1, Plain));
    Enclosed(PartsText(parts), Code, Block(1, Plain), Code, [true, true]);
  }

  lemma TokenIsRead(t: Token)
    requires Valid(t)
    ensures Reads(TokenText(t), Code, Code, CodeBytes(t))
  {
    match t
    case Byte(c) => ReadsByte(c, Code);
    case Slash(next) => ReadsTwo('/', next, Code);
    case StringLiteral(units) => StringIsRead(units);
    case LineComment(text) => LineCommentIsRead(text);
    case BlockComment(parts) => BlockCommentIsRead(parts);
  }

  /** Every text of the grammar is read from code to code, and just its code bytes are read in code. */
  lemma {:induction false} TokensAreRead(ts: seq<Token>)
    requires forall t | t in ts :: Valid(t)
    ensures Reads(Text(ts), Code, Code, AllCodeBytes(ts))
    decreases ts
  {
    if ts == [] {
      ReadsNothing(Code);
    } else {
      TokenIsRead(ts[0]);
      TokensAreRead(ts[1..]);
      ReadsBoth(TokenText(ts[0]), Text(ts[1..]), Code, Code, Code, CodeBytes(ts[0]), AllCodeBytes(ts[1..]));
    }
  }
}
