/**
 What a script is made of, and what it says: a grammar of migration scripts that stands by
 itself, and the proof that splitting follows it.
 */
module Lexis {
  import opened Splitter
  import opened SplitLaws

  // ---- The grammar ---------------------------------------------------------------------------------

  /** The pieces of a script; what is open runs to the end, but for a quirk of block comments. */
  datatype Piece =
    | Quote(body: string)
    | Dollars(name: string, body: string)
    | Line(text: string)
    | Block(text: string)
    | Semicolon
    | Single(c: char)
    | OpenQuote(body: string)
    | OpenDollars(name: string, body: string)
    | OpenLine(text: string)
    | OpenBlock(text: string)

  function Spelled(p: Piece): string {
    match p
    case Quote(body) => "'" + body + "'"
    case Dollars(name, body) => Tag(name) + body + Tag(name)
    case Line(text) => "--" + text + "\n"
    case Block(text) => "/*" + text + "*/"
    case Semicolon => ";"
    case Single(c) => [c]
    case OpenQuote(body) => "'" + body
    case OpenDollars(name, body) => Tag(name) + body
    case OpenLine(text) => "--" + text
    case OpenBlock(text) => "/*" + text
  }

  /** What a piece says: a comment says a space. */
  function Said(p: Piece): string {
    if p.Line? || p.Block? || p.OpenLine? || p.OpenBlock? then " " else Spelled(p)
  }

  /** `tag` first occurs in `s` at `i`. */
  predicate FirstAt(s: string, tag: string, i: nat) {
    MatchesAt(s, i, tag) && forall k :: 0 <= k < i ==> !MatchesAt(s, k, tag)
  }

  ghost predicate Lacks(s: string, tag: string) {
    forall k: nat :: !MatchesAt(s, k, tag)
  }

  /** Nothing but a single character begins at the start of `s`. */
  ghost predicate Ordinary(cs: Classes, s: string) {
    && s != "" && s[0] !in "';"
    && (forall name :: !TagAt(cs, s, 0, name)) && !MatchesAt(s, 0, "--") && !MatchesAt(s, 0, "/*")
  }

  /** The piece can stand where `rest` follows. */
  ghost predicate Legal(cs: Classes, p: Piece, rest: string) {
    match p
    case Quote(body) => FirstAt(body + "'", "'", |body|)
    case Dollars(name, body) => IsName(cs, name) && FirstAt(body + Tag(name), Tag(name), |body|)
    case Line(text) => FirstAt(text + "\n", "\n", |text|)
    case Block(text) => FirstAt(text + "*/", "*/", |text|)
    case Semicolon => true
    case Single(c) => Ordinary(cs, [c] + rest)
    case OpenQuote(body) => rest == "" && Lacks(body, "'")
    case OpenDollars(name, body) => rest == "" && IsName(cs, name) && Lacks(body, Tag(name))
    case OpenLine(text) => rest == "" && Lacks(text, "\n")
    // The last character of an unfinished comment is left over.
    case OpenBlock(text) => |rest| <= 1 && (rest == "" ==> text == "") && Lacks(text + rest, "*/")
  }

  function Spell(ps: seq<Piece>): string {
    if ps == [] then "" else Spelled(ps[0]) + Spell(ps[1..])
  }

  ghost predicate Grammatical(cs: Classes, ps: seq<Piece>) {
    ps == [] || (Legal(cs, ps[0], Spell(ps[1..])) && Grammatical(cs, ps[1..]))
  }

  /** What is said between the semicolons. */
  function Chunks(ps: seq<Piece>): (chunks: seq<string>)
    ensures chunks != []
  {
    if ps == [] then [""]
    else
      var rest := Chunks(ps[1..]);
      if ps[0].Semicolon? then [""] + rest else [Said(ps[0]) + rest[0]] + rest[1..]
  }

  /** `t` is `s` from `i` to `j`, with only white space around it and none at its ends. */
  predicate TrimmedAt(cs: Classes, s: string, t: string, i: nat, j: nat) {
    && i <= j <= |s| && t == s[i..j] && Blank(cs, s[..i]) && Blank(cs, s[j..])
    && (i < j ==> !cs.isSpace(s[i]) && !cs.isSpace(s[j - 1]))
  }

  /** `t` is `s` without the white space around it. */
  ghost predicate IsTrimmed(cs: Classes, s: string, t: string) {
    exists i: nat, j: nat :: TrimmedAt(cs, s, t, i, j)
  }

  /** The statements are the chunks, trimmed, but for the blank ones. */
  ghost predicate Yields(cs: Classes, chunks: seq<string>, statements: seq<string>)
    decreases |chunks|
  {
    if chunks == [] then statements == []
    else if Blank(cs, chunks[0]) then Yields(cs, chunks[1..], statements)
    else statements != [] && IsTrimmed(cs, chunks[0], statements[0]) && Yields(cs, chunks[1..], statements[1..])
  }

  // ---- Trimming ----------------------------------------------------------------------------------------

  lemma {:induction false} TrimLeftIs(cs: Classes, s: string) returns (x: string)
    ensures s == x + TrimLeft(cs, s) && Blank(cs, x)
  {
    x := "";
    if s != "" && cs.isSpace(s[0]) {
      var y := TrimLeftIs(cs, s[1..]);
      x := [s[0]] + y;
    }
  }

  lemma {:induction false} TrimRightIs(cs: Classes, s: string) returns (y: string)
    ensures s == TrimRight(cs, s) + y && Blank(cs, y)
  {
    y := "";
    if s != "" && cs.isSpace(s[|s| - 1]) {
      var x := TrimRightIs(cs, s[..|s| - 1]);
      y := x + [s[|s| - 1]];
      assert s == s[..|s| - 1] + [s[|s| - 1]];
    }
  }

  lemma TrimIs(cs: Classes, s: string)
    ensures IsTrimmed(cs, s, Trim(cs, s))
  {
    var x := TrimLeftIs(cs, s);
    var left, t := TrimLeft(cs, s), Trim(cs, s);
    var y := TrimRightIs(cs, left);
    TrimLeftBlank(cs, s);
    TrimRightKeeps(cs, left);
    assert s == x + t + y;
    assert s[..|x|] == x && s[|x|..|x + t|] == t && s[|x + t|..] == y;
    assert TrimmedAt(cs, s, t, |x|, |x + t|);
  }

  lemma OneTrim(cs: Classes, s: string, t: string, u: string)
    requires IsTrimmed(cs, s, t) && IsTrimmed(cs, s, u)
    ensures t == u
  {
    var i: nat, j: nat :| TrimmedAt(cs, s, t, i, j);
    var k: nat, l: nat :| TrimmedAt(cs, s, u, k, l);
    assert forall n :: 0 <= n < i ==> s[..i][n] == s[n];
    assert forall n :: 0 <= n < k ==> s[..k][n] == s[n];
    assert forall n :: j <= n < |s| ==> s[j..][n - j] == s[n];
    assert forall n :: l <= n < |s| ==> s[l..][n - l] == s[n];
  }

  // ---- One piece ---------------------------------------------------------------------------------------

  /** The token that a piece is read as. */
  function TokenOf(p: Piece): Token {
    match p
    case Quote(_) => Token(Literal, |Spelled(p)|, true)
    case Dollars(_, _) => Token(Body, |Spelled(p)|, true)
    case Line(_) => Token(LineComment, |Spelled(p)|, true)
    case Block(_) => Token(BlockComment, |Spelled(p)|, true)
    case Semicolon => Token(Boundary, 1, true)
    case Single(_) => Token(Other, 1, true)
    case OpenQuote(_) => Token(Literal, |Spelled(p)|, false)
    case OpenDollars(_, _) => Token(Body, |Spelled(p)|, false)
    case OpenLine(_) => Token(LineComment, |Spelled(p)|, false)
    case OpenBlock(_) => Token(BlockComment, |Spelled(p)|, false)
  }

  /** What first occurs at the end of a body is found there behind the opening and before anything else. */
  lemma FoundAfter(open: string, body: string, tag: string, rest: string)
    requires tag != "" && FirstAt(body + tag, tag, |body|)
    ensures Find(open + body + tag + rest, tag, |open|) == |open + body|
  {
    var s := open + body + tag + rest;
    assert s[|open + body|..|open + body + tag|] == tag;
    forall k | |open| <= k < |open + body| ensures !MatchesAt(s, k, tag) {
      assert !MatchesAt(body + tag, k - |open|, tag);
      assert s[k..k + |tag|] == (body + tag)[k - |open|..k - |open| + |tag|];
    }
    FirstMatch(s, tag, |open|, |open + body|);
  }

  lemma FoundNowhere(open: string, body: string, tag: string)
    requires tag != "" && Lacks(body, tag)
    ensures Find(open + body, tag, |open|) == |open + body|
  {
    var s := open + body;
    forall k | |open| <= k < |s| ensures !MatchesAt(s, k, tag) {
      assert !MatchesAt(body, k - |open|, tag);
      if k + |tag| <= |s| {
        assert s[k..k + |tag|] == body[k - |open|..k - |open| + |tag|];
      }
    }
  }

  lemma TagFirst(cs: Classes, name: string, more: string)
    requires cs.Sane() && IsName(cs, name)
    ensures var s := Tag(name) + more; TagLen(cs, s) == |Tag(name)| && s[..|Tag(name)|] == Tag(name) && s[0] == '$'
  {
    var s := Tag(name) + more;
    assert s[0..|Tag(name)|] == Tag(name);
    TagLenIs(cs, s, name);
  }

  lemma QuoteFirst(cs: Classes, body: string, rest: string)
    requires FirstAt(body + "'", "'", |body|)
    ensures First(cs, Spelled(Quote(body)) + rest) == TokenOf(Quote(body))
  {
    FoundAfter("'", body, "'", rest);
    assert Spelled(Quote(body)) + rest == "'" + body + "'" + rest;
  }

  lemma DollarsFirst(cs: Classes, name: string, body: string, rest: string)
    requires cs.Sane() && IsName(cs, name) && FirstAt(body + Tag(name), Tag(name), |body|)
    ensures First(cs, Spelled(Dollars(name, body)) + rest) == TokenOf(Dollars(name, body))
  {
    var tag := Tag(name);
    FoundAfter(tag, body, tag, rest);
    TagFirst(cs, name, body + tag + rest);
    var s := tag + body + tag + rest;
    assert s == tag + (body + tag + rest);
    BodyFirst(cs, s, tag);
  }

  lemma BodyFirst(cs: Classes, s: string, tag: string)
    requires s != "" && s[0] == '$' && TagLen(cs, s) == |tag| && |tag| > 0 && s[..|tag|] == tag
    ensures First(cs, s) == var q := Find(s, tag, |tag|); Token(Body, if q < |s| then q + |tag| else |s|, q < |s|)
  {}

  lemma LineFirst(cs: Classes, text: string, rest: string)
    requires FirstAt(text + "\n", "\n", |text|)
    ensures First(cs, Spelled(Line(text)) + rest) == TokenOf(Line(text))
  {
    FoundAfter("--", text, "\n", rest);
    var s := "--" + text + "\n" + rest;
    assert s[0..2] == "--";
  }

  lemma BlockFirst(cs: Classes, text: string, rest: string)
    requires FirstAt(text + "*/", "*/", |text|)
    ensures First(cs, Spelled(Block(text)) + rest) == TokenOf(Block(text))
  {
    FoundAfter("/*", text, "*/", rest);
    var s := "/*" + text + "*/" + rest;
    assert s[0..2] == "/*";
    assert Spelled(Block(text)) + rest == s;
  }

  lemma SingleFirst(cs: Classes, s: string)
    requires Ordinary(cs, s)
    ensures First(cs, s) == Token(Other, 1, true)
  {
    if TagLen(cs, s) > 0 {
      TagLenMeans(cs, s);
    }
  }

  lemma OpenDollarsFirst(cs: Classes, name: string, body: string)
    requires cs.Sane() && IsName(cs, name) && Lacks(body, Tag(name))
    ensures First(cs, Spelled(OpenDollars(name, body)) + "") == TokenOf(OpenDollars(name, body))
  {
    var s := Tag(name) + body;
    FoundNowhere(Tag(name), body, Tag(name));
    TagFirst(cs, name, body);
    BodyFirst(cs, s, Tag(name));
    assert Spelled(OpenDollars(name, body)) + "" == s;
  }

  lemma OpenLineFirst(cs: Classes, text: string)
    requires Lacks(text, "\n")
    ensures First(cs, Spelled(OpenLine(text)) + "") == TokenOf(OpenLine(text))
  {
    var s := "--" + text;
    FoundNowhere("--", text, "\n");
    assert Spelled(OpenLine(text)) + "" == s && s[0..2] == "--";
  }

  lemma OpenBlockFirst(cs: Classes, text: string, rest: string)
    requires |rest| <= 1 && (rest == "" ==> text == "") && Lacks(text + rest, "*/")
    ensures First(cs, Spelled(OpenBlock(text)) + rest) == TokenOf(OpenBlock(text))
  {
    var s := "/*" + (text + rest);
    FoundNowhere("/*", text + rest, "*/");
    assert Spelled(OpenBlock(text)) + rest == s && s[0..2] == "/*";
  }

  /** A piece that can stand where it stands is read as itself. */
  lemma PieceFirst(cs: Classes, p: Piece, rest: string)
    requires cs.Sane() && Legal(cs, p, rest)
    ensures First(cs, Spelled(p) + rest) == TokenOf(p) && TokenOf(p).len == |Spelled(p)|
  {
    match p
    case Quote(body) => QuoteFirst(cs, body, rest);
    case Dollars(name, body) => DollarsFirst(cs, name, body, rest);
    case Line(text) => LineFirst(cs, text, rest);
    case Block(text) => BlockFirst(cs, text, rest);
    case Semicolon => SemicolonFirst(cs, rest);
    case Single(c) => SingleFirst(cs, [c] + rest);
    case OpenQuote(body) =>
      FoundNowhere("'", body, "'");
      assert Spelled(p) + "" == "'" + body;
    case OpenDollars(name, body) => OpenDollarsFirst(cs, name, body);
    case OpenLine(text) => OpenLineFirst(cs, text);
    case OpenBlock(text) => OpenBlockFirst(cs, text, rest);
  }

  lemma SemicolonFirst(cs: Classes, rest: string)
    ensures First(cs, ";" + rest) == Token(Boundary, 1, true)
  {
    var s := ";" + rest;
    assert |s| >= 2 ==> s[0..2][0] == ';';
  }

  // ---- What a script says ------------------------------------------------------------------------------

  lemma PieceText(cs: Classes, p: Piece, rest: string)
    requires cs.Sane() && Legal(cs, p, rest)
    ensures Text(Spelled(p) + rest, TokenOf(p)) == Said(p) && (Spelled(p) + rest)[TokenOf(p).len..] == rest
  {
    PieceFirst(cs, p, rest);
    assert (Spelled(p) + rest)[..|Spelled(p)|] == Spelled(p);
  }

  /** The statements that a text, already collected, and the chunks to come amount to. */
  function Flushed(cs: Classes, current: string, chunks: seq<string>): seq<string>
    requires chunks != []
  {
    Flush(cs, current + chunks[0]) + FlushAll(cs, chunks[1..])
  }

  function FlushAll(cs: Classes, chunks: seq<string>): seq<string> {
    if chunks == [] then [] else Flush(cs, chunks[0]) + FlushAll(cs, chunks[1..])
  }

  lemma {:induction false} RunSays(cs: Classes, ps: seq<Piece>, current: string)
    requires cs.Sane() && Grammatical(cs, ps)
    ensures Run(cs, Spell(ps), current) == Flushed(cs, current, Chunks(ps))
    decreases |ps|
  {
    if ps == [] {
      assert current + "" == current;
    } else {
      RunPiece(cs, ps[0], Spell(ps[1..]), current);
      if ps[0].Semicolon? {
        RunSays(cs, ps[1..], "");
        SemicolonSays(cs, current, Chunks(ps[1..]));
      } else {
        RunSays(cs, ps[1..], current + Said(ps[0]));
        PieceSays(cs, current, Said(ps[0]), Chunks(ps[1..]));
      }
    }
  }

  lemma RunPiece(cs: Classes, p: Piece, rest: string, current: string)
    requires cs.Sane() && Legal(cs, p, rest)
    ensures Run(cs, Spelled(p) + rest, current) ==
            if p.Semicolon? then Flush(cs, current) + Run(cs, rest, "") else Run(cs, rest, current + Said(p))
  {
    PieceFirst(cs, p, rest);
    PieceText(cs, p, rest);
    RunFirst(cs, Spelled(p) + rest, current);
  }

  lemma PieceSays(cs: Classes, current: string, said: string, chunks: seq<string>)
    requires chunks != []
    ensures Flushed(cs, current + said, chunks) == Flushed(cs, current, [said + chunks[0]] + chunks[1..])
  {
    assert current + said + chunks[0] == current + (said + chunks[0]);
    assert ([said + chunks[0]] + chunks[1..])[1..] == chunks[1..];
  }

  lemma SemicolonSays(cs: Classes, current: string, chunks: seq<string>)
    requires chunks != []
    ensures Flush(cs, current) + Flushed(cs, "", chunks) == Flushed(cs, current, [""] + chunks)
  {
    assert current + "" == current && "" + chunks[0] == chunks[0];
    assert ([""] + chunks)[1..] == chunks;
  }

  lemma {:induction false} FlushYields(cs: Classes, chunks: seq<string>, statements: seq<string>)
    ensures Yields(cs, chunks, statements) <==> statements == FlushAll(cs, chunks)
    decreases |chunks|
  {
    if chunks != [] {
      var rest := FlushAll(cs, chunks[1..]);
      FlushOne(cs, chunks[0]);
      if Blank(cs, chunks[0]) {
        FlushYields(cs, chunks[1..], statements);
        assert [] + rest == rest;
      } else if statements != [] {
        FlushYields(cs, chunks[1..], statements[1..]);
        HeadThenRest(statements, Trim(cs, chunks[0]), rest);
      }
    }
  }

  lemma FlushOne(cs: Classes, chunk: string)
    ensures Flush(cs, chunk) == if Blank(cs, chunk) then [] else [Trim(cs, chunk)]
    ensures forall t :: IsTrimmed(cs, chunk, t) <==> t == Trim(cs, chunk)
  {
    TrimBlank(cs, chunk);
    TrimIs(cs, chunk);
    forall t | IsTrimmed(cs, chunk, t) ensures t == Trim(cs, chunk) {
      OneTrim(cs, chunk, t, Trim(cs, chunk));
    }
  }

  lemma HeadThenRest<T>(s: seq<T>, x: T, rest: seq<T>)
    requires s != []
    ensures s == [x] + rest <==> s[0] == x && s[1..] == rest
  {
    assert s == [s[0]] + s[1..];
    assert ([x] + rest)[1..] == rest;
  }

  /** The statements of a script are what its pieces say between the semicolons, trimmed, but for the blank ones. */
  lemma SplitSays(cs: Classes, ps: seq<Piece>, statements: seq<string>)
    requires cs.Sane() && Grammatical(cs, ps)
    ensures statements == Split(cs, Spell(ps)) <==> Yields(cs, Chunks(ps), statements)
  {
    RunSays(cs, ps, "");
    var chunks := Chunks(ps);
    assert "" + chunks[0] == chunks[0];
    FlushYields(cs, chunks, statements);
  }

  // ---- Every script can be read, in one way ------------------------------------------------------------

  lemma FoundIs(s: string, open: string, tag: string)
    requires open <= s && tag != "" && Find(s, tag, |open|) < |s|
    ensures var j := Find(s, tag, |open|);
            var body := s[|open|..j];
            s == open + body + tag + s[j + |tag|..] && FirstAt(body + tag, tag, |body|)
  {
    var j := Find(s, tag, |open|);
    FourParts(s, open, tag, j);
    FirstInside(s, |open|, j, tag);
  }

  lemma FourParts(s: string, open: string, tag: string, j: nat)
    requires open <= s && |open| <= j && MatchesAt(s, j, tag)
    ensures s == open + s[|open|..j] + tag + s[j + |tag|..]
  {
    assert s[..|open|] == open;
  }

  lemma FirstInside(s: string, i: nat, j: nat, tag: string)
    requires i <= j && MatchesAt(s, j, tag) && forall k :: i <= k < j ==> !MatchesAt(s, k, tag)
    ensures FirstAt(s[i..j] + tag, tag, j - i)
  {
    var x := s[i..j + |tag|];
    assert x == s[i..j] + s[j..j + |tag|] == s[i..j] + tag;
    assert x[j - i..j - i + |tag|] == tag;
    forall k | 0 <= k < j - i ensures !MatchesAt(x, k, tag) {
      assert !MatchesAt(s, k + i, tag);
      if k + |tag| <= |x| {
        SliceWithin(s, i, j + |tag|, k, |tag|);
        assert x[k..k + |tag|] == s[i + k..i + k + |tag|];
      }
    }
  }

  lemma SliceWithin(s: string, i: nat, j: nat, k: nat, n: nat)
    requires i <= j <= |s| && k + n <= j - i
    ensures s[i..j][k..k + n] == s[i + k..i + k + n]
  {
    var x, y := s[i..j][k..k + n], s[i + k..i + k + n];
    assert |x| == |y| && forall m :: 0 <= m < n ==> x[m] == y[m];
  }

  lemma NowhereIs(s: string, open: string, tag: string)
    requires open <= s && tag != "" && Find(s, tag, |open|) == |s|
    ensures s == open + s[|open|..] && Lacks(s[|open|..], tag)
  {
    var body := s[|open|..];
    assert s[..|open|] == open;
    forall k: nat ensures !MatchesAt(body, k, tag) {
      if k + |tag| <= |body| {
        assert !MatchesAt(s, k + |open|, tag);
        assert body[k..k + |tag|] == s[k + |open|..k + |open| + |tag|];
      }
    }
  }

  /** A text begins with a piece. */
  lemma PieceAt(cs: Classes, s: string) returns (p: Piece)
    requires cs.Sane() && s != ""
    ensures |Spelled(p)| <= |s| && s == Spelled(p) + s[|Spelled(p)|..] && Legal(cs, p, s[|Spelled(p)|..])
  {
    if s[0] == '\'' {
      var j := Find(s, "'", 1);
      if j < |s| {
        FoundIs(s, "'", "'");
        p := Quote(s[1..j]);
      } else {
        NowhereIs(s, "'", "'");
        p := OpenQuote(s[1..]);
      }
      assert s[|Spelled(p)|..] == if j < |s| then s[j + 1..] else "";
    } else if TagLen(cs, s) > 0 {
      p := DollarsAt(cs, s);
    } else if MatchesAt(s, 0, "--") {
      var j := Find(s, "\n", 2);
      if j < |s| {
        FoundIs(s, "--", "\n");
        p := Line(s[2..j]);
      } else {
        NowhereIs(s, "--", "\n");
        p := OpenLine(s[2..]);
      }
      assert s[|Spelled(p)|..] == if j < |s| then s[j + 1..] else "";
    } else if MatchesAt(s, 0, "/*") {
      p := BlockAt(cs, s);
    } else if s[0] == ';' {
      p := Semicolon;
    } else {
      p := Single(s[0]);
      forall name ensures !TagAt(cs, s, 0, name) {
        if TagAt(cs, s, 0, name) {
          TagLenIs(cs, s, name);
        }
      }
      assert [s[0]] + s[1..] == s;
    }
  }

  lemma DollarsAt(cs: Classes, s: string) returns (p: Piece)
    requires cs.Sane() && s != "" && TagLen(cs, s) > 0
    ensures |Spelled(p)| <= |s| && s == Spelled(p) + s[|Spelled(p)|..] && Legal(cs, p, s[|Spelled(p)|..])
  {
    var n := TagLen(cs, s);
    var name := s[1..n - 1];
    TagLenMeans(cs, s);
    var tag := Tag(name);
    var j := Find(s, tag, n);
    if j < |s| {
      FoundIs(s, tag, tag);
      p := Dollars(name, s[n..j]);
      assert s[|Spelled(p)|..] == s[j + n..];
    } else {
      NowhereIs(s, tag, tag);
      p := OpenDollars(name, s[n..]);
      assert s[|Spelled(p)|..] == "";
    }
  }

  lemma BlockAt(cs: Classes, s: string) returns (p: Piece)
    requires MatchesAt(s, 0, "/*")
    ensures |Spelled(p)| <= |s| && s == Spelled(p) + s[|Spelled(p)|..] && Legal(cs, p, s[|Spelled(p)|..])
  {
    var j := Find(s, "*/", 2);
    if j < |s| {
      FoundIs(s, "/*", "*/");
      p := Block(s[2..j]);
      assert s[|Spelled(p)|..] == s[j + 2..];
    } else {
      NowhereIs(s, "/*", "*/");
      var n := if |s| == 2 then 2 else |s| - 1;
      p := OpenBlock(s[2..n]);
      assert s[|Spelled(p)|..] == s[n..] && s[2..n] + s[n..] == s[2..];
    }
  }

  /** Every script can be read. */
  lemma {:induction false} Readable(cs: Classes, s: string) returns (ps: seq<Piece>)
    requires cs.Sane()
    ensures Grammatical(cs, ps) && Spell(ps) == s
    decreases |s|
  {
    ps := [];
    if s != "" {
      var p := PieceAt(cs, s);
      var rest := Readable(cs, s[|Spelled(p)|..]);
      ps := [p] + rest;
      assert ps[1..] == rest;
    }
  }

  /** And in no two ways. */
  lemma {:induction false} OneReading(cs: Classes, ps: seq<Piece>, qs: seq<Piece>)
    requires cs.Sane() && Grammatical(cs, ps) && Grammatical(cs, qs) && Spell(ps) == Spell(qs)
    ensures ps == qs
    decreases |ps|
  {
    if ps == [] || qs == [] {
      SpellsSomething(ps);
      SpellsSomething(qs);
    } else {
      SameStart(cs, ps[0], Spell(ps[1..]), qs[0], Spell(qs[1..]));
      OneReading(cs, ps[1..], qs[1..]);
      assert ps == [ps[0]] + ps[1..] && qs == [qs[0]] + qs[1..];
    }
  }

  lemma SpellsSomething(ps: seq<Piece>)
    ensures Spell(ps) == "" <==> ps == []
  {
    if ps != [] {
      assert Spelled(ps[0]) != "";
    }
  }

  lemma SameStart(cs: Classes, p: Piece, x: string, q: Piece, y: string)
    requires cs.Sane() && Legal(cs, p, x) && Legal(cs, q, y) && Spelled(p) + x == Spelled(q) + y
    ensures p == q && x == y
  {
    PieceFirst(cs, p, x);
    PieceFirst(cs, q, y);
    assert (Spelled(p) + x)[..|Spelled(p)|] == Spelled(p) && (Spelled(q) + y)[..|Spelled(q)|] == Spelled(q);
    assert (Spelled(p) + x)[|Spelled(p)|..] == x && (Spelled(q) + y)[|Spelled(q)|..] == y;
    SamePiece(cs, p, x, q, y);
  }

  lemma Between(open: string, x: string, y: string, close: string)
    requires open + x + close == open + y + close
    ensures x == y
  {
    var s := open + x + close;
    assert |x| == |y| && s[|open|..|open| + |x|] == x && (open + y + close)[|open|..|open| + |y|] == y;
  }

  lemma Behind(open: string, x: string, y: string)
    requires open + x == open + y
    ensures x == y
  {
    assert (open + x)[|open|..] == x && (open + y)[|open|..] == y;
  }

  /** The token and the spelling tell the piece. */
  lemma SamePiece(cs: Classes, p: Piece, x: string, q: Piece, y: string)
    requires cs.Sane() && Legal(cs, p, x) && Legal(cs, q, y) && TokenOf(p) == TokenOf(q) && Spelled(p) == Spelled(q)
    ensures p == q
  {
    match p
    case Quote(body) => Between("'", body, q.body, "'");
    case Dollars(name, body) => SameWhole(cs, name, body, q.name, q.body);
    case Line(text) => Between("--", text, q.text, "\n");
    case Block(text) => Between("/*", text, q.text, "*/");
    case Semicolon =>
    case Single(c) =>
    case OpenQuote(body) => Behind("'", body, q.body);
    case OpenDollars(name, body) => SameDollars(cs, name, body, q.name, q.body);
    case OpenLine(text) => Behind("--", text, q.text);
    case OpenBlock(text) => Behind("/*", text, q.text);
  }

  lemma SameWhole(cs: Classes, name: string, body: string, name2: string, body2: string)
    requires cs.Sane() && IsName(cs, name) && IsName(cs, name2)
    requires Tag(name) + body + Tag(name) == Tag(name2) + body2 + Tag(name2)
    ensures name == name2 && body == body2
  {
    assert Tag(name) + (body + Tag(name)) == Tag(name) + body + Tag(name);
    assert Tag(name2) + (body2 + Tag(name2)) == Tag(name2) + body2 + Tag(name2);
    SameDollars(cs, name, body + Tag(name), name2, body2 + Tag(name2));
    Between(Tag(name), body, body2, Tag(name));
  }

  lemma SameDollars(cs: Classes, name: string, more: string, name2: string, more2: string)
    requires cs.Sane() && IsName(cs, name) && IsName(cs, name2)
    requires Tag(name) + more == Tag(name2) + more2
    ensures name == name2 && more == more2
  {
    var s := Tag(name) + more;
    TagFirst(cs, name, more);
    TagFirst(cs, name2, more2);
    assert name == s[1..|Tag(name)| - 1] && more == s[|Tag(name)|..];
    assert name2 == s[1..|Tag(name2)| - 1] && more2 == s[|Tag(name2)|..];
  }

  // ---- Quoted text and comments in a statement ----------------------------------------------------------

  /** Text without separators, quotes, dollars or the beginnings of comments. */
  predicate Bare(s: string) {
    forall c :: c in s ==> c !in "';$-/"
  }

  function Singles(s: string): seq<Piece> {
    if s == "" then [] else [Single(s[0])] + Singles(s[1..])
  }

  lemma BareIsOrdinary(cs: Classes, c: char, rest: string)
    requires c !in "';$-/"
    ensures Ordinary(cs, [c] + rest)
  {
    var s := [c] + rest;
    forall name ensures !TagAt(cs, s, 0, name) {
      if |Tag(name)| <= |s| {
        assert s[0..|Tag(name)|][0] == c && Tag(name)[0] == '$';
      }
    }
    assert |s| >= 2 ==> s[0..2][0] == c;
  }

  /** The pieces spell the text and say these chunks. */
  ghost predicate Reads(cs: Classes, ps: seq<Piece>, s: string, chunks: seq<string>) {
    Grammatical(cs, ps) && Spell(ps) == s && Chunks(ps) == chunks
  }

  lemma OneMore(cs: Classes, p: Piece, ps: seq<Piece>, s: string, said: string, chunks: seq<string>)
    requires Reads(cs, ps, s, [said] + chunks) && Legal(cs, p, s) && !p.Semicolon?
    ensures Reads(cs, [p] + ps, Spelled(p) + s, [Said(p) + said] + chunks)
  {
    assert ([p] + ps)[1..] == ps;
    assert ([said] + chunks)[1..] == chunks;
  }

  /** Bare text before other pieces. */
  lemma {:induction false} BareBefore(cs: Classes, a: string, ps: seq<Piece>, s: string, said: string, chunks: seq<string>)
    requires Bare(a) && Reads(cs, ps, s, [said] + chunks)
    ensures Reads(cs, Singles(a) + ps, a + s, [a + said] + chunks)
  {
    if a == "" {
      assert Singles(a) + ps == ps && a + s == s && a + said == said;
    } else {
      assert a[0] in a && forall c :: c in a[1..] ==> c in a;
      BareBefore(cs, a[1..], ps, s, said, chunks);
      BareIsOrdinary(cs, a[0], a[1..] + s);
      OneMore(cs, Single(a[0]), Singles(a[1..]) + ps, a[1..] + s, a[1..] + said, chunks);
      CharFirst(a, s);
      CharFirst(a, said);
      assert [Single(a[0])] + (Singles(a[1..]) + ps) == Singles(a) + ps;
    }
  }

  lemma CharFirst(a: string, s: string)
    requires a != ""
    ensures [a[0]] + (a[1..] + s) == a + s
  {}

  lemma BareAlone(cs: Classes, b: string)
    requires Bare(b)
    ensures Reads(cs, Singles(b), b, [b])
  {
    assert [""] + [] == Chunks([]);
    BareBefore(cs, b, [], "", "", []);
    assert Singles(b) + [] == Singles(b) && b + "" == b && [b] + [] == [b];
  }

  /**
   A literal, a dollar-quoted body or a comment, whatever it holds, and the bare text around
   it are one statement: the whole text, with a space for the comment.
   */
  lemma StaysWhole(cs: Classes, a: string, p: Piece, b: string)
    requires cs.Sane() && Bare(a) && Bare(b) && Legal(cs, p, b) && (p.Quote? || p.Dollars? || p.Line? || p.Block?)
    ensures var text, statements := a + Said(p) + b, Split(cs, a + Spelled(p) + b);
            if Blank(cs, text) then statements == [] else |statements| == 1 && IsTrimmed(cs, text, statements[0])
  {
    var s, text := a + Spelled(p) + b, a + Said(p) + b;
    Associate(a, Spelled(p), b);
    Associate(a, Said(p), b);
    var ps := ReadsWhole(cs, a, p, b);
    OneChunk(cs, ps, s, text);
  }

  lemma ReadsWhole(cs: Classes, a: string, p: Piece, b: string) returns (ps: seq<Piece>)
    requires Bare(a) && Bare(b) && Legal(cs, p, b) && !p.Semicolon?
    ensures Reads(cs, ps, a + (Spelled(p) + b), [a + (Said(p) + b)] + [])
  {
    BareAlone(cs, b);
    assert [b] + [] == [b];
    OneMore(cs, p, Singles(b), b, b, []);
    ps := [p] + Singles(b);
    BareBefore(cs, a, ps, Spelled(p) + b, Said(p) + b, []);
    ps := Singles(a) + ps;
  }

  lemma OneChunk(cs: Classes, ps: seq<Piece>, s: string, text: string)
    requires cs.Sane() && Reads(cs, ps, s, [text] + [])
    ensures if Blank(cs, text) then Split(cs, s) == [] else |Split(cs, s)| == 1 && IsTrimmed(cs, text, Split(cs, s)[0])
  {
    SplitSays(cs, ps, Split(cs, s));
    assert ([text] + [])[1..] == [];
  }
}
