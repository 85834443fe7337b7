/**
 Splitting a migration script into statements (`split_statements` of
 `crates/migrate/src/runner.rs`): a lexer that knows literals, dollar-quoted bodies and
 two forms of comment.
 */
module Splitter {

  /** The character classes of the standard library, of which only `Sane` is assumed. */
  datatype Classes = Classes(isSpace: char -> bool, isAlpha: char -> bool, isNumeric: char -> bool)
  {
    predicate Starts(c: char) {
      isAlpha(c) || c == '_'
    }

    predicate Continues(c: char) {
      isAlpha(c) || isNumeric(c) || c == '_'
    }

    /** Neither white space nor part of a name. */
    predicate Solid(c: char) {
      !isSpace(c) && !Continues(c)
    }

    predicate Sane() {
      && isSpace(' ') && !Continues(' ')
      && Solid('\'') && Solid('$') && Solid('-') && Solid('/') && Solid(';') && Solid('*')
    }
  }

  // ---- Trimming ----------------------------------------------------------------------------------

  function TrimLeft(cs: Classes, s: string): string {
    if s != "" && cs.isSpace(s[0]) then TrimLeft(cs, s[1..]) else s
  }

  function TrimRight(cs: Classes, s: string): string {
    if s != "" && cs.isSpace(s[|s| - 1]) then TrimRight(cs, s[..|s| - 1]) else s
  }

  function Trim(cs: Classes, s: string): string {
    TrimRight(cs, TrimLeft(cs, s))
  }

  // ---- Tokens ------------------------------------------------------------------------------------

  datatype Kind = Literal | Body | LineComment | BlockComment | Boundary | Other

  /** The token that starts a text: its length, and whether it is complete. */
  datatype Token = Token(kind: Kind, len: nat, closed: bool)
  {
    predicate IsComment() {
      kind.LineComment? || kind.BlockComment?
    }
  }

  predicate MatchesAt(s: string, i: nat, tag: string) {
    i + |tag| <= |s| && s[i..i + |tag|] == tag
  }

  /** The first occurrence of `tag` at or after `i`; the length of `s` when there is none. */
  function Find(s: string, tag: string, i: nat): (j: nat)
    requires i <= |s| && tag != ""
    ensures i <= j <= |s| && (j < |s| ==> MatchesAt(s, j, tag))
    ensures forall k :: i <= k < j ==> !MatchesAt(s, k, tag)
    decreases |s| - i
  {
    if i == |s| || MatchesAt(s, i, tag) then i else Find(s, tag, i + 1)
  }

  /** The end of the run of name characters from `i` on. */
  function NameEnd(cs: Classes, s: string, i: nat): (j: nat)
    requires i <= |s|
    ensures i <= j <= |s| && (j < |s| ==> !cs.Continues(s[j]))
    ensures forall k :: i <= k < j ==> cs.Continues(s[k])
    decreases |s| - i
  {
    if i < |s| && cs.Continues(s[i]) then NameEnd(cs, s, i + 1) else i
  }

  /** The length of the dollar-quote tag that `s` starts with, or 0. A bind placeholder is no tag. */
  function TagLen(cs: Classes, s: string): (n: nat)
    ensures n == 0 || (2 <= n <= |s| && s[0] == '$' && s[n - 1] == '$')
  {
    if |s| < 2 || s[0] != '$' then 0
    else if s[1] == '$' then 2
    else if !cs.Starts(s[1]) then 0
    else
      var j := NameEnd(cs, s, 1);
      if j < |s| && s[j] == '$' then j + 1 else 0
  }

  /** What may stand between the dollars of a tag. */
  ghost predicate IsName(cs: Classes, name: string) {
    && (name != "" ==> cs.isAlpha(name[0]) || name[0] == '_')
    && forall c :: c in name ==> cs.isAlpha(c) || cs.isNumeric(c) || c == '_'
  }

  function Tag(name: string): string {
    "$" + name + "$"
  }

  ghost predicate TagAt(cs: Classes, s: string, i: nat, name: string) {
    IsName(cs, name) && MatchesAt(s, i, Tag(name))
  }

  lemma NameEndOfTag(cs: Classes, s: string, name: string)
    requires cs.Sane() && IsName(cs, name) && MatchesAt(s, 0, Tag(name))
    ensures NameEnd(cs, s, 1) == |name| + 1
  {
    assert forall k :: 0 <= k < |name| + 2 ==> s[0..|name| + 2][k] == s[k];
    assert s[|name| + 1] == '$';
    forall k | 1 <= k < |name| + 1 ensures cs.Continues(s[k]) {
      assert s[k] == Tag(name)[k] == name[k - 1] && name[k - 1] in name;
    }
  }

  /** A text starts with a tag exactly if it starts with dollars around a name, and no two tags start alike. */
  lemma TagLenIs(cs: Classes, s: string, name: string)
    requires cs.Sane() && TagAt(cs, s, 0, name)
    ensures TagLen(cs, s) == |name| + 2
  {
    NameEndOfTag(cs, s, name);
    assert forall k :: 0 <= k < |name| + 2 ==> s[0..|name| + 2][k] == s[k] == Tag(name)[k];
    if name != "" {
      assert s[1] == name[0] && name[0] in name;
    }
  }

  lemma TagLenMeans(cs: Classes, s: string)
    requires TagLen(cs, s) > 0
    ensures var n := TagLen(cs, s); TagAt(cs, s, 0, s[1..n - 1]) && s[..n] == Tag(s[1..n - 1])
  {
    var n := TagLen(cs, s);
    var name := s[1..n - 1];
    assert s[..n] == Tag(name) == s[0..n];
    assert forall k :: 0 <= k < |name| ==> name[k] == s[k + 1];
  }

  function First(cs: Classes, s: string): (t: Token)
    requires s != ""
    ensures 0 < t.len <= |s|
  {
    if s[0] == '\'' then
      var q := Find(s, "'", 1);
      if q < |s| then Token(Literal, q + 1, true) else Token(Literal, |s|, false)
    else if TagLen(cs, s) > 0 then
      var n := TagLen(cs, s);
      var q := Find(s, s[..n], n);
      if q < |s| then Token(Body, q + n, true) else Token(Body, |s|, false)
    else if MatchesAt(s, 0, "--") then
      var q := Find(s, "\n", 2);
      if q < |s| then Token(LineComment, q + 1, true) else Token(LineComment, |s|, false)
    else if MatchesAt(s, 0, "/*") then
      var q := Find(s, "*/", 2);
      // An unfinished comment leaves its last character to be read again as SQL.
      if q < |s| then Token(BlockComment, q + 2, true)
      else Token(BlockComment, if |s| <= 3 then 2 else |s| - 1, false)
    else if s[0] == ';' then Token(Boundary, 1, true)
    else Token(Other, 1, true)
  }

  /** What a token contributes to its statement: itself, or a space in place of a comment. */
  function Text(s: string, t: Token): string
    requires t.len <= |s|
  {
    if t.IsComment() then " " else s[..t.len]
  }

  function Flush(cs: Classes, current: string): seq<string> {
    if Trim(cs, current) == "" then [] else [Trim(cs, current)]
  }

  /** The statements still to come, when `current` has been collected. */
  function Run(cs: Classes, s: string, current: string): seq<string>
    decreases |s|
  {
    if s == "" then Flush(cs, current)
    else
      var t := First(cs, s);
      if t.kind.Boundary? then Flush(cs, current) + Run(cs, s[t.len..], "")
      else Run(cs, s[t.len..], current + Text(s, t))
  }

  function Split(cs: Classes, s: string): seq<string> {
    Run(cs, s, "")
  }

  // ---- The loop ----------------------------------------------------------------------------------

  lemma MatchesShift(s: string, tag: string, i: nat, k: nat)
    requires k <= i <= |s|
    ensures MatchesAt(s[k..], i - k, tag) <==> MatchesAt(s, i, tag)
  {
    if i + |tag| <= |s| {
      assert s[k..][i - k..i - k + |tag|] == s[i..i + |tag|];
    }
  }

  lemma FindShift(s: string, tag: string, i: nat, k: nat)
    requires k <= i <= |s| && tag != ""
    ensures Find(s[k..], tag, i - k) + k == Find(s, tag, i)
    decreases |s| - i
  {
    MatchesShift(s, tag, i, k);
    if i < |s| && !MatchesAt(s, i, tag) {
      FindShift(s, tag, i + 1, k);
    }
  }

  lemma NameEndShift(cs: Classes, s: string, i: nat, k: nat)
    requires k <= i <= |s|
    ensures NameEnd(cs, s[k..], i - k) + k == NameEnd(cs, s, i)
    decreases |s| - i
  {
    if i < |s| && cs.Continues(s[i]) {
      NameEndShift(cs, s, i + 1, k);
    }
  }

  lemma TagsFound(cs: Classes, s: string, i: nat)
    requires i < |s|
    ensures TagLen(cs, s[i..]) > 0 ==> exists name :: TagAt(cs, s, i, name) && TagLen(cs, s[i..]) == |name| + 2
    ensures cs.Sane() && TagLen(cs, s[i..]) == 0 ==> forall name :: !TagAt(cs, s, i, name)
  {
    var n := TagLen(cs, s[i..]);
    if n > 0 {
      TagLenMeans(cs, s[i..]);
      MatchesShift(s, Tag(s[i..][1..n - 1]), i, i);
      assert TagAt(cs, s, i, s[i..][1..n - 1]);
    }
    if cs.Sane() {
      forall name | TagAt(cs, s, i, name) ensures n == |name| + 2 {
        MatchesShift(s, Tag(name), i, i);
        TagLenIs(cs, s[i..], name);
      }
    }
  }

  /** `dollar_tag_len`, with 0 for `None`. */
  method DollarTagLen(cs: Classes, chars: string, i: nat) returns (n: nat)
    requires i < |chars|
    ensures n == TagLen(cs, chars[i..])
    // A tag is a name between dollars, and there is none where the method finds none.
    ensures n > 0 ==> exists name :: TagAt(cs, chars, i, name) && n == |name| + 2
    ensures cs.Sane() && n == 0 ==> forall name :: !TagAt(cs, chars, i, name)
  {
    TagsFound(cs, chars, i);
    if chars[i] != '$' {
      return 0;
    }
    var j := i + 1;
    if j < |chars| && chars[j] != '$' {
      if !cs.Starts(chars[j]) {
        return 0;
      }
      while j < |chars| && cs.Continues(chars[j])
        invariant i < j <= |chars| && NameEnd(cs, chars, i + 1) == NameEnd(cs, chars, j)
      {
        j := j + 1;
      }
      NameEndShift(cs, chars, i + 1, i);
    }
    return if j < |chars| && chars[j] == '$' then j - i + 1 else 0;
  }

  /** What is left from `i` on; the loop may step one past the end. */
  function From(s: string, i: nat): string {
    if i <= |s| then s[i..] else ""
  }

  lemma FindStep(s: string, i: nat, tag: string)
    requires i < |s| && tag != ""
    ensures MatchesAt(s, i, tag) ==> s[i] == tag[0] && Find(s, tag, i) == i && s[i..i + |tag|] == tag
    ensures !MatchesAt(s, i, tag) ==> Find(s, tag, i) == Find(s, tag, i + 1)
  {
    assert MatchesAt(s, i, tag) ==> s[i..i + |tag|][0] == s[i];
  }

  lemma JoinSlices(s: string, i: nat, j: nat, k: nat)
    requires i <= j <= k <= |s|
    ensures s[i..k] == s[i..j] + s[j..k]
    ensures k == j + 1 ==> s[j..k] == [s[j]]
  {}

  lemma SliceOfSlice(s: string, i: nat, n: nat)
    requires i + n <= |s|
    ensures s[i..][..n] == s[i..i + n]
  {}

  lemma BodyToken(cs: Classes, chars: string, start: nat, tagLen: nat)
    requires start < |chars| && tagLen == TagLen(cs, chars[start..]) > 0
    ensures start + tagLen <= |chars| && chars[start] == '$'
    ensures var t := First(cs, chars[start..]);
            var end := Find(chars, chars[start..start + tagLen], start + tagLen);
            && start + t.len == (if end < |chars| then end + tagLen else |chars|)
            && Text(chars[start..], t) == chars[start..start + t.len]
  {
    var tag := chars[start..start + tagLen];
    SliceOfSlice(chars, start, tagLen);
    FindShift(chars, tag, start + tagLen, start);
    SliceOfSlice(chars, start, First(cs, chars[start..]).len);
  }

  lemma LiteralToken(cs: Classes, chars: string, start: nat)
    requires start < |chars| && chars[start] == '\''
    ensures var t := First(cs, chars[start..]);
            var end := Find(chars, "'", start + 1);
            && start + t.len == (if end < |chars| then end + 1 else |chars|)
            && Text(chars[start..], t) == chars[start..start + t.len]
  {
    FindShift(chars, "'", start + 1, start);
    SliceOfSlice(chars, start, First(cs, chars[start..]).len);
  }

  lemma AppendSlices(collected: string, s: string, i: nat, j: nat, k: nat)
    requires i <= j <= k <= |s|
    ensures collected + s[i..j] + s[j..k] == collected + s[i..k]
  {
    JoinSlices(s, i, j, k);
    assert collected + s[i..j] + s[j..k] == collected + (s[i..j] + s[j..k]);
  }

  lemma QuoteStep(s: string, i: nat)
    requires i < |s|
    ensures Find(s, "'", i) == if s[i] == '\'' then i else Find(s, "'", i + 1)
  {
    FindStep(s, i, "'");
    assert s[i..i + 1] == "'" <==> s[i] == '\'';
  }

  /** Copies up to and including the next quote, or to the end. */
  method CopyLiteral(chars: string, start: nat, collected: string) returns (i: nat, current: string)
    requires start <= |chars|
    ensures var end := Find(chars, "'", start);
            && i == (if end < |chars| then end + 1 else |chars|)
            && current == collected + chars[start..i]
  {
    ghost var end := Find(chars, "'", start);
    current := collected;
    i := start;
    while i < |chars|
      invariant start <= i <= |chars| && current == collected + chars[start..i]
      invariant Find(chars, "'", i) == end
    {
      QuoteStep(chars, i);
      JoinSlices(chars, start, i, i + 1);
      current := current + [chars[i]];
      if chars[i] == '\'' {
        i := i + 1;
        return;
      }
      i := i + 1;
    }
  }

  /** The literal that starts at `i`, with its closing quote if there is one. */
  method TakeLiteral(cs: Classes, chars: string, start: nat, collected: string) returns (i: nat, current: string)
    requires start < |chars| && chars[start] == '\''
    ensures var t := First(cs, chars[start..]);
            i == start + t.len && current == collected + Text(chars[start..], t)
  {
    LiteralToken(cs, chars, start);
    assert chars[start..start + 1] == ['\''];
    current := collected + ['\''];
    i, current := CopyLiteral(chars, start + 1, current);
    AppendSlices(collected, chars, start, start + 1, i);
  }

  /** One piece more has been copied. */
  lemma CopyMore(collected: string, s: string, start: nat, i: nat, k: nat, piece: string)
    requires start <= i <= k <= |s| && piece == s[i..k]
    ensures collected + s[start..i] + piece == collected + s[start..k]
  {
    AppendSlices(collected, s, start, i, k);
  }

  lemma OneChar(s: string, i: nat)
    requires i < |s|
    ensures [s[i]] == s[i..i + 1]
  {}

  /** Copies up to and including the next `tag`, or to the end. */
  method CopyThrough(chars: string, tag: string, start: nat, collected: string) returns (i: nat, current: string)
    requires start <= |chars| && tag != "" && tag[0] == '$'
    ensures var end := Find(chars, tag, start);
            && i == (if end < |chars| then end + |tag| else |chars|)
            && current == collected + chars[start..i]
  {
    current := collected;
    i := start;
    while i < |chars|
      invariant start <= i <= |chars| && current == collected + chars[start..i]
      invariant Find(chars, tag, i) == Find(chars, tag, start)
    {
      FindStep(chars, i, tag);
      if chars[i] == '$' && MatchesAt(chars, i, tag) {
        CopyMore(collected, chars, start, i, i + |tag|, tag);
        return i + |tag|, current + tag;
      }
      OneChar(chars, i);
      CopyMore(collected, chars, start, i, i + 1, [chars[i]]);
      i, current := i + 1, current + [chars[i]];
    }
  }

  /** The dollar-quoted body that starts at `i`, copied verbatim. */
  method TakeBody(cs: Classes, chars: string, start: nat, tagLen: nat, collected: string) returns (i: nat, current: string)
    requires start < |chars| && tagLen == TagLen(cs, chars[start..]) > 0
    ensures var t := First(cs, chars[start..]);
            i == start + t.len && current == collected + Text(chars[start..], t)
  {
    BodyToken(cs, chars, start, tagLen);
    i, current := CopyBody(chars, start, tagLen, collected);
  }

  method CopyBody(chars: string, start: nat, tagLen: nat, collected: string) returns (i: nat, current: string)
    requires start + tagLen <= |chars| && tagLen > 0 && chars[start] == '$'
    ensures var end := Find(chars, chars[start..start + tagLen], start + tagLen);
            && i == (if end < |chars| then end + tagLen else |chars|)
            && start <= i <= |chars| && current == collected + chars[start..i]
  {
    var tag := chars[start..start + tagLen];
    i, current := CopyThrough(chars, tag, start + tagLen, collected + tag);
    AppendSlices(collected, chars, start, start + tagLen, i);
  }

  lemma LineToken(cs: Classes, chars: string, start: nat)
    requires start < |chars| && First(cs, chars[start..]).kind.LineComment?
    ensures start + 2 <= |chars|
    ensures var end := Find(chars, "\n", start + 2);
            start + First(cs, chars[start..]).len == if end < |chars| then end + 1 else |chars|
  {
    FindShift(chars, "\n", start + 2, start);
  }

  lemma NewlineStep(s: string, i: nat)
    requires i < |s|
    ensures Find(s, "\n", i) == if s[i] == '\n' then i else Find(s, "\n", i + 1)
  {
    FindStep(s, i, "\n");
    assert s[i..i + 1] == "\n" <==> s[i] == '\n';
  }

  method SkipLine(cs: Classes, chars: string, start: nat) returns (i: nat)
    requires start < |chars| && First(cs, chars[start..]).kind.LineComment?
    ensures start < i && From(chars, i) == From(chars, start + First(cs, chars[start..]).len)
  {
    LineToken(cs, chars, start);
    i := FindNewline(chars, start + 2);
    // The newline is passed over, or, without one, the end of the text.
    i := i + 1;
  }

  method FindNewline(chars: string, start: nat) returns (i: nat)
    requires start <= |chars|
    ensures i == Find(chars, "\n", start)
  {
    i := start;
    while i < |chars| && chars[i] != '\n'
      invariant start <= i <= |chars| && Find(chars, "\n", i) == Find(chars, "\n", start)
    {
      NewlineStep(chars, i);
      i := i + 1;
    }
    if i < |chars| {
      NewlineStep(chars, i);
    }
  }

  lemma BlockToken(cs: Classes, chars: string, start: nat)
    requires start < |chars| && First(cs, chars[start..]).kind.BlockComment?
    ensures start + 2 <= |chars|
    ensures var end := Find(chars, "*/", start + 2);
            start + First(cs, chars[start..]).len ==
            if end < |chars| then end + 2 else if |chars| <= start + 3 then start + 2 else |chars| - 1
  {
    FindShift(chars, "*/", start + 2, start);
  }

  lemma BlockStep(s: string, i: nat)
    requires i < |s|
    ensures var here := i + 1 < |s| && s[i] == '*' && s[i + 1] == '/';
            Find(s, "*/", i) == if here then i else Find(s, "*/", i + 1)
  {
    FindStep(s, i, "*/");
    if i + 1 < |s| {
      assert s[i..i + 2] == [s[i], s[i + 1]];
    }
  }

  /** The position of the next end of a block comment, or else the last position, or `start`. */
  method FindBlockEnd(chars: string, start: nat) returns (i: nat)
    requires start <= |chars|
    ensures var end := Find(chars, "*/", start);
            i == if end < |chars| then end else if |chars| <= start + 1 then start else |chars| - 1
  {
    i := start;
    while i + 1 < |chars| && !(chars[i] == '*' && chars[i + 1] == '/')
      invariant start <= i <= |chars| && Find(chars, "*/", i) == Find(chars, "*/", start)
      invariant i == start || i + 1 <= |chars|
    {
      BlockStep(chars, i);
      i := i + 1;
    }
    if i < |chars| {
      BlockStep(chars, i);
    }
  }

  method SkipBlock(cs: Classes, chars: string, start: nat) returns (i: nat)
    requires start < |chars| && First(cs, chars[start..]).kind.BlockComment?
    ensures i == start + First(cs, chars[start..]).len
  {
    BlockToken(cs, chars, start);
    i := FindBlockEnd(chars, start + 2);
    if i + 1 < |chars| {
      i := i + 2;
    }
  }

  /** Which branch of the loop a position leads to. */
  lemma TokenAt(cs: Classes, chars: string, i: nat)
    requires i < |chars|
    ensures var t := First(cs, chars[i..]);
            var second := i + 1 < |chars|;
            && t.kind == (if chars[i] == '\'' then Literal
                          else if TagLen(cs, chars[i..]) > 0 then Body
                          else if chars[i] == '-' && second && chars[i + 1] == '-' then LineComment
                          else if chars[i] == '/' && second && chars[i + 1] == '*' then BlockComment
                          else if chars[i] == ';' then Boundary
                          else Other)
            && (t.kind.Boundary? || t.kind.Other? ==> t.len == 1 && Text(chars[i..], t) == [chars[i]])
  {
    if i + 1 < |chars| {
      assert chars[i..][0..2] == [chars[i], chars[i + 1]];
    }
  }

  lemma RunStep(cs: Classes, chars: string, i: nat, current: string)
    requires i < |chars|
    ensures var t := First(cs, chars[i..]);
            && i + t.len <= |chars|
            && Run(cs, From(chars, i), current) ==
               if t.kind.Boundary? then Flush(cs, current) + Run(cs, From(chars, i + t.len), "")
               else Run(cs, From(chars, i + t.len), current + Text(chars[i..], t))
  {
    var t := First(cs, chars[i..]);
    assert chars[i..][t.len..] == chars[i + t.len..];
  }

  /** The loop is at `i` with these statements done and this text collected. */
  ghost predicate Reached(cs: Classes, chars: string, i: nat, statements: seq<string>, current: string) {
    statements + Run(cs, From(chars, i), current) == Split(cs, chars)
  }

  lemma Advance(cs: Classes, chars: string, i: nat, next: nat, statements: seq<string>, current: string)
    requires i < |chars| && Reached(cs, chars, i, statements, current)
    requires From(chars, next) == From(chars, i + First(cs, chars[i..]).len)
    ensures var t := First(cs, chars[i..]);
            if t.kind.Boundary? then Reached(cs, chars, next, statements + Flush(cs, current), "")
            else Reached(cs, chars, next, statements, current + Text(chars[i..], t))
  {
    RunStep(cs, chars, i, current);
  }

  /** `split_statements`. */
  method SplitStatements(cs: Classes, chars: string) returns (statements: seq<string>)
    ensures statements == Split(cs, chars)
  {
    statements := [];
    var current := "";
    var i := 0;
    assert Reached(cs, chars, i, statements, current);
    while i < |chars|
      invariant Reached(cs, chars, i, statements, current)
      decreases |chars| - i
    {
      ghost var here, done, collected := i, statements, current;
      TokenAt(cs, chars, i);
      var tagLen := DollarTagLen(cs, chars, i);
      if chars[i] == '\'' {
        i, current := TakeLiteral(cs, chars, i, current);
      } else if tagLen > 0 {
        i, current := TakeBody(cs, chars, i, tagLen, current);
      } else if chars[i] == '-' && i + 1 < |chars| && chars[i + 1] == '-' {
        i := SkipLine(cs, chars, i);
        current := current + [' '];
      } else if chars[i] == '/' && i + 1 < |chars| && chars[i + 1] == '*' {
        i := SkipBlock(cs, chars, i);
        current := current + [' '];
      } else if chars[i] == ';' {
        if Trim(cs, current) != "" {
          statements := statements + [Trim(cs, current)];
        }
        assert statements == done + Flush(cs, collected);
        current := "";
        i := i + 1;
      } else {
        current := current + [chars[i]];
        i := i + 1;
      }
      assert statements == if First(cs, chars[here..]).kind.Boundary? then done + Flush(cs, collected) else done;
      Advance(cs, chars, here, i, done, collected);
    }
    if Trim(cs, current) != "" {
      statements := statements + [Trim(cs, current)];
    }
  }
}
