/**
 Splitting again what was split: every statement is a text without comments or
 separators, trimmed, and joining the statements and splitting gives them back.
 */
module Resplit {
  import opened Splitter
  import opened SplitLaws

  /** Read again, `s` has no comment and no separator outside its literals and bodies. */
  predicate Plain(cs: Classes, s: string)
    decreases |s|
  {
    s == "" || (!First(cs, s).IsComment() && !First(cs, s).kind.Boundary? && Plain(cs, Rest(cs, s)))
  }

  lemma {:induction false} RunPlain(cs: Classes, s: string, current: string)
    requires Plain(cs, s)
    ensures Run(cs, s, current) == Flush(cs, current + s)
    decreases |s|
  {
    if s == "" {
      assert current + s == current;
    } else {
      var t := First(cs, s);
      RunPlain(cs, Rest(cs, s), current + s[..t.len]);
      assert current + s[..t.len] + s[t.len..] == current + s;
    }
  }

  // ---- The first statement of a script -----------------------------------------------------------------

  /** The text collected up to the first separator. */
  function Head(cs: Classes, s: string): string
    decreases |s|
  {
    if s == "" || First(cs, s).kind.Boundary? then "" else Text(s, First(cs, s)) + Head(cs, Rest(cs, s))
  }

  predicate HasNext(cs: Classes, s: string)
    decreases |s|
  {
    s != "" && (First(cs, s).kind.Boundary? || HasNext(cs, Rest(cs, s)))
  }

  /** What follows the first separator. */
  function Next(cs: Classes, s: string): (rest: string)
    requires HasNext(cs, s)
    ensures |rest| < |s|
    decreases |s|
  {
    if First(cs, s).kind.Boundary? then Rest(cs, s) else Next(cs, Rest(cs, s))
  }

  lemma {:induction false} RunHead(cs: Classes, s: string, current: string)
    ensures Run(cs, s, current) ==
            Flush(cs, current + Head(cs, s)) + if HasNext(cs, s) then Split(cs, Next(cs, s)) else []
    decreases |s|
  {
    if s == "" {
      assert current + "" == current;
    } else if First(cs, s).kind.Boundary? {
      assert current + "" == current;
    } else {
      var text := Text(s, First(cs, s));
      RunHead(cs, Rest(cs, s), current + text);
      assert current + text + Head(cs, Rest(cs, s)) == current + Head(cs, s);
    }
  }

  // ---- Reading a collected text again -------------------------------------------------------------------

  lemma MatchesShared(s: string, x: string, i: nat, tag: string)
    requires i + |tag| <= |s| && i + |tag| <= |x| && s[..i + |tag|] == x[..i + |tag|]
    ensures MatchesAt(s, i, tag) <==> MatchesAt(x, i, tag)
  {
    assert s[i..i + |tag|] == s[..i + |tag|][i..] && x[i..i + |tag|] == x[..i + |tag|][i..];
  }

  lemma ShorterPrefix(s: string, x: string, m: nat, n: nat)
    requires n <= m <= |s| && m <= |x| && s[..m] == x[..m]
    ensures s[..n] == x[..n]
  {
    assert s[..n] == s[..m][..n] && x[..n] == x[..m][..n];
  }

  /** A match depends only on the text up to its end. */
  lemma {:induction false} FindShared(s: string, x: string, tag: string, i: nat, j: nat)
    requires i <= j < |s| && tag != "" && Find(s, tag, i) == j
    requires j + |tag| <= |x| && s[..j + |tag|] == x[..j + |tag|]
    ensures Find(x, tag, i) == j
    decreases j - i
  {
    ShorterPrefix(s, x, j + |tag|, i + |tag|);
    MatchesShared(s, x, i, tag);
    if i < j {
      FindShared(s, x, tag, i + 1, j);
    }
  }

  lemma {:induction false} NameEndIs(cs: Classes, s: string, i: nat, j: nat)
    requires i <= j < |s| && !cs.Continues(s[j]) && forall k :: i <= k < j ==> cs.Continues(s[k])
    ensures NameEnd(cs, s, i) == j
    decreases j - i
  {
    if i < j {
      NameEndIs(cs, s, i + 1, j);
    }
  }

  /** A tag depends only on its own text. */
  lemma TagShared(cs: Classes, s: string, x: string)
    requires cs.Sane()
    requires var n := TagLen(cs, s); 0 < n <= |x| && s[..n] == x[..n]
    ensures TagLen(cs, x) == TagLen(cs, s)
  {
    var n := TagLen(cs, s);
    assert forall k :: 0 <= k < n ==> s[k] == s[..n][k] == x[k];
    if s[1] != '$' {
      NameEndIs(cs, x, 1, n - 1);
    }
  }

  /** A complete literal or body depends only on its own text. */
  lemma QuotedShared(cs: Classes, s: string, x: string)
    requires cs.Sane() && s != "" && First(cs, s).closed && (First(cs, s).kind.Literal? || First(cs, s).kind.Body?)
    requires First(cs, s).len <= |x| && s[..First(cs, s).len] == x[..First(cs, s).len]
    ensures x != "" && First(cs, x) == First(cs, s)
  {
    var t := First(cs, s);
    assert s[0] == s[..t.len][0] == x[0];
    if t.kind.Literal? {
      FindShared(s, x, "'", 1, t.len - 1);
    } else {
      var n := TagLen(cs, s);
      ShorterPrefix(s, x, t.len, n);
      TagShared(cs, s, x);
      FindShared(s, x, s[..n], n, t.len - n);
    }
  }

  /** A collected text starts as the script does, unless with the space left by a comment. */
  lemma HeadStart(cs: Classes, s: string)
    ensures Head(cs, s) == "" || (s != "" && (Head(cs, s)[0] == ' ' || Head(cs, s)[0] == s[0]))
  {}

  lemma OtherStart(cs: Classes, s: string)
    requires cs.Sane() && s != "" && (cs.Continues(s[0]) || cs.isSpace(s[0]))
    ensures First(cs, s) == Token(Other, 1, true)
  {
    assert |s| >= 2 ==> s[0..2][0] == s[0];
  }

  /** A name followed by `$` in the collected text is one in the script. */
  lemma {:induction false} NameInHead(cs: Classes, s: string)
    requires cs.Sane()
    requires var h := Head(cs, s); var k := NameEnd(cs, h, 0); k < |h| && h[k] == '$'
    ensures var k := NameEnd(cs, Head(cs, s), 0); k < |s| && s[k] == '$' && NameEnd(cs, s, 0) == k
    ensures s != "" && s[0] == Head(cs, s)[0]
    decreases |s|
  {
    var h := Head(cs, s);
    var k := NameEnd(cs, h, 0);
    HeadStart(cs, s);
    if k > 0 {
      OtherStart(cs, s);
      var rest := Rest(cs, s);
      assert h == [s[0]] + Head(cs, rest);
      assert Head(cs, rest) == h[1..] && rest == s[1..];
      NameEndShift(cs, h, 1, 1);
      NameInHead(cs, rest);
      NameEndShift(cs, s, 1, 1);
    }
  }

  /** A single character stays one when what follows has been collected. */
  lemma OtherAgain(cs: Classes, s: string)
    requires cs.Sane() && s != "" && First(cs, s).kind.Other?
    ensures First(cs, Head(cs, s)) == Token(Other, 1, true) && Head(cs, s) == [s[0]] + Head(cs, Rest(cs, s))
  {
    var rest := Rest(cs, s);
    var h := Head(cs, rest);
    var x := [s[0]] + h;
    assert Head(cs, s) == x by {
      assert s[..1] == [s[0]];
    }
    HeadStart(cs, rest);
    if |x| >= 2 {
      assert x[0..2] == [x[0], x[1]];
      assert h[0] != ' ' ==> s[0..2] == [x[0], x[1]];
    }
    NoNewTag(cs, s);
  }

  lemma NoNewTag(cs: Classes, s: string)
    requires cs.Sane() && s != "" && First(cs, s).kind.Other?
    ensures TagLen(cs, [s[0]] + Head(cs, Rest(cs, s))) == 0
  {
    var rest := Rest(cs, s);
    var h := Head(cs, rest);
    var x := [s[0]] + h;
    if TagLen(cs, x) > 0 {
      HeadStart(cs, rest);
      assert rest == s[1..] && h == x[1..];
      if h[0] != '$' {
        NameEndShift(cs, x, 1, 1);
        NameInHead(cs, rest);
        NameEndShift(cs, s, 1, 1);
      }
    }
  }

  /** The collected text of a literal or body is read again as that literal or body. */
  lemma QuotedAgain(cs: Classes, s: string)
    requires cs.Sane() && s != "" && (First(cs, s).kind.Literal? || First(cs, s).kind.Body?)
    ensures var h := Head(cs, s);
            h != "" && First(cs, h) == First(cs, s) && Rest(cs, h) == Head(cs, Rest(cs, s))
  {
    var t := First(cs, s);
    var h := Head(cs, s);
    assert h == s[..t.len] + Head(cs, Rest(cs, s));
    if t.closed {
      assert h[..t.len] == s[..t.len];
      QuotedShared(cs, s, h);
    } else {
      assert h == s;
    }
  }

  /** The text collected for a statement is plain, and complete when a separator ended it. */
  lemma {:induction false} HeadPlain(cs: Classes, s: string)
    requires cs.Sane()
    ensures Plain(cs, Head(cs, s)) && (HasNext(cs, s) ==> Closed(cs, Head(cs, s)))
    decreases |s|
  {
    if s != "" && !First(cs, s).kind.Boundary? {
      HeadPlain(cs, Rest(cs, s));
      HeadFirst(cs, s);
      assert HasNext(cs, s) <==> HasNext(cs, Rest(cs, s));
    }
  }

  /** The collected text starts with a plain token, and goes on with the rest's. */
  lemma HeadFirst(cs: Classes, s: string)
    requires cs.Sane() && s != "" && !First(cs, s).kind.Boundary?
    ensures var h := Head(cs, s);
            && h != "" && !First(cs, h).IsComment() && !First(cs, h).kind.Boundary?
            && Rest(cs, h) == Head(cs, Rest(cs, s))
            && (HasNext(cs, Rest(cs, s)) ==> First(cs, h).closed)
  {
    var t := First(cs, s);
    var h := Head(cs, s);
    if t.IsComment() {
      assert h == " " + Head(cs, Rest(cs, s));
      OtherStart(cs, h);
      assert h[1..] == Head(cs, Rest(cs, s));
    } else if t.kind.Other? {
      OtherAgain(cs, s);
      assert h[1..] == Head(cs, Rest(cs, s));
    } else {
      QuotedAgain(cs, s);
    }
  }

  // ---- Trimming keeps all that ---------------------------------------------------------------------------

  lemma {:induction false} LeftPlain(cs: Classes, s: string)
    requires cs.Sane() && Plain(cs, s)
    ensures Plain(cs, TrimLeft(cs, s)) && (Closed(cs, s) ==> Closed(cs, TrimLeft(cs, s)))
  {
    if s != "" && cs.isSpace(s[0]) {
      OtherStart(cs, s);
      LeftPlain(cs, s[1..]);
    }
  }

  /** Removing white space from the end of an open literal or body leaves it open. */
  lemma OpenShorter(cs: Classes, s: string)
    requires cs.Sane() && s != "" && cs.isSpace(s[|s| - 1]) && !First(cs, s).closed && Plain(cs, s)
    ensures var x := s[..|s| - 1]; x != "" && Plain(cs, x)
  {
    OpenShorterToken(cs, s);
  }

  lemma OpenShorterToken(cs: Classes, s: string)
    requires cs.Sane() && s != "" && cs.isSpace(s[|s| - 1]) && !First(cs, s).closed && Plain(cs, s)
    ensures var x := s[..|s| - 1];
            && First(cs, s).len == |s| && x != "" && First(cs, x) == Token(First(cs, s).kind, |x|, false)
            && Rest(cs, x) == "" && Rest(cs, s) == ""
  {
    var x := s[..|s| - 1];
    var t := First(cs, s);
    assert s == x + [s[|s| - 1]];
    if t.kind.Literal? {
      assert x[0] == '\'';
      StillNone(s, x, "'", 1);
    } else {
      var n := TagLen(cs, s);
      assert n < |s|;
      ShorterPrefix(s, x, |x|, n);
      TagShared(cs, s, x);
      StillNone(s, x, s[..n], n);
    }
    assert First(cs, x) == Token(t.kind, |x|, false);
    assert Rest(cs, x) == "";
  }

  lemma StillNone(s: string, x: string, tag: string, i: nat)
    requires s != "" && x == s[..|s| - 1] && i <= |x| && tag != "" && Find(s, tag, i) == |s|
    ensures Find(x, tag, i) == |x|
  {
    var j := Find(x, tag, i);
    if j < |x| {
      ShorterPrefix(s, x, |x|, j + |tag|);
      FindShared(x, s, tag, i, j);
    }
  }

  /** Without its last character, a text starts with the same token. */
  lemma FirstShorter(cs: Classes, s: string)
    requires cs.Sane() && s != "" && First(cs, s).len < |s| && First(cs, s).closed
    requires !First(cs, s).IsComment() && !First(cs, s).kind.Boundary?
    ensures var x := s[..|s| - 1];
            x != "" && First(cs, x) == First(cs, s) && Rest(cs, x) == Rest(cs, s)[..|Rest(cs, s)| - 1]
  {
    var x := s[..|s| - 1];
    var t := First(cs, s);
    if t.kind.Other? {
      if |x| >= 2 {
        assert x[0..2] == s[0..2];
      }
      if TagLen(cs, x) > 0 {
        ShorterPrefix(s, x, |x|, TagLen(cs, x));
        TagShared(cs, x, s);
      }
    } else {
      ShorterPrefix(s, x, |x|, t.len);
      QuotedShared(cs, s, x);
    }
  }

  lemma {:induction false} PlainShorter(cs: Classes, s: string)
    requires cs.Sane() && Plain(cs, s) && s != "" && cs.isSpace(s[|s| - 1])
    ensures Plain(cs, s[..|s| - 1]) && (Closed(cs, s) ==> Closed(cs, s[..|s| - 1]))
    decreases |s|
  {
    var t := First(cs, s);
    if !t.closed {
      OpenShorter(cs, s);
    } else if t.len < |s| {
      FirstShorter(cs, s);
      PlainShorter(cs, Rest(cs, s));
    } else {
      ClosedEnd(cs, s);
    }
  }

  /** A complete literal or body does not end in white space. */
  lemma ClosedEnd(cs: Classes, s: string)
    requires cs.Sane() && s != "" && First(cs, s).closed && First(cs, s).len == |s| && cs.isSpace(s[|s| - 1])
    requires !First(cs, s).IsComment() && !First(cs, s).kind.Boundary?
    ensures |s| == 1
  {
    var t := First(cs, s);
    if t.kind.Literal? {
      EndOfMatch(s, t.len - 1, "'");
    } else if t.kind.Body? {
      var n := TagLen(cs, s);
      EndOfMatch(s, t.len - n, s[..n]);
    }
  }

  lemma {:induction false} RightPlain(cs: Classes, s: string)
    requires cs.Sane() && Plain(cs, s)
    ensures Plain(cs, TrimRight(cs, s)) && (Closed(cs, s) ==> Closed(cs, TrimRight(cs, s)))
  {
    if s != "" && cs.isSpace(s[|s| - 1]) {
      PlainShorter(cs, s);
      RightPlain(cs, s[..|s| - 1]);
    }
  }

  lemma {:induction false} TrimRightTwice(cs: Classes, s: string)
    ensures TrimRight(cs, TrimRight(cs, s)) == TrimRight(cs, s)
  {
    TrimRightKeeps(cs, s);
  }

  lemma TrimTwice(cs: Classes, s: string)
    ensures Trim(cs, Trim(cs, s)) == Trim(cs, s)
  {
    var left := TrimLeft(cs, s);
    TrimLeftBlank(cs, s);
    TrimRightKeeps(cs, left);
    TrimRightTwice(cs, left);
  }

  // ---- The statements -----------------------------------------------------------------------------------

  /** Trimmed, non-empty, and without comments or separators. */
  predicate IsStatement(cs: Classes, u: string) {
    u != "" && Trim(cs, u) == u && Plain(cs, u)
  }

  /** All are statements; all but the last are complete. */
  predicate AreStatements(cs: Classes, us: seq<string>) {
    us == [] || (IsStatement(cs, us[0]) && (|us| > 1 ==> Closed(cs, us[0])) && AreStatements(cs, us[1..]))
  }

  lemma HeadStatement(cs: Classes, s: string)
    requires cs.Sane() && Trim(cs, Head(cs, s)) != ""
    ensures var u := Trim(cs, Head(cs, s)); IsStatement(cs, u) && (HasNext(cs, s) ==> Closed(cs, u))
  {
    var h := Head(cs, s);
    HeadPlain(cs, s);
    LeftPlain(cs, h);
    RightPlain(cs, TrimLeft(cs, h));
    TrimTwice(cs, h);
  }

  /** Every result of splitting is a list of statements. */
  lemma {:induction false} SplitStatementsOnly(cs: Classes, s: string)
    requires cs.Sane()
    ensures AreStatements(cs, Split(cs, s))
    decreases |s|
  {
    var h := Head(cs, s);
    RunHead(cs, s, "");
    assert "" + h == h;
    var later := if HasNext(cs, s) then Split(cs, Next(cs, s)) else [];
    if HasNext(cs, s) {
      SplitStatementsOnly(cs, Next(cs, s));
    }
    if Trim(cs, h) != "" {
      HeadStatement(cs, s);
      assert Split(cs, s) == [Trim(cs, h)] + later;
    } else {
      assert Split(cs, s) == later;
    }
  }

  function Join(us: seq<string>): string {
    if |us| == 0 then "" else if |us| == 1 then us[0] else us[0] + ";" + Join(us[1..])
  }

  lemma StatementAlone(cs: Classes, u: string)
    requires IsStatement(cs, u)
    ensures Split(cs, u) == [u]
  {
    RunPlain(cs, u, "");
    assert "" + u == u;
  }

  lemma {:induction false} SplitJoined(cs: Classes, us: seq<string>)
    requires cs.Sane() && AreStatements(cs, us)
    ensures Split(cs, Join(us)) == us
  {
    if |us| == 1 {
      StatementAlone(cs, us[0]);
    } else if |us| > 1 {
      StatementAlone(cs, us[0]);
      RunAppend(cs, us[0], Join(us[1..]), "");
      SplitJoined(cs, us[1..]);
    } else {
      TrimBlank(cs, "");
    }
  }

  /** Joining the statements of any script and splitting again gives the same statements. */
  lemma SplitIsStable(cs: Classes, s: string)
    requires cs.Sane()
    ensures Split(cs, Join(Split(cs, s))) == Split(cs, s)
  {
    SplitStatementsOnly(cs, s);
    SplitJoined(cs, Split(cs, s));
  }

  lemma {:induction false} StatementsEach(cs: Classes, us: seq<string>, u: string)
    requires AreStatements(cs, us) && u in us
    ensures IsStatement(cs, u)
  {
    if u != us[0] {
      StatementsEach(cs, us[1..], u);
    }
  }

  /** No statement of a script starts with a comment, so the runner never skips one for that reason. */
  lemma NeverSkipped(cs: Classes, s: string, u: string)
    requires cs.Sane() && u in Split(cs, s)
    ensures u != "" && !MatchesAt(u, 0, "--") && !MatchesAt(u, 0, "/*")
  {
    SplitStatementsOnly(cs, s);
    StatementsEach(cs, Split(cs, s), u);
    assert |u| >= 2 ==> u[0..2][0] == u[0];
  }

  // ---- Literals and bodies -----------------------------------------------------------------------------------

  predicate IsQuoted(t: Token) {
    t.kind.Literal? || t.kind.Body?
  }

  /** The literals and dollar-quoted bodies of a text, in order. */
  function Quoted(cs: Classes, s: string): seq<string>
    decreases |s|
  {
    if s == "" then []
    else (if IsQuoted(First(cs, s)) then [s[..First(cs, s).len]] else []) + Quoted(cs, Rest(cs, s))
  }

  /** The same, with white space taken off the end of one that is still open at the end of the text. */
  function QuotedTrimmed(cs: Classes, s: string): seq<string>
    decreases |s|
  {
    if s == "" then []
    else
      var t := First(cs, s);
      (if !IsQuoted(t) then [] else if t.closed then [s[..t.len]] else [TrimRight(cs, s[..t.len])]) +
      QuotedTrimmed(cs, Rest(cs, s))
  }

  function QuotedIn(cs: Classes, us: seq<string>): seq<string> {
    if us == [] then [] else Quoted(cs, us[0]) + QuotedIn(cs, us[1..])
  }

  /** The text before the first separator, and what follows it. */
  lemma {:induction false} QuotedHead(cs: Classes, s: string)
    requires cs.Sane()
    ensures QuotedTrimmed(cs, s) ==
            QuotedTrimmed(cs, Head(cs, s)) + if HasNext(cs, s) then QuotedTrimmed(cs, Next(cs, s)) else []
    decreases |s|
  {
    if s != "" && !First(cs, s).kind.Boundary? {
      QuotedHead(cs, Rest(cs, s));
      FirstOfHead(cs, s);
      var first := if IsQuoted(First(cs, s)) then QuotedTrimmed(cs, s)[..1] else [];
      Associate(first, QuotedTrimmed(cs, Head(cs, Rest(cs, s))),
                if HasNext(cs, s) then QuotedTrimmed(cs, Next(cs, s)) else []);
    }
  }

  /** What the first token contributes is the same in the script and in the collected text. */
  lemma FirstOfHead(cs: Classes, s: string)
    requires cs.Sane() && s != "" && !First(cs, s).kind.Boundary?
    ensures var first := if IsQuoted(First(cs, s)) then QuotedTrimmed(cs, s)[..1] else [];
            && QuotedTrimmed(cs, s) == first + QuotedTrimmed(cs, Rest(cs, s))
            && QuotedTrimmed(cs, Head(cs, s)) == first + QuotedTrimmed(cs, Head(cs, Rest(cs, s)))
  {
    var t, h := First(cs, s), Head(cs, s);
    if IsQuoted(t) {
      QuotedAgain(cs, s);
      assert h == s[..t.len] + Head(cs, Rest(cs, s));
      assert h[..t.len] == s[..t.len];
    } else {
      HeadFirst(cs, s);
      if t.IsComment() {
        assert h[0] == ' ';
        OtherStart(cs, h);
      } else {
        OtherAgain(cs, s);
      }
    }
  }

  lemma {:induction false} QuotedLeft(cs: Classes, s: string)
    requires cs.Sane()
    ensures QuotedTrimmed(cs, TrimLeft(cs, s)) == QuotedTrimmed(cs, s)
  {
    if s != "" && cs.isSpace(s[0]) {
      OtherStart(cs, s);
      QuotedLeft(cs, s[1..]);
    }
  }

  lemma {:induction false} QuotedShorter(cs: Classes, s: string)
    requires cs.Sane() && Plain(cs, s) && s != "" && cs.isSpace(s[|s| - 1])
    ensures QuotedTrimmed(cs, s[..|s| - 1]) == QuotedTrimmed(cs, s)
    decreases |s|
  {
    var t, x := First(cs, s), s[..|s| - 1];
    if !t.closed {
      OpenShorterToken(cs, s);
      assert s[..|s|] == s && x[..|x|] == x;
    } else if t.len < |s| {
      FirstShorter(cs, s);
      QuotedShorter(cs, Rest(cs, s));
      assert x[..t.len] == s[..t.len];
    } else {
      ClosedEnd(cs, s);
      assert x == "" && Rest(cs, s) == "";
      assert !IsQuoted(t);
    }
  }

  lemma {:induction false} QuotedRight(cs: Classes, s: string)
    requires cs.Sane() && Plain(cs, s)
    ensures QuotedTrimmed(cs, TrimRight(cs, s)) == QuotedTrimmed(cs, s)
  {
    if s != "" && cs.isSpace(s[|s| - 1]) {
      PlainShorter(cs, s);
      QuotedShorter(cs, s);
      QuotedRight(cs, s[..|s| - 1]);
    }
  }

  /** A text without white space at its end has nothing to take off. */
  lemma {:induction false} QuotedWhole(cs: Classes, s: string)
    requires TrimRight(cs, s) == s
    ensures QuotedTrimmed(cs, s) == Quoted(cs, s)
    decreases |s|
  {
    if s != "" {
      var t := First(cs, s);
      TrimRightKeeps(cs, s);
      var rest := Rest(cs, s);
      assert TrimRight(cs, rest) == rest by {
        assert rest != "" ==> rest[|rest| - 1] == s[|s| - 1];
      }
      QuotedWhole(cs, rest);
      if IsQuoted(t) && !t.closed {
        assert s[..t.len] == s;
      }
    }
  }

  lemma QuotedTrim(cs: Classes, s: string)
    requires cs.Sane()
    ensures Quoted(cs, Trim(cs, Head(cs, s))) == QuotedTrimmed(cs, Head(cs, s))
  {
    var h := Head(cs, s);
    HeadPlain(cs, s);
    LeftPlain(cs, h);
    QuotedLeft(cs, h);
    QuotedRight(cs, TrimLeft(cs, h));
    TrimRightTwice(cs, TrimLeft(cs, h));
    QuotedWhole(cs, Trim(cs, h));
  }

  /**
   Literals and bodies come through verbatim: those of the statements, one after the other,
   are those of the script. Only one that is never closed loses the white space at its end.
   */
  lemma {:induction false} QuotedThrough(cs: Classes, s: string)
    requires cs.Sane()
    ensures QuotedIn(cs, Split(cs, s)) == QuotedTrimmed(cs, s)
    decreases |s|
  {
    var h := Head(cs, s);
    RunHead(cs, s, "");
    assert "" + h == h;
    QuotedHead(cs, s);
    QuotedTrim(cs, s);
    var later := if HasNext(cs, s) then Split(cs, Next(cs, s)) else [];
    if HasNext(cs, s) {
      QuotedThrough(cs, Next(cs, s));
    }
    if Trim(cs, h) != "" {
      assert Split(cs, s) == [Trim(cs, h)] + later;
      assert ([Trim(cs, h)] + later)[1..] == later;
    } else {
      assert Split(cs, s) == later;
    }
  }

  /** On complete scripts nothing at all is lost. */
  lemma {:induction false} QuotedComplete(cs: Classes, s: string)
    requires Closed(cs, s)
    ensures QuotedTrimmed(cs, s) == Quoted(cs, s)
    decreases |s|
  {
    if s != "" {
      QuotedComplete(cs, Rest(cs, s));
    }
  }
}
