/**
 What splitting a script into statements promises: joining scripts joins their statements,
 and splitting the joined statements again changes nothing.
 */
module SplitLaws {
  import opened Splitter

  // ---- Joining two scripts -------------------------------------------------------------------------

  /** Scanning `s` ends outside any literal, body or comment: every token is complete. */
  predicate Closed(cs: Classes, s: string)
    decreases |s|
  {
    s == "" || (First(cs, s).closed && Closed(cs, s[First(cs, s).len..]))
  }

  lemma MatchesPrefix(a: string, z: string, tag: string, i: nat)
    requires i + |tag| <= |a|
    ensures MatchesAt(a + z, i, tag) <==> MatchesAt(a, i, tag)
  {
    assert (a + z)[i..i + |tag|] == a[i..i + |tag|];
  }

  /** What is found in a prefix is found in the whole. */
  lemma FindPrefix(a: string, z: string, tag: string, i: nat)
    requires i <= |a| && tag != "" && Find(a, tag, i) < |a|
    ensures Find(a + z, tag, i) == Find(a, tag, i)
    decreases |a| - i
  {
    MatchesPrefix(a, z, tag, Find(a, tag, i));
    NoneBefore(a, z, tag, i, Find(a, tag, i));
  }

  lemma NoneBefore(a: string, z: string, tag: string, i: nat, j: nat)
    requires i <= j <= |a| && tag != "" && Find(a, tag, i) == j && j < |a|
    ensures Find(a + z, tag, i) == j
    decreases j - i
  {
    MatchesPrefix(a, z, tag, j);
    if i < j {
      NoneBefore(a, z, tag, i + 1, j);
      assert !MatchesAt(a, i, tag);
      if i + |tag| <= |a| {
        MatchesPrefix(a, z, tag, i);
      }
    }
  }

  /** A text without `tag` does not get one from a `z` that lacks the end of `tag`. */
  lemma FindNothing(a: string, z: string, tag: string, i: nat)
    requires i <= |a| && tag != "" && Find(a, tag, i) == |a| && tag[|tag| - 1] !in z
    ensures Find(a + z, tag, i) == |a + z|
  {
    var j := Find(a + z, tag, i);
    if j < |a + z| {
      EndOfMatch(a + z, j, tag);
      if j + |tag| <= |a| {
        MatchesPrefix(a, z, tag, j);
      }
    }
  }

  lemma EndOfMatch(s: string, i: nat, tag: string)
    requires tag != "" && MatchesAt(s, i, tag)
    ensures s[i + |tag| - 1] == tag[|tag| - 1]
  {
    assert s[i..i + |tag|][|tag| - 1] == s[i + |tag| - 1];
  }

  lemma {:induction false} NameEndPrefix(cs: Classes, a: string, z: string, i: nat)
    requires i <= |a| && (z == "" || !cs.Continues(z[0]))
    ensures NameEnd(cs, a + z, i) == NameEnd(cs, a, i)
    decreases |a| - i
  {
    if i < |a| && cs.Continues(a[i]) {
      NameEndPrefix(cs, a, z, i + 1);
    }
  }

  /** What may follow a text without being drawn into its last tokens. */
  predicate Inert(cs: Classes, z: string) {
    z == "" || (!cs.Continues(z[0]) && z[0] !in "'$-*")
  }

  /** A tag is not made or broken by what follows. */
  lemma TagPrefix(cs: Classes, a: string, z: string)
    requires a != "" && Inert(cs, z)
    ensures TagLen(cs, a + z) == TagLen(cs, a)
  {
    if |a| >= 2 {
      NameEndPrefix(cs, a, z, 1);
    } else if z != "" {
      assert (a + z)[1] == z[0];
    }
  }

  lemma CommentPrefix(a: string, z: string, tag: string, cs: Classes)
    requires a != "" && Inert(cs, z) && (tag == "--" || tag == "/*")
    ensures MatchesAt(a + z, 0, tag) <==> MatchesAt(a, 0, tag)
  {
    if |a| >= 2 {
      MatchesPrefix(a, z, tag, 0);
    } else if z != "" {
      assert (a + z)[0..2] == [a[0], z[0]];
    }
  }

  /** A complete literal or body is not affected by what follows. */
  lemma QuotedPrefix(cs: Classes, a: string, z: string)
    requires a != "" && First(cs, a).closed && (First(cs, a).kind.Literal? || First(cs, a).kind.Body?)
    requires TagLen(cs, a + z) == TagLen(cs, a)
    ensures First(cs, a + z) == First(cs, a)
  {
    if First(cs, a).kind.Literal? {
      FindPrefix(a, z, "'", 1);
    } else {
      var n := TagLen(cs, a);
      assert (a + z)[..n] == a[..n];
      FindPrefix(a, z, a[..n], n);
    }
  }

  /** A complete token is not affected by what follows. */
  lemma FirstPrefix(cs: Classes, a: string, z: string)
    requires a != "" && First(cs, a).closed && Inert(cs, z)
    ensures First(cs, a + z) == First(cs, a)
    ensures Text(a + z, First(cs, a)) == Text(a, First(cs, a))
    ensures (a + z)[First(cs, a).len..] == a[First(cs, a).len..] + z
  {
    TagPrefix(cs, a, z);
    CommentPrefix(a, z, "--", cs);
    CommentPrefix(a, z, "/*", cs);
    var t := First(cs, a);
    assert (a + z)[..t.len] == a[..t.len];
    match t.kind
    case LineComment => FindPrefix(a, z, "\n", 2);
    case BlockComment => FindPrefix(a, z, "*/", 2);
    case Boundary =>
    case Other =>
    case _ => QuotedPrefix(cs, a, z);
  }

  function Rest(cs: Classes, s: string): string
    requires s != ""
  {
    s[First(cs, s).len..]
  }

  /** What has been collected after the first token of `s`. */
  function Collected(cs: Classes, s: string, current: string): string
    requires s != ""
  {
    if First(cs, s).kind.Boundary? then "" else current + Text(s, First(cs, s))
  }

  function Done(cs: Classes, s: string, current: string): seq<string>
    requires s != ""
  {
    if First(cs, s).kind.Boundary? then Flush(cs, current) else []
  }

  lemma RunFirst(cs: Classes, s: string, current: string)
    requires s != ""
    ensures Run(cs, s, current) == Done(cs, s, current) + Run(cs, Rest(cs, s), Collected(cs, s, current))
  {}

  /** Running past a complete token leaves what follows to be run. */
  lemma RunPrefix(cs: Classes, a: string, b: string, current: string)
    requires cs.Sane() && a != "" && First(cs, a).closed
    ensures Run(cs, a + ";" + b, current) ==
            Done(cs, a, current) + Run(cs, Rest(cs, a) + ";" + b, Collected(cs, a, current))
  {
    var z := ";" + b;
    FirstPrefix(cs, a, z);
    RunFirst(cs, a + z, current);
    assert a + ";" + b == a + z && Rest(cs, a) + ";" + b == Rest(cs, a) + z;
  }

  lemma RunSeparator(cs: Classes, b: string, current: string)
    requires cs.Sane()
    ensures Run(cs, "" + ";" + b, current) == Flush(cs, current) + Split(cs, b)
  {
    var z := ";" + b;
    assert "" + ";" + b == z && z[1..] == b;
    if |z| >= 2 {
      assert z[0..2][0] == ';';
    }
    assert First(cs, z) == Token(Boundary, 1, true);
  }

  lemma {:induction false} RunAppend(cs: Classes, a: string, b: string, current: string)
    requires cs.Sane() && Closed(cs, a)
    ensures Run(cs, a + ";" + b, current) == Run(cs, a, current) + Split(cs, b)
    decreases |a|
  {
    if a == "" {
      RunSeparator(cs, b, current);
    } else {
      RunPrefix(cs, a, b, current);
      RunFirst(cs, a, current);
      RunAppend(cs, Rest(cs, a), b, Collected(cs, a, current));
      Associate(Done(cs, a, current), Run(cs, Rest(cs, a), Collected(cs, a, current)), Split(cs, b));
    }
  }

  lemma Associate<T>(x: seq<T>, y: seq<T>, z: seq<T>)
    ensures (x + y) + z == x + (y + z)
  {}

  // ---- When joining does not work --------------------------------------------------------------------

  predicate Blank(cs: Classes, s: string) {
    forall c :: c in s ==> cs.isSpace(c)
  }

  lemma {:induction false} TrimLeftBlank(cs: Classes, s: string)
    ensures TrimLeft(cs, s) == "" <==> Blank(cs, s)
    ensures TrimLeft(cs, s) != "" ==> !cs.isSpace(TrimLeft(cs, s)[0])
  {
    if s != "" {
      TrimLeftBlank(cs, s[1..]);
      assert s == [s[0]] + s[1..];
    }
  }

  lemma {:induction false} TrimRightKeeps(cs: Classes, s: string)
    ensures TrimRight(cs, s) <= s
    ensures s != "" && !cs.isSpace(s[0]) ==> TrimRight(cs, s) != ""
    ensures TrimRight(cs, s) != "" ==> !cs.isSpace(TrimRight(cs, s)[|TrimRight(cs, s)| - 1])
  {
    if s != "" && cs.isSpace(s[|s| - 1]) {
      TrimRightKeeps(cs, s[..|s| - 1]);
    }
  }

  lemma TrimBlank(cs: Classes, s: string)
    ensures Trim(cs, s) == "" <==> Blank(cs, s)
  {
    TrimLeftBlank(cs, s);
    TrimRightKeeps(cs, TrimLeft(cs, s));
  }

  lemma {:induction false} TrimLeftAppend(cs: Classes, s: string, c: char)
    requires !cs.isSpace(c)
    ensures TrimLeft(cs, s + [c]) == TrimLeft(cs, s) + [c]
  {
    if s != "" {
      assert (s + [c])[1..] == s[1..] + [c];
      TrimLeftAppend(cs, s[1..], c);
    }
  }

  /** A text that ends in something solid is trimmed to something longer than without it. */
  lemma TrimGrows(cs: Classes, s: string, c: char)
    requires !cs.isSpace(c)
    ensures Flush(cs, s + [c]) != Flush(cs, s)
  {
    TrimLeftAppend(cs, s, c);
    var left := TrimLeft(cs, s);
    assert TrimRight(cs, left + [c]) == left + [c];
    TrimRightKeeps(cs, left);
  }

  /** What has been collected is never lost. */
  lemma {:induction false} RunKeeps(cs: Classes, s: string, current: string)
    ensures |Run(cs, s, current)| >= |Flush(cs, current)|
    decreases |s|
  {
    if s != "" {
      var t := First(cs, s);
      if !t.kind.Boundary? {
        RunKeeps(cs, s[t.len..], current + Text(s, t));
        TrimBlank(cs, current);
        TrimBlank(cs, current + Text(s, t));
        assert forall c :: c in current ==> c in current + Text(s, t);
      }
    }
  }

  /** A text that runs on to the end is one token. */
  lemma RunWhole(cs: Classes, s: string, current: string)
    requires s != "" && First(cs, s).len == |s| && !First(cs, s).kind.Boundary?
    ensures Run(cs, s, current) == Flush(cs, current + Text(s, First(cs, s)))
    ensures !First(cs, s).IsComment() ==> Text(s, First(cs, s)) == s
  {
    assert s[|s|..] == "" && s[..|s|] == s;
  }

  lemma QuoteAlone(cs: Classes, s: string)
    requires cs.Sane() && s != "" && s[0] == '\'' && Find(s, "'", 1) == |s|
    ensures |Split(cs, s)| == 1
  {
    RunWhole(cs, s, "");
    assert "" + s == s;
    assert s[0] in s;
    TrimBlank(cs, s);
  }

  /** An open literal or body swallows the separator. */
  lemma OpenQuoted(cs: Classes, a: string, current: string)
    requires cs.Sane() && a != "" && !First(cs, a).closed && (First(cs, a).kind.Literal? || First(cs, a).kind.Body?)
    ensures Run(cs, a + ";" + "", current) != Run(cs, a, current) + Split(cs, "")
  {
    assert a + ";" + "" == a + ";";
    TagPrefix(cs, a, ";");
    if First(cs, a).kind.Literal? {
      FindNothing(a, ";", "'", 1);
    } else {
      var n := TagLen(cs, a);
      assert (a + ";")[..n] == a[..n];
      FindNothing(a, ";", a[..n], n);
    }
    RunWhole(cs, a, current);
    RunWhole(cs, a + ";", current);
    assert current + (a + ";") == (current + a) + ";";
    TrimGrows(cs, current + a, ';');
    TrimBlank(cs, "");
  }

  /** An open line comment swallows the next script. */
  lemma OpenLine(cs: Classes, a: string, current: string)
    requires cs.Sane() && a != "" && !First(cs, a).closed && First(cs, a).kind.LineComment?
    ensures Run(cs, a + ";" + "'", current) != Run(cs, a, current) + Split(cs, "'")
  {
    assert a + ";" + "'" == a + ";'";
    TagPrefix(cs, a, ";'");
    CommentPrefix(a, ";'", "--", cs);
    FindNothing(a, ";'", "\n", 2);
    assert First(cs, a + ";'") == Token(LineComment, |a| + 2, false);
    RunWhole(cs, a, current);
    RunWhole(cs, a + ";'", current);
    QuoteAlone(cs, "'");
    assert |Run(cs, a, current) + Split(cs, "'")| == |Run(cs, a + ";'", current)| + 1;
  }

  /** An open block comment runs on to the next end of one. */
  lemma OpenBlock(cs: Classes, a: string, current: string)
    requires cs.Sane() && a != "" && !First(cs, a).closed && First(cs, a).kind.BlockComment?
    ensures Run(cs, a + ";" + "'*/", current) != Run(cs, a, current) + Split(cs, "'*/")
  {
    var z := ";'*/";
    assert a + ";" + "'*/" == a + z;
    TagPrefix(cs, a, z);
    CommentPrefix(a, z, "--", cs);
    CommentPrefix(a, z, "/*", cs);
    BlockEnd(a, z);
    assert First(cs, a + z) == Token(BlockComment, |a| + 4, true);
    RunWhole(cs, a + z, current);
    var t := First(cs, a);
    RunKeeps(cs, a[t.len..], current + " ");
    QuoteAlone(cs, "'*/");
    assert |Run(cs, a, current) + Split(cs, "'*/")| > |Run(cs, a + z, current)|;
  }

  lemma {:induction false} FirstMatch(s: string, tag: string, i: nat, j: nat)
    requires i <= j <= |s| && tag != "" && MatchesAt(s, j, tag)
    requires forall k :: i <= k < j ==> !MatchesAt(s, k, tag)
    ensures Find(s, tag, i) == j
    decreases j - i
  {
    if i < j {
      FirstMatch(s, tag, i + 1, j);
    }
  }

  lemma BlockEnd(a: string, z: string)
    requires |a| >= 2 && Find(a, "*/", 2) == |a| && z == ";'*/"
    ensures Find(a + z, "*/", 2) == |a| + 2
  {
    var s := a + z;
    assert s[|a| + 2..|a| + 4] == "*/";
    forall k | 2 <= k < |a| + 2 ensures !MatchesAt(s, k, "*/") {
      if k + 2 <= |a| {
        MatchesPrefix(a, z, "*/", k);
      } else {
        assert s[k + 1] == z[k + 1 - |a|];
        assert k + 2 <= |s| && s[k..k + 2][1] == s[k + 1];
      }
    }
    FirstMatch(s, "*/", 2, |a| + 2);
  }

  /** A script that stays open is joined wrongly with some other script. */
  lemma {:induction false} OpenDiffers(cs: Classes, a: string, current: string) returns (b: string)
    requires cs.Sane() && !Closed(cs, a)
    ensures Run(cs, a + ";" + b, current) != Run(cs, a, current) + Split(cs, b)
    decreases |a|
  {
    var t := First(cs, a);
    if !t.closed {
      match t.kind
      case LineComment =>
        OpenLine(cs, a, current);
        b := "'";
      case BlockComment =>
        OpenBlock(cs, a, current);
        b := "'*/";
      case _ =>
        OpenQuoted(cs, a, current);
        b := "";
    } else {
      var after := Collected(cs, a, current);
      b := OpenDiffers(cs, Rest(cs, a), after);
      RunPrefix(cs, a, b, current);
      RunFirst(cs, a, current);
      var x, y := Run(cs, Rest(cs, a) + ";" + b, after), Run(cs, Rest(cs, a), after);
      Associate(Done(cs, a, current), y, Split(cs, b));
      CancelPrefix(Done(cs, a, current), x, y + Split(cs, b));
    }
  }

  lemma CancelPrefix<T>(p: seq<T>, x: seq<T>, y: seq<T>)
    ensures p + x == p + y ==> x == y
  {
    assert (p + x)[|p|..] == x && (p + y)[|p|..] == y;
  }

  /**
   Splitting is a homomorphism at top level: joining with `;` joins the statements, for
   every script that may follow, if and only if scanning `a` ends outside any token.
   */
  lemma JoiningJoins(cs: Classes, a: string)
    requires cs.Sane()
    ensures (forall b :: Split(cs, a + ";" + b) == Split(cs, a) + Split(cs, b)) <==> Closed(cs, a)
  {
    if Closed(cs, a) {
      forall b ensures Split(cs, a + ";" + b) == Split(cs, a) + Split(cs, b) {
        RunAppend(cs, a, b, "");
      }
    } else {
      var b := OpenDiffers(cs, a, "");
    }
  }

  // ---- An unfinished comment ---------------------------------------------------------------------------

  lemma LoneText(cs: Classes, c: char)
    requires cs.Sane() && !cs.isSpace(c) && c != ';'
    ensures Run(cs, [c], " ") == [[c]]
  {
    assert First(cs, [c]).len == 1 && !First(cs, [c]).kind.Boundary? && !First(cs, [c]).IsComment();
    RunWhole(cs, [c], " ");
    assert " " + [c] == [' ', c] && [' ', c][1..] == [c];
    assert TrimLeft(cs, [' ', c]) == [c];
  }

  lemma CommentRunsOut(cs: Classes, s: string)
    requires |s| > 2 && s[0] == '/' && s[1] == '*' && Find(s, "*/", 2) == |s|
    ensures First(cs, s) == Token(BlockComment, |s| - 1, false)
  {
    assert s[0..2] == "/*";
  }

  /** Whatever the comment says, its last character is a statement. */
  lemma UnfinishedComment(cs: Classes, text: string, c: char)
    requires cs.Sane() && !cs.isSpace(c) && c != ';'
    requires Find("/*" + text + [c], "*/", 2) == |text| + 3
    ensures Split(cs, "/*" + text + [c]) == [[c]]
  {
    var s := "/*" + text + [c];
    assert s[|s| - 1..] == [c];
    CommentRunsOut(cs, s);
    LoneText(cs, c);
    assert "" + " " == " ";
  }
}
