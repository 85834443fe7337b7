/**
 The three edit distances of the code base: the single-row in-place one of the rename
 heuristic, the two-row swapping one of the suggestions, and the two-row copying one of
 the query checker. All compute the least cost of an edit script.
 */
module EditDistance {

  // ---- The distance, as the best edit script -------------------------------------------------

  datatype Edit<T> = Keep | Replace(with: T) | Insert(what: T) | Delete

  datatype Outcome<T> = Rejected | Result(text: seq<T>)
  {
    function Then(x: T): Outcome<T> {
      match this
      case Rejected => Rejected
      case Result(text) => Result(text + [x])
    }
  }

  function Init<T>(s: seq<T>): seq<T>
    requires s != []
  {
    s[..|s| - 1]
  }

  function Last<T>(s: seq<T>): T
    requires s != []
  {
    s[|s| - 1]
  }

  /** What a script makes of `a`; it must account for every element. */
  function Apply<T>(script: seq<Edit<T>>, a: seq<T>): Outcome<T> {
    if script == [] then
      if a == [] then Result([]) else Rejected
    else
      match Last(script)
      case Keep => if a == [] then Rejected else Apply(Init(script), Init(a)).Then(Last(a))
      case Replace(x) => if a == [] then Rejected else Apply(Init(script), Init(a)).Then(x)
      case Insert(x) => Apply(Init(script), a).Then(x)
      case Delete => if a == [] then Rejected else Apply(Init(script), Init(a))
  }

  /** Every edit but `Keep` costs one. */
  function Cost<T>(script: seq<Edit<T>>): nat {
    if script == [] then 0 else Cost(Init(script)) + if Last(script).Keep? then 0 else 1
  }

  function Min(a: nat, b: nat): nat {
    if a <= b then a else b
  }

  function Dist<T(==)>(a: seq<T>, b: seq<T>): nat {
    if a == [] then |b|
    else if b == [] then |a|
    else Min(Min(Dist(Init(a), b) + 1, Dist(a, Init(b)) + 1),
             Dist(Init(a), Init(b)) + if Last(a) == Last(b) then 0 else 1)
  }

  lemma Extend<T>(script: seq<Edit<T>>, e: Edit<T>)
    ensures Init(script + [e]) == script && Last(script + [e]) == e
    ensures Cost(script + [e]) == Cost(script) + if e.Keep? then 0 else 1
  {}

  lemma ApplyExtended<T>(script: seq<Edit<T>>, e: Edit<T>, a: seq<T>)
    requires e.Insert? || a != []
    ensures Apply(script + [e], a) ==
            if e.Keep? then Apply(script, Init(a)).Then(Last(a))
            else if e.Replace? then Apply(script, Init(a)).Then(e.with)
            else if e.Insert? then Apply(script, a).Then(e.what)
            else Apply(script, Init(a))
  {
    Extend(script, e);
  }

  lemma ThenInsert<T>(rest: seq<Edit<T>>, a: seq<T>, b: seq<T>) returns (script: seq<Edit<T>>)
    requires b != [] && Apply(rest, a) == Result(Init(b))
    ensures Apply(script, a) == Result(b) && Cost(script) == Cost(rest) + 1
  {
    script := rest + [Insert(Last(b))];
    Extend(rest, Insert(Last(b)));
    ApplyExtended(rest, Insert(Last(b)), a);
  }

  lemma ThenDelete<T>(rest: seq<Edit<T>>, a: seq<T>, b: seq<T>) returns (script: seq<Edit<T>>)
    requires a != [] && Apply(rest, Init(a)) == Result(b)
    ensures Apply(script, a) == Result(b) && Cost(script) == Cost(rest) + 1
  {
    script := rest + [Delete];
    Extend(rest, Delete);
    ApplyExtended(rest, Delete, a);
  }

  lemma ThenMatch<T>(rest: seq<Edit<T>>, a: seq<T>, b: seq<T>) returns (script: seq<Edit<T>>)
    requires a != [] && b != [] && Apply(rest, Init(a)) == Result(Init(b))
    ensures Apply(script, a) == Result(b) && Cost(script) == Cost(rest) + if Last(a) == Last(b) then 0 else 1
  {
    var e := if Last(a) == Last(b) then Keep else Replace(Last(b));
    script := rest + [e];
    Extend(rest, e);
    ApplyExtended(rest, e, a);
  }

  /** A script that costs no more than the distance says. */
  lemma {:induction false} BestScript<T>(a: seq<T>, b: seq<T>) returns (script: seq<Edit<T>>)
    ensures Apply(script, a) == Result(b) && Cost(script) == Dist(a, b)
    decreases |a| + |b|
  {
    if a == [] && b == [] {
      script := [];
    } else if a == [] || (b != [] && Dist(a, b) == Dist(a, Init(b)) + 1) {
      script := BestScript(a, Init(b));
      script := ThenInsert(script, a, b);
    } else if b == [] || Dist(a, b) == Dist(Init(a), b) + 1 {
      script := BestScript(Init(a), b);
      script := ThenDelete(script, a, b);
    } else {
      script := BestScript(Init(a), Init(b));
      script := ThenMatch(script, a, b);
    }
  }

  /** No script is cheaper. */
  lemma {:induction false} NoBetterScript<T>(script: seq<Edit<T>>, a: seq<T>, b: seq<T>)
    requires Apply(script, a) == Result(b)
    ensures Cost(script) >= Dist(a, b)
    decreases |script|
  {
    if script != [] {
      match Last(script)
      case Keep =>
        NoBetterScript(Init(script), Init(a), Init(b));
      case Replace(_) =>
        NoBetterScript(Init(script), Init(a), Init(b));
      case Insert(_) =>
        NoBetterScript(Init(script), a, Init(b));
      case Delete =>
        NoBetterScript(Init(script), Init(a), b);
    }
  }

  // ---- It is a metric ----------------------------------------------------------------------------

  lemma {:induction false} DistSymmetric<T>(a: seq<T>, b: seq<T>)
    ensures Dist(a, b) == Dist(b, a)
    decreases |a| + |b|
  {
    if a != [] && b != [] {
      DistSymmetric(Init(a), b);
      DistSymmetric(a, Init(b));
      DistSymmetric(Init(a), Init(b));
    }
  }

  lemma {:induction false} DistZero<T>(a: seq<T>, b: seq<T>)
    ensures Dist(a, b) == 0 <==> a == b
    decreases |a| + |b|
  {
    if a != [] && b != [] {
      assert a == Init(a) + [Last(a)] && b == Init(b) + [Last(b)];
      DistZero(Init(a), Init(b));
    }
  }

  /** Two scripts in a row make one that costs no more. */
  lemma {:induction false} Compose<T>(s: seq<Edit<T>>, t: seq<Edit<T>>, a: seq<T>, b: seq<T>, c: seq<T>) returns (u: seq<Edit<T>>)
    requires Apply(s, a) == Result(b) && Apply(t, b) == Result(c)
    ensures Apply(u, a) == Result(c) && Cost(u) <= Cost(s) + Cost(t)
    decreases |s| + |t|
  {
    if t != [] && Last(t).Insert? {
      var rest := Compose(s, Init(t), a, b, Init(c));
      Extend(rest, Last(t));
      u := rest + [Last(t)];
    } else if s != [] && Last(s).Delete? {
      var rest := Compose(Init(s), t, Init(a), b, c);
      Extend(rest, Last(s));
      u := rest + [Last(s)];
    } else if t == [] {
      u := [];
    } else {
      u := ComposeBoth(s, t, a, b, c);
    }
  }

  /** Both scripts end on the last element of `b`. */
  lemma {:induction false} ComposeBoth<T>(s: seq<Edit<T>>, t: seq<Edit<T>>, a: seq<T>, b: seq<T>, c: seq<T>)
    returns (u: seq<Edit<T>>)
    requires Apply(s, a) == Result(b) && Apply(t, b) == Result(c)
    requires s != [] && t != [] && !Last(t).Insert? && !Last(s).Delete?
    ensures Apply(u, a) == Result(c) && Cost(u) <= Cost(s) + Cost(t)
    decreases |s| + |t|, 0
  {
    var a' := if Last(s).Insert? then a else Init(a);
    var c' := if Last(t).Delete? then c else Init(c);
    var rest := Compose(Init(s), Init(t), a', Init(b), c');
    if Last(s).Insert? && Last(t).Delete? {
      u := rest;
    } else {
      var e := match (Last(s), Last(t))
        case (_, Delete) => Delete
        case (Insert(x), Keep) => Insert(x)
        case (Insert(_), Replace(y)) => Insert(y)
        case (first, Keep) => first
        case (_, second) => second;
      Extend(rest, e);
      u := rest + [e];
    }
  }

  lemma Triangle<T>(a: seq<T>, b: seq<T>, c: seq<T>)
    ensures Dist(a, c) <= Dist(a, b) + Dist(b, c)
  {
    var s := BestScript(a, b);
    var t := BestScript(b, c);
    var u := Compose(s, t, a, b, c);
    NoBetterScript(u, a, c);
  }

  // ---- The tables ----------------------------------------------------------------------------------

  /** One more element changes the distance by at most one. */
  lemma Neighbours<T>(a: seq<T>, b: seq<T>)
    requires a != []
    ensures Dist(Init(a), b) <= Dist(a, b) + 1 && Dist(a, b) <= Dist(Init(a), b) + 1
  {
    DistZero(Init(a), Init(a));
    DistSymmetric(Init(a), a);
    assert Dist(a, Init(a)) <= 1;
    Triangle(Init(a), a, b);
    Triangle(a, Init(a), b);
  }

  /** On equal last elements nothing beats keeping them. */
  lemma EqualEnds<T>(a: seq<T>, b: seq<T>)
    requires a != [] && b != [] && Last(a) == Last(b)
    ensures Dist(a, b) == Dist(Init(a), Init(b))
  {
    Neighbours(b, Init(a));
    Neighbours(a, Init(b));
    DistSymmetric(Init(b), Init(a));
    DistSymmetric(b, Init(a));
  }

  /** Cell (i, j) of the table. */
  function Cell<T(==)>(a: seq<T>, b: seq<T>, i: nat, j: nat): nat
    requires i <= |a| && j <= |b|
  {
    Dist(a[..i], b[..j])
  }

  lemma CellBorder<T>(a: seq<T>, b: seq<T>, k: nat)
    ensures k <= |b| ==> Cell(a, b, 0, k) == k
    ensures k <= |a| ==> Cell(a, b, k, 0) == k
  {}

  lemma CellStep<T>(a: seq<T>, b: seq<T>, i: nat, j: nat)
    requires i < |a| && j < |b|
    ensures Cell(a, b, i + 1, j + 1) ==
            Min(Min(Cell(a, b, i, j + 1) + 1, Cell(a, b, i + 1, j) + 1), Cell(a, b, i, j) + if a[i] == b[j] then 0 else 1)
    ensures a[i] == b[j] ==> Cell(a, b, i + 1, j + 1) == Cell(a, b, i, j)
  {
    var p, q := a[..i + 1], b[..j + 1];
    assert Init(p) == a[..i] && Init(q) == b[..j];
    if a[i] == b[j] {
      EqualEnds(p, q);
    }
  }

  lemma CellLast<T>(a: seq<T>, b: seq<T>)
    ensures Cell(a, b, |a|, |b|) == Dist(a, b)
  {
    assert a[..|a|] == a && b[..|b|] == b;
  }

  /** `row` is row `i` of the table. */
  ghost predicate IsRow<T>(a: seq<T>, b: seq<T>, i: nat, row: array<nat>)
    requires i <= |a|
    reads row
  {
    row.Length == |b| + 1 && forall j :: 0 <= j <= |b| ==> row[j] == Cell(a, b, i, j)
  }

  /** One row overwritten by the next: `diagonal` remembers the cell that was just lost. */
  method OverwriteRow(left: string, right: string, i: nat, row: array<nat>)
    requires i < |left| && IsRow(left, right, i, row)
    modifies row
    ensures IsRow(left, right, i + 1, row)
  {
    var n := |right|;
    var diagonal := row[0];
    row[0] := i + 1;
    CellBorder(left, right, i + 1);
    CellBorder(left, right, i);
    for j := 0 to n
      invariant forall k :: 0 <= k <= j ==> row[k] == Cell(left, right, i + 1, k)
      invariant forall k :: j < k <= n ==> row[k] == Cell(left, right, i, k)
      invariant diagonal == Cell(left, right, i, j)
    {
      CellStep(left, right, i, j);
      var above := row[j + 1];
      row[j + 1] := if left[i] == right[j] then diagonal else 1 + Min(Min(diagonal, above), row[j]);
      diagonal := above;
    }
  }

  /** `levenshtein` of the rename heuristic: one row, overwritten in place. */
  method SingleRow(left: string, right: string) returns (d: nat)
    ensures d == Dist(left, right)
  {
    var row := new nat[|right| + 1](j => j);
    forall j | 0 <= j <= |right| ensures row[j] == Cell(left, right, 0, j) { CellBorder(left, right, j); }
    for i := 0 to |left|
      invariant IsRow(left, right, i, row)
    {
      OverwriteRow(left, right, i, row);
    }
    CellLast(left, right);
    d := row[|right|];
  }

  /** Lower-casing, character by character; one character may become several. */
  function Lowered(lower: char -> string, s: string): string {
    if s == "" then "" else Lowered(lower, s[..|s| - 1]) + lower(s[|s| - 1])
  }

  /** It lowers each character by itself, in order. */
  lemma {:induction false} LoweredParts(lower: char -> string, s: string, t: string)
    ensures Lowered(lower, s + t) == Lowered(lower, s) + Lowered(lower, t)
  {
    if t == "" {
      assert s + t == s;
    } else {
      var init, last := t[..|t| - 1], t[|t| - 1];
      LoweredParts(lower, s, init);
      LoweredLast(lower, s + init, last);
      LoweredLast(lower, init, last);
      assert init + [last] == t && s + init + [last] == s + t;
      Regroup(Lowered(lower, s), Lowered(lower, init), lower(last));
    }
  }

  lemma LoweredLast(lower: char -> string, s: string, c: char)
    ensures Lowered(lower, s + [c]) == Lowered(lower, s) + lower(c)
  {
    assert (s + [c])[..|s|] == s;
  }

  lemma Regroup(x: string, y: string, z: string)
    ensures x + y + z == x + (y + z)
  {}

  /** The next row from the row above it. */
  method NextRow(a: string, b: string, i: nat, prev: array<nat>, curr: array<nat>)
    requires i < |a| && prev != curr && IsRow(a, b, i, prev) && curr.Length == |b| + 1
    modifies curr
    ensures IsRow(a, b, i + 1, curr)
  {
    curr[0] := i + 1;
    CellBorder(a, b, i + 1);
    for j := 0 to |b|
      invariant forall k :: 0 <= k <= j ==> curr[k] == Cell(a, b, i + 1, k)
    {
      CellStep(a, b, i, j);
      var cost := if a[i] != b[j] then 1 else 0;
      curr[j + 1] := Min(Min(prev[j + 1] + 1, curr[j] + 1), prev[j] + cost);
    }
  }

  /** `distance` of the suggestions: two rows that trade places. */
  method TwoRowsSwapped(lower: char -> string, left: string, right: string) returns (d: nat)
    ensures d == Dist(Lowered(lower, left), Lowered(lower, right))
  {
    var a, b := Lowered(lower, left), Lowered(lower, right);
    if a == "" {
      return |b|;
    }
    if b == "" {
      return |a|;
    }
    var prev, curr := new nat[|b| + 1](j => j), new nat[|b| + 1](_ => 0);
    forall j | 0 <= j <= |b| ensures prev[j] == Cell(a, b, 0, j) { CellBorder(a, b, j); }
    for i := 0 to |a|
      invariant prev != curr && curr.Length == |b| + 1 && fresh(prev) && fresh(curr)
      invariant IsRow(a, b, i, prev)
    {
      NextRow(a, b, i, prev, curr);
      prev, curr := curr, prev;
    }
    CellLast(a, b);
    d := prev[|b|];
  }

  function AsciiLower(c: char): char {
    if 'A' <= c <= 'Z' then c - 'A' + 'a' else c
  }

  function AsciiLowered(s: string): string {
    seq(|s|, i requires 0 <= i < |s| => AsciiLower(s[i]))
  }

  predicate EqIgnoreAsciiCase(x: char, y: char) {
    AsciiLower(x) == AsciiLower(y)
  }

  /** They are the same, or the same letter of the ASCII alphabet, one in upper and one in lower case. */
  lemma SameLetter(x: char, y: char)
    ensures EqIgnoreAsciiCase(x, y) <==>
              || x == y
              || ('A' <= x <= 'Z' && y as int == x as int + 32)
              || ('A' <= y <= 'Z' && x as int == y as int + 32)
  {}

  /** The next row, comparing characters without regard to ASCII case. */
  method NextRowIgnoringCase(left: string, right: string, i: nat, prevRow: array<nat>, currRow: array<nat>)
    requires i < |left| && prevRow != currRow && IsRow(AsciiLowered(left), AsciiLowered(right), i, prevRow)
    requires currRow.Length == |right| + 1
    modifies currRow
    ensures IsRow(AsciiLowered(left), AsciiLowered(right), i + 1, currRow)
  {
    ghost var a, b := AsciiLowered(left), AsciiLowered(right);
    currRow[0] := i + 1;
    CellBorder(a, b, i + 1);
    for j := 0 to |right|
      invariant forall k :: 0 <= k <= j ==> currRow[k] == Cell(a, b, i + 1, k)
    {
      CellStep(a, b, i, j);
      var cost := if EqIgnoreAsciiCase(left[i], right[j]) then 0 else 1;
      currRow[j + 1] := Min(Min(currRow[j] + 1, prevRow[j + 1] + 1), prevRow[j] + cost);
    }
  }

  /** `levenshtein` of the query checker: two rows, the second copied over the first. */
  method TwoRowsCopied(left: string, right: string) returns (d: nat)
    ensures d == Dist(AsciiLowered(left), AsciiLowered(right))
  {
    ghost var a, b := AsciiLowered(left), AsciiLowered(right);
    var m, n := |left|, |right|;
    if m == 0 {
      return n;
    }
    if n == 0 {
      return m;
    }
    var prevRow, currRow := new nat[n + 1](j => j), new nat[n + 1](_ => 0);
    forall j | 0 <= j <= n ensures prevRow[j] == Cell(a, b, 0, j) { CellBorder(a, b, j); }
    for i := 0 to m
      invariant IsRow(a, b, i, prevRow)
      invariant i > 0 ==> IsRow(a, b, i, currRow)
    {
      NextRowIgnoringCase(left, right, i, prevRow, currRow);
      forall k | 0 <= k <= n {
        prevRow[k] := currRow[k];
      }
    }
    CellLast(a, b);
    d := currRow[n];
  }

  /** `find_best_match`: the first of the nearest options, if it is within three edits. */
  method FindBestMatch(candidate: string, options: seq<string>) returns (found: bool, best: nat)
    ensures found <==> exists i :: 0 <= i < |options| && Dist(AsciiLowered(candidate), AsciiLowered(options[i])) <= 3
    ensures found ==> best < |options|
    ensures found ==> forall i :: 0 <= i < |options| ==>
              Dist(AsciiLowered(candidate), AsciiLowered(options[best])) <= Dist(AsciiLowered(candidate), AsciiLowered(options[i]))
    ensures found ==> forall i :: 0 <= i < best ==>
              Dist(AsciiLowered(candidate), AsciiLowered(options[best])) < Dist(AsciiLowered(candidate), AsciiLowered(options[i]))
  {
    ghost var wanted := AsciiLowered(candidate);
    found, best := false, 0;
    var bestDist := 0;
    for i := 0 to |options|
      invariant found ==> best < i && bestDist == Dist(wanted, AsciiLowered(options[best])) <= 3
      invariant forall k :: 0 <= k < i ==>
                  if found then bestDist <= Dist(wanted, AsciiLowered(options[k])) else Dist(wanted, AsciiLowered(options[k])) > 3
      invariant found ==> forall k :: 0 <= k < best ==> bestDist < Dist(wanted, AsciiLowered(options[k]))
    {
      var dist := TwoRowsCopied(candidate, options[i]);
      if dist <= 3 && (!found || dist < bestDist) {
        found, best, bestDist := true, i, dist;
      }
    }
  }

  lemma {:induction false} LoweredKeeps(lower: char -> string, s: string)
    requires forall c :: c in s ==> lower(c) == [c] && AsciiLower(c) == c
    ensures Lowered(lower, s) == s && AsciiLowered(s) == s
  {
    if s != "" {
      var init := s[..|s| - 1];
      assert s == init + [s[|s| - 1]];
      assert s[|s| - 1] in s;
      LoweredKeeps(lower, init);
    }
  }

  /** On text that lower-casing leaves alone, the three distances agree. */
  lemma DistancesAgree(lower: char -> string, a: string, b: string)
    requires forall c :: c in a || c in b ==> lower(c) == [c] && AsciiLower(c) == c
    ensures Dist(Lowered(lower, a), Lowered(lower, b)) == Dist(a, b) == Dist(AsciiLowered(a), AsciiLowered(b))
  {
    LoweredKeeps(lower, a);
    LoweredKeeps(lower, b);
  }
}
