/** The flag suggester of bin/atlas.js: a matrix edit distance and a nearest-candidate scan. */
module EditDistance {
  import opened Prelude
  import opened Integers

  function Mismatch(x: char, y: char): nat {
    if x == y then 0 else 1
  }

  /** Edit distance between the first `i` characters of `a` and the first `j` of `b`: one matrix cell. */
  function Cell(a: string, b: string, i: nat, j: nat): nat
    requires i <= |a| && j <= |b|
  {
    if i == 0 then j
    else if j == 0 then i
    else Min(Cell(a, b, i - 1, j) + 1,
             Min(Cell(a, b, i, j - 1) + 1, Cell(a, b, i - 1, j - 1) + Mismatch(a[i - 1], b[j - 1])))
  }

  function Lev(a: string, b: string): nat {
    Cell(a, b, |a|, |b|)
  }

  method Distance(a: string, b: string) returns (d: nat)
    ensures d == Lev(a, b)
  {
    hide Mismatch;
    var rows := new nat[|a| + 1, |b| + 1]((i, j) => if j == 0 then i else 0);
    for j := 0 to |b| + 1
      invariant forall k :: 0 <= k < j ==> rows[0, k] == k
      invariant forall i :: 0 < i <= |a| ==> rows[i, 0] == i
    {
      rows[0, j] := j;
    }
    for i := 1 to |a| + 1
      invariant forall k, l {:trigger rows[k, l]} :: 0 <= k < i && 0 <= l <= |b| ==> rows[k, l] == Cell(a, b, k, l)
      invariant forall k :: 0 < k <= |a| ==> rows[k, 0] == k
    {
      for j := 1 to |b| + 1
        invariant forall k, l {:trigger rows[k, l]} :: 0 <= k < i && 0 <= l <= |b| ==> rows[k, l] == Cell(a, b, k, l)
        invariant forall l {:trigger rows[i, l]} :: 0 <= l < j ==> rows[i, l] == Cell(a, b, i, l)
        invariant forall k :: 0 < k <= |a| ==> rows[k, 0] == k
      {
        rows[i, j] := Min(rows[i - 1, j] + 1,
                          Min(rows[i, j - 1] + 1, rows[i - 1, j - 1] + Mismatch(a[i - 1], b[j - 1])));
      }
    }
    d := rows[|a|, |b|];
  }

  /** The suggestion threshold: at most 3, and less for a short input. */
  function Threshold(input: string): nat {
    Min(3, if |input| >= 2 then |input| - 1 else 1)
  }

  /** Close enough to suggest: within three edits, and within fewer than the input has characters unless
      within one. */
  ghost predicate Close(input: string, candidate: string) {
    Lev(input, candidate) <= 3 && (Lev(input, candidate) <= 1 || Lev(input, candidate) < |input|)
  }

  /** `k` is the first candidate at the least distance from `input`. */
  ghost predicate FirstNearest(input: string, candidates: seq<string>, k: nat) {
    && k < |candidates|
    && (forall j :: 0 <= j < |candidates| ==> Lev(input, candidates[k]) <= Lev(input, candidates[j]))
    && (forall j :: 0 <= j < k ==> Lev(input, candidates[k]) < Lev(input, candidates[j]))
  }

  method Nearest(input: string, candidates: seq<string>) returns (r: Option<string>)
    ensures r.Some? ==> exists k: nat :: FirstNearest(input, candidates, k) && r.value == candidates[k]
                                    && Close(input, candidates[k])
    ensures r.None? <==> forall j :: 0 <= j < |candidates| ==> !Close(input, candidates[j])
  {
    var best: Option<string> := None;
    var bestScore := 0;
    ghost var at := 0;
    for i := 0 to |candidates|
      invariant best.None? <==> i == 0
      invariant i > 0 ==> FirstNearest(input, candidates[..i], at) && best == Some(candidates[at])
                          && bestScore == Lev(input, candidates[at])
    {
      var d := Distance(input, candidates[i]);
      ghost var before := candidates[..i];
      assert candidates[..i + 1] == before + [candidates[i]];
      if best.None? || d < bestScore {
        bestScore, best, at := d, Some(candidates[i]), i;
      }
    }
    assert candidates[..|candidates|] == candidates;
    r := if best.Some? && bestScore <= Threshold(input) then best else None;
  }

  // ---- the distance is a metric -------------------------------------------------------------

  lemma {:induction false} Symmetric(a: string, b: string)
    ensures Lev(a, b) == Lev(b, a)
  {
    CellSymmetric(a, b, |a|, |b|);
  }

  lemma {:induction false} CellSymmetric(a: string, b: string, i: nat, j: nat)
    requires i <= |a| && j <= |b|
    ensures Cell(a, b, i, j) == Cell(b, a, j, i)
  {
    if i > 0 && j > 0 {
      CellSymmetric(a, b, i - 1, j);
      CellSymmetric(a, b, i, j - 1);
      CellSymmetric(a, b, i - 1, j - 1);
    }
  }

  lemma {:induction false} LengthBound(a: string, b: string, i: nat, j: nat)
    requires i <= |a| && j <= |b|
    ensures i <= j + Cell(a, b, i, j) && j <= i + Cell(a, b, i, j) && Cell(a, b, i, j) <= i + j
  {
    if i > 0 && j > 0 {
      LengthBound(a, b, i - 1, j);
      LengthBound(a, b, i, j - 1);
      LengthBound(a, b, i - 1, j - 1);
    }
  }

  lemma {:induction false} Triangle(a: string, b: string, c: string)
    ensures Lev(a, c) <= Lev(a, b) + Lev(b, c)
  {
    CellTriangle(a, b, c, |a|, |b|, |c|);
  }

  lemma {:induction false} CellTriangle(a: string, b: string, c: string, i: nat, j: nat, k: nat)
    requires i <= |a| && j <= |b| && k <= |c|
    ensures Cell(a, c, i, k) <= Cell(a, b, i, j) + Cell(b, c, j, k)
    decreases i + j + k, 1
  {
    if i == 0 || j == 0 || k == 0 {
      LengthBound(a, b, i, j);
      LengthBound(b, c, j, k);
      LengthBound(a, c, i, k);
    } else {
      var ab, bc := Cell(a, b, i, j), Cell(b, c, j, k);
      if ab == Cell(a, b, i - 1, j) + 1 {
        CellTriangle(a, b, c, i - 1, j, k);
      } else if bc == Cell(b, c, j, k - 1) + 1 {
        CellTriangle(a, b, c, i, j, k - 1);
      } else if bc == Cell(b, c, j - 1, k) + 1 {
        ThroughDropped(a, b, c, i, j, k);
      } else if ab == Cell(a, b, i, j - 1) + 1 {
        ThroughInserted(a, b, c, i, j, k);
      } else {
        ThroughMatched(a, b, c, i, j, k);
      }
    }
  }

  /** The last character of `b` is inserted or matched, and then dropped again. */
  lemma {:induction false} ThroughDropped(a: string, b: string, c: string, i: nat, j: nat, k: nat)
    requires 0 < i <= |a| && 0 < j <= |b| && 0 < k <= |c|
    requires Cell(a, b, i, j) != Cell(a, b, i - 1, j) + 1 && Cell(b, c, j, k) == Cell(b, c, j - 1, k) + 1
    ensures Cell(a, c, i, k) <= Cell(a, b, i, j) + Cell(b, c, j, k)
    decreases i + j + k, 0
  {
    CellTriangle(a, b, c, i, j - 1, k);
    CellTriangle(a, b, c, i - 1, j - 1, k);
  }

  /** The last character of `b` is inserted, and then matched with that of `c`. */
  lemma {:induction false} ThroughInserted(a: string, b: string, c: string, i: nat, j: nat, k: nat)
    requires 0 < i <= |a| && 0 < j <= |b| && 0 < k <= |c|
    requires Cell(a, b, i, j) == Cell(a, b, i, j - 1) + 1
    requires Cell(b, c, j, k) == Cell(b, c, j - 1, k - 1) + Mismatch(b[j - 1], c[k - 1])
    ensures Cell(a, c, i, k) <= Cell(a, b, i, j) + Cell(b, c, j, k)
    decreases i + j + k, 0
  {
    CellTriangle(a, b, c, i, j - 1, k - 1);
  }

  /** All three last characters are matched. */
  lemma {:induction false} ThroughMatched(a: string, b: string, c: string, i: nat, j: nat, k: nat)
    requires 0 < i <= |a| && 0 < j <= |b| && 0 < k <= |c|
    requires Cell(a, b, i, j) == Cell(a, b, i - 1, j - 1) + Mismatch(a[i - 1], b[j - 1])
    requires Cell(b, c, j, k) == Cell(b, c, j - 1, k - 1) + Mismatch(b[j - 1], c[k - 1])
    ensures Cell(a, c, i, k) <= Cell(a, b, i, j) + Cell(b, c, j, k)
    decreases i + j + k, 0
  {
    CellTriangle(a, b, c, i - 1, j - 1, k - 1);
  }

  /** A cell looks at the two prefixes only. */
  lemma {:induction false} PrefixOnly(a: string, b: string, a': string, b': string, i: nat, j: nat)
    requires i <= |a| && j <= |b| && i <= |a'| && j <= |b'|
    requires forall k :: 0 <= k < i ==> a[k] == a'[k]
    requires forall k :: 0 <= k < j ==> b[k] == b'[k]
    ensures Cell(a, b, i, j) == Cell(a', b', i, j)
  {
    if i > 0 && j > 0 {
      PrefixOnly(a, b, a', b', i - 1, j);
      PrefixOnly(a, b, a', b', i, j - 1);
      PrefixOnly(a, b, a', b', i - 1, j - 1);
    }
  }

  lemma {:induction false} Diagonal(a: string, i: nat)
    requires i <= |a|
    ensures Cell(a, a, i, i) == 0
  {
    if i > 0 {
      Diagonal(a, i - 1);
    }
  }

  // ---- and it is the least length of an edit script -----------------------------------------

  datatype Edit = Insert(at: nat, c: char) | Delete(at: nat) | Substitute(at: nat, c: char)

  predicate Legal(e: Edit, s: string) {
    if e.Insert? then e.at <= |s| else e.at < |s|
  }

  function Apply(e: Edit, s: string): string
    requires Legal(e, s)
  {
    match e
    case Insert(at, c) => s[..at] + [c] + s[at..]
    case Delete(at) => s[..at] + s[at + 1..]
    case Substitute(at, c) => s[at := c]
  }

  /** Applying the edits of `script` one after another turns `s` into `t`. */
  predicate Turns(script: seq<Edit>, s: string, t: string) {
    if script == [] then s == t
    else Legal(script[0], s) && Turns(script[1..], Apply(script[0], s), t)
  }

  /** A common suffix of length `n` never makes two strings further apart. */
  lemma {:induction false} CommonSuffix(s: string, t: string, i: nat, j: nat, n: nat)
    requires i + n <= |s| && j + n <= |t|
    requires s[i..i + n] == t[j..j + n]
    ensures Cell(s, t, i + n, j + n) <= Cell(s, t, i, j)
  {
    if n > 0 {
      assert s[i..i + n - 1] == s[i..i + n][..n - 1];
      assert t[j..j + n - 1] == t[j..j + n][..n - 1];
      CommonSuffix(s, t, i, j, n - 1);
      assert s[i..i + n][n - 1] == t[j..j + n][n - 1];
    }
  }

  lemma OneEdit(e: Edit, s: string)
    requires Legal(e, s)
    ensures Lev(s, Apply(e, s)) <= 1
  {
    var t, at := Apply(e, s), e.at;
    assert Cell(s, t, at, at) == 0 by {
      Diagonal(s, at);
      PrefixOnly(s, s, s, t, at, at);
    }
    match e {
      case Insert(_, _) => SuffixAfter(s, t, at, at, at + 1);
      case Delete(_) => SuffixAfter(s, t, at, at + 1, at);
      case Substitute(_, _) => SuffixAfter(s, t, at, at + 1, at + 1);
    }
  }

  /** Strings that agree up to `at`, and again after one character more on one or both sides. */
  lemma SuffixAfter(s: string, t: string, at: nat, i: nat, j: nat)
    requires at <= i <= at + 1 && at <= j <= at + 1 && i + j > 2 * at
    requires i <= |s| && j <= |t| && s[i..] == t[j..] && Cell(s, t, at, at) == 0
    ensures Lev(s, t) <= 1
  {
    var n := |s[i..]|;
    assert s[i..i + n] == s[i..] && t[j..j + n] == t[j..];
    CommonSuffix(s, t, i, j, n);
    assert Cell(s, t, i, j) <= 1;
  }

  lemma {:induction false} NoShorterScript(script: seq<Edit>, a: string, b: string)
    requires Turns(script, a, b)
    ensures Lev(a, b) <= |script|
  {
    if script == [] {
      Diagonal(a, |a|);
    } else {
      var mid := Apply(script[0], a);
      OneEdit(script[0], a);
      NoShorterScript(script[1..], mid, b);
      Triangle(a, mid, b);
    }
  }

  lemma {:induction false} Then(script: seq<Edit>, e: Edit, a: string, mid: string)
    requires Turns(script, a, mid) && Legal(e, mid)
    ensures Turns(script + [e], a, Apply(e, mid))
  {
    if script != [] {
      Then(script[1..], e, Apply(script[0], a), mid);
      assert (script + [e])[1..] == script[1..] + [e];
    }
  }

  /** A script still runs, with the same effect, when a character is appended on both sides. */
  lemma {:induction false} UnderSuffix(script: seq<Edit>, a: string, b: string, x: char)
    requires Turns(script, a, b)
    ensures Turns(script, a + [x], b + [x])
  {
    if script != [] {
      UnderSuffix(script[1..], Apply(script[0], a), b, x);
      assert Apply(script[0], a + [x]) == Apply(script[0], a) + [x];
    }
  }

  /** Each of the three ways to reach a cell extends a script for the cell it comes from. */
  lemma DropLast(rest: seq<Edit>, a: string, i: nat, t: string) returns (script: seq<Edit>)
    requires i < |a| && Turns(rest, a[..i], t)
    ensures Turns(script, a[..i + 1], t) && |script| == |rest| + 1
  {
    script := [Delete(i)] + rest;
    assert script[1..] == rest;
    assert Apply(Delete(i), a[..i + 1]) == a[..i];
  }

  lemma InsertLast(rest: seq<Edit>, s: string, b: string, j: nat) returns (script: seq<Edit>)
    requires j < |b| && Turns(rest, s, b[..j])
    ensures Turns(script, s, b[..j + 1]) && |script| == |rest| + 1
  {
    hide Turns;
    var e := Insert(j, b[j]);
    Then(rest, e, s, b[..j]);
    script := rest + [e];
    assert Apply(e, b[..j]) == b[..j + 1];
  }

  lemma MatchLast(rest: seq<Edit>, a: string, i: nat, b: string, j: nat) returns (script: seq<Edit>)
    requires i < |a| && j < |b| && Turns(rest, a[..i], b[..j])
    ensures Turns(script, a[..i + 1], b[..j + 1]) && |script| == |rest| + Mismatch(a[i], b[j])
  {
    hide Turns;
    UnderSuffix(rest, a[..i], b[..j], a[i]);
    assert a[..i] + [a[i]] == a[..i + 1];
    assert b[..j] + [b[j]] == b[..j + 1];
    script := rest;
    if a[i] != b[j] {
      var e := Substitute(j, b[j]);
      Then(rest, e, a[..i + 1], b[..j] + [a[i]]);
      script := rest + [e];
      assert Apply(e, b[..j] + [a[i]]) == b[..j + 1];
    }
  }

  lemma NoEdits(a: string) returns (script: seq<Edit>)
    ensures Turns(script, a, a) && script == []
  {
    script := [];
  }

  lemma {:induction false} BestScript(a: string, b: string, i: nat, j: nat) returns (script: seq<Edit>)
    requires i <= |a| && j <= |b|
    ensures Turns(script, a[..i], b[..j]) && |script| == Cell(a, b, i, j)
  {
    hide Turns, Apply;
    if i == 0 && j == 0 {
      script := NoEdits(a[..0]);
    } else if j == 0 || (i > 0 && Cell(a, b, i, j) == Cell(a, b, i - 1, j) + 1) {
      var rest := BestScript(a, b, i - 1, j);
      script := DropLast(rest, a, i - 1, b[..j]);
    } else if i == 0 || Cell(a, b, i, j) == Cell(a, b, i, j - 1) + 1 {
      var rest := BestScript(a, b, i, j - 1);
      script := InsertLast(rest, a[..i], b, j - 1);
    } else {
      var rest := BestScript(a, b, i - 1, j - 1);
      script := MatchLast(rest, a, i - 1, b, j - 1);
    }
  }

  /** The number the matrix computes is the least length of a script from `a` to `b`. */
  lemma LeastScriptLength(a: string, b: string, n: nat)
    ensures (exists script :: Turns(script, a, b) && |script| == n
                              && forall other :: Turns(other, a, b) ==> n <= |other|)
            <==> n == Lev(a, b)
  {
    var best := BestScript(a, b, |a|, |b|);
    assert a[..|a|] == a && b[..|b|] == b;
    forall other | Turns(other, a, b) ensures Lev(a, b) <= |other| {
      NoShorterScript(other, a, b);
    }
  }
}
