/** The string primitives the address parser uses: split and its inverse, join. */
module Strings {
  /** The first position of `c`. */
  function Index(s: string, c: char): (i: nat)
    requires c in s
    ensures i < |s| && s[i] == c && c !in s[..i]
  {
    if s[0] == c then 0 else 1 + Index(s[1..], c)
  }

  function Split(s: string, c: char): (parts: seq<string>)
    ensures parts != []
    decreases |s|
  {
    if c !in s then [s] else [s[..Index(s, c)]] + Split(s[Index(s, c) + 1..], c)
  }

  function Join(parts: seq<string>, c: char): string
    requires parts != []
  {
    if |parts| == 1 then parts[0] else parts[0] + [c] + Join(parts[1..], c)
  }

  lemma IndexIs(a: string, c: char, b: string)
    requires c !in a
    ensures c in a + [c] + b && Index(a + [c] + b, c) == |a|
  {
    var s := a + [c] + b;
    assert s[|a|] == c;
    assert forall j :: 0 <= j < |a| ==> s[j] == a[j];
    assert s[..|a|] == a;
  }

  lemma {:induction false} SplitJoin(parts: seq<string>, c: char)
    requires parts != [] && forall i :: 0 <= i < |parts| ==> c !in parts[i]
    ensures Split(Join(parts, c), c) == parts
  {
    if |parts| > 1 {
      var rest := Join(parts[1..], c);
      IndexIs(parts[0], c, rest);
      SplitJoin(parts[1..], c);
      var s := parts[0] + [c] + rest;
      assert s[..|parts[0]|] == parts[0] && s[|parts[0]| + 1..] == rest;
    }
  }

  lemma {:induction false} JoinSplit(s: string, c: char)
    ensures Join(Split(s, c), c) == s
    ensures forall i :: 0 <= i < |Split(s, c)| ==> c !in Split(s, c)[i]
    decreases |s|
  {
    if c in s {
      var i := Index(s, c);
      JoinSplit(s[i + 1..], c);
      var parts := Split(s, c);
      assert parts[1..] == Split(s[i + 1..], c);
      assert s == s[..i] + [c] + s[i + 1..];
    }
  }

  /** The text after the last `c`, or the empty string when there is none. */
  function AfterLast(s: string, c: char): (t: string)
    ensures c !in t && |t| <= |s|
    ensures c in s ==> |t| < |s| && s[|s| - |t| - 1] == c && s[|s| - |t|..] == t
    ensures c !in s ==> t == ""
    decreases |s|
  {
    if c !in s then ""
    else if c in s[Index(s, c) + 1..] then AfterLast(s[Index(s, c) + 1..], c)
    else s[Index(s, c) + 1..]
  }

  lemma {:induction false} AfterLastIs(a: string, c: char, b: string)
    requires c !in b
    ensures AfterLast(a + [c] + b, c) == b
    decreases |a|
  {
    var s := a + [c] + b;
    if c in a {
      var i := Index(a, c);
      var rest := a[i + 1..] + [c] + b;
      assert s == a[..i] + [c] + rest;
      IndexIs(a[..i], c, rest);
      assert s[i + 1..] == rest && rest[|a| - i - 1] == c;
      AfterLastIs(a[i + 1..], c, b);
    } else {
      IndexIs(a, c, b);
      assert s[|a| + 1..] == b;
    }
  }

  /** No two adjacent colons. */
  predicate NoDouble(s: string) {
    forall i :: 0 <= i < |s| - 1 ==> !(s[i] == ':' && s[i + 1] == ':')
  }

  /** The first position of a double colon. */
  function DoubleAt(s: string): (i: nat)
    requires !NoDouble(s)
    ensures i + 1 < |s| && s[i] == ':' && s[i + 1] == ':' && NoDouble(s[..i + 1])
  {
    if s[0] == ':' && s[1] == ':' then 0
    else
      assert !NoDouble(s[1..]) by {
        var k :| 0 <= k < |s| - 1 && s[k] == ':' && s[k + 1] == ':';
        assert s[1..][k - 1] == ':' && s[1..][k] == ':';
      }
      var i := DoubleAt(s[1..]);
      assert NoDouble(s[..i + 2]) by {
        assert s[..i + 2] == [s[0]] + s[1..][..i + 1];
      }
      1 + i
  }

  function SplitDouble(s: string): (halves: seq<string>)
    ensures halves != []
    decreases |s|
  {
    if NoDouble(s) then [s] else [s[..DoubleAt(s)]] + SplitDouble(s[DoubleAt(s) + 2..])
  }

  lemma {:induction false} DoubleIs(a: string, b: string)
    requires NoDouble(a) && (a != "" ==> a[|a| - 1] != ':')
    ensures !NoDouble(a + "::" + b) && DoubleAt(a + "::" + b) == |a|
  {
    var s := a + "::" + b;
    assert s[|a|] == ':' && s[|a| + 1] == ':';
    if a != "" {
      assert s[1..] == a[1..] + "::" + b;
      assert |a| > 1 ==> s[0] == a[0] && s[1] == a[1];
      assert NoDouble(a[1..]) by {
        assert forall j :: 1 <= j < |a| - 1 ==> a[j] == a[1..][j - 1] && a[j + 1] == a[1..][j];
      }
      DoubleIs(a[1..], b);
    }
  }

  lemma SplitDoubleOne(s: string)
    requires |SplitDouble(s)| == 1
    ensures NoDouble(s) && SplitDouble(s)[0] == s
  {
  }

  lemma SplitDoubleTwo(s: string)
    requires |SplitDouble(s)| == 2
    ensures s == SplitDouble(s)[0] + "::" + SplitDouble(s)[1]
  {
  }

  /** Non-empty parts without colons, joined by single colons. */
  lemma {:induction false} JoinNoDouble(parts: seq<string>)
    requires parts != [] && forall i :: 0 <= i < |parts| ==> parts[i] != "" && ':' !in parts[i]
    ensures NoDouble(Join(parts, ':')) && Join(parts, ':') != ""
    ensures Join(parts, ':')[0] != ':' && Join(parts, ':')[|Join(parts, ':')| - 1] != ':'
  {
    var p := parts[0];
    assert p[0] in p && p[|p| - 1] in p;
    if |parts| == 1 {
      assert forall i :: 0 <= i < |p| ==> p[i] in p;
    } else {
      var rest := Join(parts[1..], ':');
      JoinNoDouble(parts[1..]);
      var s := p + [':'] + rest;
      forall i | 0 <= i < |s| - 1 ensures !(s[i] == ':' && s[i + 1] == ':') {
        assert i < |p| ==> s[i] == p[i] && p[i] in p;
        assert i > |p| ==> s[i] == rest[i - |p| - 1] && s[i + 1] == rest[i - |p|];
      }
    }
  }
}
