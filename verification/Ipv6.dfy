/** The IPv6 text parser of src/net/destination-policy.js against the text forms of section 2.2 of
    RFC 4291. */
module Ipv6 {
  import opened Prelude
  import opened Strings
  import opened Ipv4

  // ---- the parser ---------------------------------------------------------------------------

  predicate IsHexDigit(c: char) {
    '0' <= c <= '9' || 'a' <= c <= 'f' || 'A' <= c <= 'F'
  }

  /** One to four hexadecimal digits of either case. */
  predicate IsHex(s: string) {
    1 <= |s| <= 4 && forall i :: 0 <= i < |s| ==> IsHexDigit(s[i])
  }

  function HexDigit(c: char): (d: nat)
    ensures d < 16
  {
    if '0' <= c <= '9' then c as int - '0' as int
    else if 'a' <= c <= 'f' then c as int - 'a' as int + 10
    else if 'A' <= c <= 'F' then c as int - 'A' as int + 10
    else 0
  }

  function HexValue(s: string): nat {
    if s == "" then 0 else HexValue(s[..|s| - 1]) * 16 + HexDigit(s[|s| - 1])
  }

  predicate AllHex(pieces: seq<string>) {
    forall i :: 0 <= i < |pieces| ==> IsHex(pieces[i])
  }

  function Values(pieces: seq<string>): (gs: seq<nat>)
    ensures |gs| == |pieces|
  {
    if pieces == [] then [] else Values(pieces[..|pieces| - 1]) + [HexValue(pieces[|pieces| - 1])]
  }

  /** The groups of one side of a `::`. */
  function Chunk(s: string): Option<seq<nat>> {
    if s == "" then Some([])
    else if AllHex(Split(s, ':')) then Some(Values(Split(s, ':')))
    else None
  }

  /** Replace the placeholder group by the two groups of a dotted tail. */
  function Splice(gs: seq<nat>, tail: seq<nat>): seq<nat> {
    if tail == [] then gs else if gs == [] then tail else gs[..|gs| - 1] + tail
  }

  function Zeros(n: nat): (z: seq<nat>)
    ensures |z| == n && forall i :: 0 <= i < n ==> z[i] == 0
  {
    if n == 0 then [] else [0] + Zeros(n - 1)
  }

  function Fill(left: seq<nat>, right: seq<nat>): Option<seq<nat>> {
    if |left| + |right| > 8 then None else Some(left + Zeros(8 - |left| - |right|) + right)
  }

  function Assemble(text: string, tail: seq<nat>): Option<seq<nat>> {
    var halves := SplitDouble(text);
    if |halves| > 2 then None
    else if |halves| == 2 then
      var head, rest := Chunk(halves[0]), Chunk(halves[1]);
      if head.None? || rest.None? then None else Fill(head.value, Splice(rest.value, tail))
    else
      var head := Chunk(halves[0]);
      if head.None? || |Splice(head.value, tail)| != 8 then None else Some(Splice(head.value, tail))
  }

  function StripZone(ip: string): string {
    if '%' in ip then ip[..Index(ip, '%')] else ip
  }

  function Ipv6Groups(ip: string): Option<seq<nat>> {
    var text := StripZone(ip);
    var trailing := AfterLast(text, ':');
    if '.' !in trailing then Assemble(text, [])
    else if Ipv4Value(trailing).None? then None
    else
      var v4 := Ipv4Value(trailing).value;
      Assemble(text[..|text| - |trailing|] + "0", [v4 / 0x10000, v4 % 0x10000])
  }

  method Groups(chunk: string) returns (r: Option<seq<nat>>)
    ensures r == Chunk(chunk)
  {
    if chunk == "" {
      return Some([]);
    }
    var pieces := Split(chunk, ':');
    var out := [];
    for i := 0 to |pieces|
      invariant AllHex(pieces[..i]) && out == Values(pieces[..i])
    {
      assert pieces[..i + 1][..i] == pieces[..i];
      if !IsHex(pieces[i]) {
        return None;
      }
      out := out + [HexValue(pieces[i])];
    }
    assert pieces[..|pieces|] == pieces;
    return Some(out);
  }

  method Ipv6ToGroups(ip: string) returns (r: Option<seq<nat>>)
    ensures r == Ipv6Groups(ip)
  {
    hide SplitDouble, Chunk, AfterLast, Ipv4Value, Index, Fill;
    var text := ip;
    if '%' in ip {
      text := ip[..Index(ip, '%')];
    }
    var tail: seq<nat> := [];
    var trailing := AfterLast(text, ':');
    if '.' in trailing {
      var v4 := Ipv4ToInt(trailing);
      if v4.None? {
        return None;
      }
      tail := [v4.value / 0x10000, v4.value % 0x10000];
      text := text[..|text| - |trailing|] + "0";
    }
    var halves := SplitDouble(text);
    if |halves| > 2 {
      return None;
    }
    var head := Groups(halves[0]);
    var rest := Some([]);
    if |halves| == 2 {
      rest := Groups(halves[1]);
    }
    if head.None? || rest.None? {
      return None;
    }
    var left, right := head.value, rest.value;
    if tail != [] {
      if |halves| == 2 {
        right := Splice(right, tail);
      } else {
        left := Splice(left, tail);
      }
    }
    if |halves| == 1 {
      return if |left| == 8 then Some(left) else None;
    }
    return Fill(left, right);
  }

  // ---- the legal spellings ------------------------------------------------------------------

  datatype Quad = Quad(a: nat, b: nat, c: nat, d: nat)

  /** Hexadecimal pieces on each side of at most one `::`, an optional dotted quad at the very end,
      and an optional zone. */
  datatype Spelling = Spelling(left: seq<string>, gap: bool, right: seq<string>, quad: Option<Quad>, zone: Option<string>)

  function QuadGroups(q: Quad): seq<nat> {
    [q.a * 256 + q.b, q.c * 256 + q.d]
  }

  function TailGroups(s: Spelling): seq<nat> {
    if s.quad.Some? then QuadGroups(s.quad.value) else []
  }

  predicate ByteQuad(q: Quad) {
    q.a < 256 && q.b < 256 && q.c < 256 && q.d < 256
  }

  /** Without `::` there are exactly eight groups; with it, at most eight (section 2.2 of RFC 4291
      asks for at most seven; the parser also takes a `::` that stands for nothing). */
  predicate Legal(s: Spelling) {
    var count := |s.left| + |s.right| + |TailGroups(s)|;
    && AllHex(s.left) && AllHex(s.right)
    && (s.gap ==> count <= 8)
    && (!s.gap ==> s.right == [] && count == 8)
    && (s.quad.Some? ==> ByteQuad(s.quad.value))
  }

  /** The eight groups a spelling stands for. */
  function Address(s: Spelling): (gs: seq<nat>)
    requires Legal(s)
    ensures |gs| == 8
  {
    Values(s.left) + Zeros(8 - |s.left| - |s.right| - |TailGroups(s)|) + Values(s.right) + TailGroups(s)
  }

  function Colons(pieces: seq<string>): string {
    if pieces == [] then "" else Join(pieces, ':')
  }

  function Shape(left: seq<string>, gap: bool, right: seq<string>): string {
    if gap then Colons(left) + "::" + Colons(right) else Colons(left)
  }

  /** The shape with one more piece at the end. */
  function Ended(s: Spelling, last: string): string {
    if s.gap then Shape(s.left, true, s.right + [last]) else Shape(s.left + [last], false, [])
  }

  function BodyText(s: Spelling): string
    requires Legal(s)
  {
    if s.quad.None? then Shape(s.left, s.gap, s.right)
    else Ended(s, Dotted(s.quad.value.a, s.quad.value.b, s.quad.value.c, s.quad.value.d))
  }

  function Text(s: Spelling): string
    requires Legal(s)
  {
    BodyText(s) + (if s.zone.Some? then "%" + s.zone.value else "")
  }

  // ---- every legal spelling parses to its groups --------------------------------------------

  lemma {:induction false} JoinSnoc(parts: seq<string>, x: string)
    requires parts != []
    ensures Join(parts + [x], ':') == Join(parts, ':') + ":" + x
  {
    assert (parts + [x])[1..] == parts[1..] + [x];
    if |parts| > 1 {
      JoinSnoc(parts[1..], x);
    }
  }

  lemma {:induction false} JoinWithout(parts: seq<string>, c: char)
    requires parts != [] && c != ':' && forall i :: 0 <= i < |parts| ==> c !in parts[i]
    ensures c !in Join(parts, ':')
  {
    if |parts| > 1 {
      JoinWithout(parts[1..], c);
    }
  }

  lemma HexWithout(pieces: seq<string>, c: char)
    requires AllHex(pieces) && !IsHexDigit(c)
    ensures forall i :: 0 <= i < |pieces| ==> pieces[i] != "" && c !in pieces[i]
  {
  }

  lemma ColonsWithout(pieces: seq<string>, c: char)
    requires AllHex(pieces) && !IsHexDigit(c) && c != ':'
    ensures c !in Colons(pieces)
  {
    HexWithout(pieces, c);
    if pieces != [] {
      JoinWithout(pieces, c);
    }
  }

  lemma ChunkOfColons(pieces: seq<string>)
    requires AllHex(pieces)
    ensures Chunk(Colons(pieces)) == Some(Values(pieces))
  {
    if pieces != [] {
      HexWithout(pieces, ':');
      JoinNoDouble(pieces);
      SplitJoin(pieces, ':');
    }
  }

  lemma ColonsNoDouble(pieces: seq<string>)
    requires AllHex(pieces)
    ensures NoDouble(Colons(pieces))
    ensures Colons(pieces) != "" ==> Colons(pieces)[|Colons(pieces)| - 1] != ':'
  {
    if pieces != [] {
      HexWithout(pieces, ':');
      JoinNoDouble(pieces);
    }
  }

  lemma HalvesOfShape(left: seq<string>, right: seq<string>)
    requires AllHex(left) && AllHex(right)
    ensures SplitDouble(Shape(left, false, [])) == [Colons(left)]
    ensures SplitDouble(Shape(left, true, right)) == [Colons(left), Colons(right)]
  {
    ColonsNoDouble(left);
    ColonsNoDouble(right);
    var a, b := Colons(left), Colons(right);
    DoubleIs(a, b);
    var s := a + "::" + b;
    assert s[..|a|] == a && s[|a| + 2..] == b;
    assert SplitDouble(b) == [b];
  }

  /** The groups of a shape, with the placeholder at its end replaced by `tail`. */
  function ShapeGroups(left: seq<string>, gap: bool, right: seq<string>, tail: seq<nat>): Option<seq<nat>> {
    if gap then Fill(Values(left), Splice(Values(right), tail))
    else if |Splice(Values(left), tail)| == 8 then Some(Splice(Values(left), tail))
    else None
  }

  lemma AssembleShape(left: seq<string>, gap: bool, right: seq<string>, tail: seq<nat>)
    requires AllHex(left) && AllHex(right)
    ensures Assemble(Shape(left, gap, right), tail) == ShapeGroups(left, gap, right, tail)
  {
    hide Chunk, SplitDouble, Values, Colons, Splice, Fill;
    HalvesOfShape(left, right);
    ChunkOfColons(left);
    ChunkOfColons(right);
  }

  lemma ColonsSnoc(pieces: seq<string>, x: string)
    ensures Colons(pieces + [x]) == Colons(pieces + [""]) + x
    ensures pieces != [] ==> Colons(pieces + [""]) == Colons(pieces) + ":"
    ensures pieces == [] ==> Colons(pieces + [""]) == ""
  {
    if pieces != [] {
      JoinSnoc(pieces, x);
      JoinSnoc(pieces, "");
    }
  }

  lemma EndedIs(s: Spelling, last: string)
    requires s.gap || s.left != []
    ensures Ended(s, last) == Ended(s, "") + last
    ensures |Ended(s, "")| > 0 && Ended(s, "")[|Ended(s, "")| - 1] == ':'
  {
    hide Colons;
    ColonsSnoc(s.left, last);
    ColonsSnoc(s.right, last);
  }

  lemma ShapeWithout(left: seq<string>, gap: bool, right: seq<string>, c: char)
    requires AllHex(left) && AllHex(right) && !IsHexDigit(c) && c != ':'
    ensures c !in Shape(left, gap, right)
  {
    ColonsWithout(left, c);
    ColonsWithout(right, c);
  }

  lemma DecimalWithout(n: nat, c: char)
    requires n < 256 && !IsDigit(c)
    ensures c !in Decimal(n)
  {
  }

  lemma DottedWithout(q: Quad, c: char)
    requires ByteQuad(q) && !IsDigit(c) && c != '.'
    ensures c !in Dotted(q.a, q.b, q.c, q.d)
  {
    hide Decimal;
    DecimalWithout(q.a, c);
    DecimalWithout(q.b, c);
    DecimalWithout(q.c, c);
    DecimalWithout(q.d, c);
  }

  lemma DottedHasDot(q: Quad)
    requires ByteQuad(q)
    ensures '.' in Dotted(q.a, q.b, q.c, q.d)
  {
  }

  lemma BodyWithoutZone(s: Spelling)
    requires Legal(s)
    ensures '%' !in BodyText(s)
  {
    hide Dotted, Shape;
    ShapeWithout(s.left, s.gap, s.right, '%');
    if s.quad.Some? {
      var q := s.quad.value;
      DottedWithout(q, '%');
      EndedIs(s, Dotted(q.a, q.b, q.c, q.d));
      LeadWithout(s, '%');
    }
  }

  lemma LeadWithout(s: Spelling, c: char)
    requires AllHex(s.left) && AllHex(s.right) && !IsHexDigit(c) && c != ':'
    ensures c !in Ended(s, "")
  {
    hide Colons;
    ColonsWithout(s.left, c);
    ColonsWithout(s.right, c);
    ColonsSnoc(s.left, "");
    ColonsSnoc(s.right, "");
  }

  lemma StripsZone(s: Spelling)
    requires Legal(s)
    ensures StripZone(Text(s)) == BodyText(s)
  {
    hide BodyText, Index, AllHex;
    BodyWithoutZone(s);
    var body, text := BodyText(s), Text(s);
    if s.zone.Some? {
      assert text == body + ['%'] + s.zone.value;
      IndexIs(body, '%', s.zone.value);
      assert text[..|body|] == body;
    } else {
      assert text == body;
    }
  }

  lemma TailOfQuad(q: Quad)
    requires ByteQuad(q)
    ensures Ipv4Value(Dotted(q.a, q.b, q.c, q.d)).Some?
    ensures var v := Ipv4Value(Dotted(q.a, q.b, q.c, q.d)).value;
      [v / 0x10000, v % 0x10000] == QuadGroups(q)
  {
    hide Dotted, Ipv4Value;
    DottedParses(q.a, q.b, q.c, q.d);
  }

  lemma HexZero()
    ensures IsHex("0")
  {
  }

  lemma SnocHex(pieces: seq<string>, x: string)
    requires AllHex(pieces) && IsHex(x)
    ensures AllHex(pieces + [x])
  {
  }

  lemma SpliceSnoc(pieces: seq<string>, x: string, tail: seq<nat>)
    requires tail != []
    ensures Splice(Values(pieces + [x]), tail) == Values(pieces) + tail
  {
  }

  lemma SpliceNone(gs: seq<nat>)
    ensures Splice(gs, []) == gs
  {
  }

  lemma PlainAddress(s: Spelling)
    requires Legal(s) && s.quad.None?
    ensures ShapeGroups(s.left, s.gap, s.right, []) == Some(Address(s))
  {
    hide Values, Splice;
    SpliceNone(Values(s.left));
    SpliceNone(Values(s.right));
    var zeros := Zeros(8 - |s.left| - |s.right|);
    assert Address(s) == Values(s.left) + zeros + Values(s.right) + [] == Values(s.left) + zeros + Values(s.right);
    if !s.gap {
      assert Values(s.left) + zeros + Values(s.right) == Values(s.left);
    }
  }

  lemma QuadAddress(s: Spelling)
    requires Legal(s) && s.quad.Some?
    ensures s.gap ==> ShapeGroups(s.left, true, s.right + ["0"], TailGroups(s)) == Some(Address(s))
    ensures !s.gap ==> ShapeGroups(s.left + ["0"], false, [], TailGroups(s)) == Some(Address(s))
  {
    hide Values, Splice;
    var tail := TailGroups(s);
    var zeros := Zeros(8 - |s.left| - |s.right| - |tail|);
    if s.gap {
      SpliceSnoc(s.right, "0", tail);
      assert Values(s.left) + zeros + Values(s.right) + tail == Values(s.left) + zeros + (Values(s.right) + tail);
    } else {
      SpliceSnoc(s.left, "0", tail);
      assert Values(s.left) + zeros + Values(s.right) + tail == Values(s.left) + tail;
    }
  }

  lemma PlainParses(s: Spelling)
    requires Legal(s) && s.quad.None?
    ensures Ipv6Groups(Text(s)) == Some(Address(s))
  {
    hide Text, Address, Shape, Assemble, StripZone, ShapeGroups;
    var text := BodyText(s);
    StripsZone(s);
    ShapeWithout(s.left, s.gap, s.right, '.');
    var trailing := AfterLast(text, ':');
    assert '.' !in trailing by {
      assert trailing != "" ==> trailing == text[|text| - |trailing|..];
    }
    AssembleShape(s.left, s.gap, s.right, []);
    PlainAddress(s);
  }

  lemma QuadParses(s: Spelling)
    requires Legal(s) && s.quad.Some?
    ensures Ipv6Groups(Text(s)) == Some(Address(s))
  {
    hide Text, Address, Colons, Assemble, StripZone, ShapeGroups, Dotted, Decimal, AfterLast, Ipv4Value;
    var q := s.quad.value;
    var dotted := Dotted(q.a, q.b, q.c, q.d);
    var lead := Ended(s, "");
    StripsZone(s);
    EndedIs(s, dotted);
    EndedIs(s, "0");
    assert lead == lead[..|lead| - 1] + [':'];
    DottedWithout(q, ':');
    DottedHasDot(q);
    AfterLastIs(lead[..|lead| - 1], ':', dotted);
    TailOfQuad(q);
    assert (lead + dotted)[..|lead|] == lead;
    HexZero();
    if s.gap {
      SnocHex(s.right, "0");
      AssembleShape(s.left, true, s.right + ["0"], TailGroups(s));
    } else {
      SnocHex(s.left, "0");
      AssembleShape(s.left + ["0"], false, [], TailGroups(s));
    }
    QuadAddress(s);
  }

  /** Every legal spelling parses to exactly the groups it stands for. */
  lemma Parses(s: Spelling)
    requires Legal(s)
    ensures Ipv6Groups(Text(s)) == Some(Address(s))
  {
    if s.quad.None? {
      PlainParses(s);
    } else {
      QuadParses(s);
    }
  }

  // ---- nothing else parses ------------------------------------------------------------------

  lemma ColonsOfChunk(text: string) returns (pieces: seq<string>)
    requires Chunk(text).Some?
    ensures AllHex(pieces) && text == Colons(pieces) && Chunk(text).value == Values(pieces)
  {
    if text == "" {
      pieces := [];
    } else {
      pieces := Split(text, ':');
      JoinSplit(text, ':');
    }
  }

  lemma ShapeOfAssemble(text: string, tail: seq<nat>) returns (left: seq<string>, gap: bool, right: seq<string>)
    requires Assemble(text, tail).Some?
    ensures AllHex(left) && AllHex(right) && (!gap ==> right == [])
    ensures text == Shape(left, gap, right) && ShapeGroups(left, gap, right, tail).Some?
  {
    hide Chunk, Colons, Values, Splice, Fill, SplitDouble;
    var halves := SplitDouble(text);
    left := ColonsOfChunk(halves[0]);
    if |halves| == 2 {
      gap := true;
      right := ColonsOfChunk(halves[1]);
      SplitDoubleTwo(text);
    } else {
      gap, right := false, [];
      SplitDoubleOne(text);
    }
  }

  lemma HexPiece(pieces: seq<string>, x: string)
    requires AllHex(pieces + [x])
    ensures AllHex(pieces) && IsHex(x) && ':' !in x
  {
    assert (pieces + [x])[|pieces|] == x;
    assert forall i :: 0 <= i < |pieces| ==> (pieces + [x])[i] == pieces[i];
    HexWithout([x], ':');
    assert [x][0] == x;
  }

  lemma EndingIs(lead: string, x: string)
    requires ':' !in x && |lead| > 0 && lead[|lead| - 1] == ':'
    ensures AfterLast(lead + x, ':') == x
  {
    var init := lead[..|lead| - 1];
    assert lead == init + [':'];
    hide AfterLast;
    AfterLastIs(init, ':', x);
  }

  lemma SameEnding(a: string, x: string, b: string, y: string)
    requires a + x == b + y && ':' !in x && ':' !in y
    requires |a| > 0 && a[|a| - 1] == ':' && |b| > 0 && b[|b| - 1] == ':'
    ensures a == b && x == y
  {
    hide AfterLast;
    EndingIs(a, x);
    EndingIs(b, y);
    assert (a + x)[..|a|] == a && (b + y)[..|b|] == b;
  }

  lemma OpenShape(left: seq<string>)
    ensures Shape(left, true, []) == Colons(left) + "::"
  {
  }

  lemma OnePiece(pieces: seq<string>)
    requires |pieces| == 1 && AllHex(pieces)
    ensures ':' !in Shape(pieces, false, [])
  {
  }

  /** The last piece of a shape that ends in `0` after a colon is taken off. */
  lemma TakeLast(lead: string, s: Spelling, x: string)
    requires s.gap || s.left != []
    requires lead != "" && lead[|lead| - 1] == ':' && ':' !in x && lead + "0" == Ended(s, x)
    ensures Ended(s, "") == lead
  {
    hide Ended;
    EndedIs(s, x);
    assert ':' !in "0";
    SameEnding(lead, "0", Ended(s, ""), x);
  }

  lemma EndsBare(lead: string, text: string)
    requires lead != "" && lead[|lead| - 1] == ':' && text == lead + "0"
    ensures ':' in text && text[|text| - 1] == '0' && text != ""
  {
    assert text[|lead| - 1] == ':';
  }

  lemma NoColonsOfNone()
    ensures Colons([]) == ""
  {
  }

  /** A shape that ends in a piece `0` after a colon is some spelling's lead and that piece. */
  lemma LeadOfShape(lead: string, left: seq<string>, gap: bool, right: seq<string>) returns (s: Spelling)
    requires AllHex(left) && AllHex(right) && (!gap ==> right == [])
    requires lead != "" && lead[|lead| - 1] == ':' && lead + "0" == Shape(left, gap, right)
    ensures AllHex(s.left) && AllHex(s.right) && s.gap == gap && (gap || s.left != [])
    ensures Ended(s, "") == lead && s.zone == None && s.quad == None
    ensures gap ==> left == s.left && |right| == |s.right| + 1
    ensures !gap ==> |left| == |s.left| + 1 && s.right == []
  {
    hide Colons, IsHex;
    NoColonsOfNone();
    EndsBare(lead, lead + "0");
    if gap {
      if right == [] {
        OpenShape(left);
        assert false;
      }
      var x := right[|right| - 1];
      s := Spelling(left, true, right[..|right| - 1], None, None);
      assert right == s.right + [x];
      HexPiece(s.right, x);
      TakeLast(lead, s, x);
    } else {
      if |left| == 1 {
        OnePiece(left);
        assert false;
      }
      var x := left[|left| - 1];
      s := Spelling(left[..|left| - 1], false, [], None, None);
      assert left == s.left + [x];
      HexPiece(s.left, x);
      TakeLast(lead, s, x);
    }
  }

  lemma PlainSpelled(text: string) returns (s: Spelling)
    requires Assemble(text, []).Some?
    ensures Legal(s) && BodyText(s) == text && s.zone == None
  {
    hide Values, Splice, Shape, Assemble;
    var left, gap, right := ShapeOfAssemble(text, []);
    SpliceNone(Values(left));
    SpliceNone(Values(right));
    s := Spelling(left, gap, right, None, None);
  }

  lemma SpliceCount(gs: seq<nat>, tail: seq<nat>)
    requires gs != [] && tail != []
    ensures |Splice(gs, tail)| == |gs| - 1 + |tail|
  {
  }

  lemma QuadSpelled(text: string) returns (s: Spelling)
    requires '.' in AfterLast(text, ':') && Ipv4Value(AfterLast(text, ':')).Some?
    requires var v := Ipv4Value(AfterLast(text, ':')).value;
      Assemble(text[..|text| - |AfterLast(text, ':')|] + "0", [v / 0x10000, v % 0x10000]).Some?
    ensures Legal(s) && BodyText(s) == text && s.zone == None
  {
    hide Values, Splice, Shape, Assemble, Dotted, Decimal, AllHex, Ipv4Value, AfterLast;
    var trailing := AfterLast(text, ':');
    var lead := text[..|text| - |trailing|];
    assert ':' in text;
    var v := Ipv4Value(trailing).value;
    var a, b, c, d := ParsedIsDotted(trailing);
    var left, gap, right := ShapeOfAssemble(lead + "0", [v / 0x10000, v % 0x10000]);
    var open := LeadOfShape(lead, left, gap, right);
    s := open.(quad := Some(Quad(a, b, c, d)));
    SpliceCount(if gap then Values(right) else Values(left), [v / 0x10000, v % 0x10000]);
    assert Ended(s, "") == Ended(open, "");
    EndedIs(s, trailing);
    assert text == lead + trailing;
  }

  /** Whatever parses is a legal spelling of the groups it parses to. */
  lemma Spelled(ip: string) returns (s: Spelling)
    requires Ipv6Groups(ip).Some?
    ensures Legal(s) && Text(s) == ip && Ipv6Groups(ip) == Some(Address(s))
  {
    hide Legal, BodyText, Address, Assemble, AfterLast, Ipv4Value, Index;
    var text := StripZone(ip);
    if '.' in AfterLast(text, ':') {
      s := QuadSpelled(text);
    } else {
      s := PlainSpelled(text);
    }
    if '%' in ip {
      var i := Index(ip, '%');
      ZoneSpelled(s, ip, i);
      s := s.(zone := Some(ip[i + 1..]));
    }
    Parses(s);
  }

  lemma ZoneSpelled(s: Spelling, ip: string, i: nat)
    requires i < |ip| && ip[i] == '%' && Legal(s) && s.zone == None && BodyText(s) == ip[..i]
    ensures Legal(s.(zone := Some(ip[i + 1..]))) && Text(s.(zone := Some(ip[i + 1..]))) == ip
  {
    hide AllHex, Shape, ByteQuad;
    assert ip == ip[..i] + "%" + ip[i + 1..];
  }

  // ---- every address has a spelling for each of its zero runs -------------------------------

  predicate IsGroups(gs: seq<nat>) {
    forall i :: 0 <= i < |gs| ==> gs[i] < 0x10000
  }

  function HexChar(n: nat): char
    requires n < 16
  {
    if n < 10 then ('0' as int + n) as char else ('a' as int + n - 10) as char
  }

  function HexText(n: nat): string {
    if n < 16 then [HexChar(n)] else HexText(n / 16) + [HexChar(n % 16)]
  }

  function HexTexts(gs: seq<nat>): seq<string> {
    if gs == [] then [] else HexTexts(gs[..|gs| - 1]) + [HexText(gs[|gs| - 1])]
  }

  lemma {:induction false} HexTextOk(n: nat, digits: nat)
    requires 1 <= digits <= 4 && n < Power16(digits)
    ensures IsHex(HexText(n)) && |HexText(n)| <= digits && HexValue(HexText(n)) == n
  {
    if n >= 16 {
      HexTextOk(n / 16, digits - 1);
      var s := HexText(n);
      assert s[..|s| - 1] == HexText(n / 16);
    } else {
      var s := HexText(n);
      assert s[..|s| - 1] == "";
    }
  }

  function Power16(k: nat): nat {
    if k == 0 then 1 else 16 * Power16(k - 1)
  }

  lemma {:induction false} HexTextsOk(gs: seq<nat>)
    requires IsGroups(gs)
    ensures AllHex(HexTexts(gs)) && |HexTexts(gs)| == |gs| && Values(HexTexts(gs)) == gs
  {
    if gs != [] {
      HexTextsOk(gs[..|gs| - 1]);
      HexTextOk(gs[|gs| - 1], 4);
      SnocHex(HexTexts(gs[..|gs| - 1]), HexText(gs[|gs| - 1]));
      var texts := HexTexts(gs);
      assert texts[..|texts| - 1] == HexTexts(gs[..|gs| - 1]);
      assert gs == gs[..|gs| - 1] + [gs[|gs| - 1]];
    }
  }

  /** Any run of zero groups can be written `::` without changing the address. */
  lemma ZeroRun(gs: seq<nat>, i: nat, j: nat, zone: Option<string>)
    requires |gs| == 8 && IsGroups(gs) && i <= j <= 8 && forall k :: i <= k < j ==> gs[k] == 0
    ensures var s := Spelling(HexTexts(gs[..i]), true, HexTexts(gs[j..]), None, zone);
      Legal(s) && Ipv6Groups(Text(s)) == Some(gs)
  {
    hide AllHex, Values, Ipv6Groups, Text, HexTexts;
    HexTextsOk(gs[..i]);
    HexTextsOk(gs[j..]);
    var s := Spelling(HexTexts(gs[..i]), true, HexTexts(gs[j..]), None, zone);
    Parses(s);
    var zeros := Zeros(j - i);
    assert gs == gs[..i] + zeros + gs[j..] == gs[..i] + zeros + gs[j..] + [];
  }

  /** Parsed groups are sixteen-bit. */
  lemma GroupsAreSmall(ip: string)
    requires Ipv6Groups(ip).Some?
    ensures |Ipv6Groups(ip).value| == 8 && IsGroups(Ipv6Groups(ip).value)
  {
    hide Text, Ipv6Groups, Values;
    var s := Spelled(ip);
    ValuesSmall(s.left);
    ValuesSmall(s.right);
    assert IsGroups(TailGroups(s));
  }

  lemma {:induction false} ValuesSmall(pieces: seq<string>)
    requires AllHex(pieces)
    ensures IsGroups(Values(pieces))
  {
    if pieces != [] {
      ValuesSmall(pieces[..|pieces| - 1]);
      HexSmall(pieces[|pieces| - 1]);
    }
  }

  lemma HexSmall(s: string)
    requires IsHex(s)
    ensures HexValue(s) < 0x10000
  {
    HexBelow(s);
    assert Power16(4) == 0x10000 && Power16(3) < Power16(4) && Power16(2) < Power16(4) && Power16(1) < Power16(4);
  }

  lemma {:induction false} HexBelow(s: string)
    ensures HexValue(s) < Power16(|s|)
  {
    if s != "" {
      HexBelow(s[..|s| - 1]);
    }
  }
}
