// The hand-written IPv6 text parser of the egress guard, and the text forms of
// section 2.2 of RFC 4291 it has to accept.
module Ipv6 {
  import opened Text

  type Hextets = h: seq<nat> | |h| == 8 && forall k :: 0 <= k < 8 ==> h[k] < 0x10000
    witness [0, 0, 0, 0, 0, 0, 0, 0]

  // ---- the parser ----------------------------------------------------------

  /** `s.split('::')`: leftmost, non-overlapping. */
  function SplitDouble(s: string): (parts: seq<string>)
    ensures |parts| >= 1
  {
    if |s| < 2 then [s]
    else if s[0] == ':' && s[1] == ':' then [""] + SplitDouble(s[2..])
    else var rest := SplitDouble(s[1..]); [[s[0]] + rest[0]] + rest[1..]
  }

  /** Index just after the last colon, 0 when there is none. */
  function AfterLastColon(s: string): (i: nat)
    ensures i <= |s| && ':' !in s[i..]
    ensures i > 0 ==> s[i - 1] == ':'
  {
    if s == "" then 0
    else if s[|s| - 1] == ':' then |s|
    else
      var i := AfterLastColon(s[..|s| - 1]);
      assert s[i..] == s[..|s| - 1][i..] + [s[|s| - 1]];
      i
  }

  predicate IsOctetText(p: string) {
    1 <= |p| <= 3 && IsNumeral(p, 10)
  }

  /** The four-part pattern `\d{1,3}\.\d{1,3}\.\d{1,3}\.\d{1,3}`. */
  predicate IsQuadShape(t: string) {
    var parts := Split(t, '.');
    |parts| == 4 && forall k :: 0 <= k < 4 ==> IsOctetText(parts[k])
  }

  /** A character the regular-expression `.` does not match. */
  predicate HasLineBreak(s: string) {
    exists k :: 0 <= k < |s| && (s[k] == '\n' || s[k] == '\r' || s[k] == '\U{2028}' || s[k] == '\U{2029}')
  }

  function Octets(parts: seq<string>): seq<nat>
    requires |parts| == 4
  {
    [NumeralValue(parts[0], 10), NumeralValue(parts[1], 10), NumeralValue(parts[2], 10), NumeralValue(parts[3], 10)]
  }

  /** Turn a trailing dotted quad into two hexadecimal groups. */
  function RewriteQuad(input: string): Option<string> {
    var i := AfterLastColon(input);
    if i == 0 || HasLineBreak(input[..i]) || !IsQuadShape(input[i..]) then Some(input)
    else
      var b := Octets(Split(input[i..], '.'));
      if exists k :: 0 <= k < 4 && b[k] > 255 then None
      else Some(input[..i] + Numeral(b[0] * 256 + b[1], 16) + ":" + Numeral(b[2] * 256 + b[3], 16))
  }

  predicate IsGroup(g: string) {
    1 <= |g| <= 4 && IsNumeral(g, 16)
  }

  /** `g ? g.split(':') : []`. */
  function GroupTexts(side: string): seq<string> {
    if side == "" then [] else Split(side, ':')
  }

  function Zeros(n: nat): (z: seq<nat>)
    ensures |z| == n && forall k :: 0 <= k < n ==> z[k] == 0
  {
    seq(n, _ => 0)
  }

  function GroupValues(gs: seq<string>): (v: seq<nat>)
    ensures |v| == |gs|
  {
    seq(|gs|, k requires 0 <= k < |gs| => NumeralValue(gs[k], 16))
  }

  predicate AllGroups(gs: seq<string>) {
    forall k :: 0 <= k < |gs| ==> IsGroup(gs[k])
  }

  function ParseGroups(s: string): Option<seq<nat>> {
    var parts := SplitDouble(s);
    if |parts| == 1 then
      var groups := Split(s, ':');
      if |groups| == 8 && AllGroups(groups) then Some(GroupValues(groups)) else None
    else if |parts| == 2 then
      var head, tail := GroupTexts(parts[0]), GroupTexts(parts[1]);
      var missing := 8 - (|head| + |tail|);
      if missing < 1 || !AllGroups(head + tail) then None
      else Some(GroupValues(head) + Zeros(missing) + GroupValues(tail))
    else None
  }

  function ExpandIpv6(input: string): Option<seq<nat>> {
    match RewriteQuad(input)
    case None => None
    case Some(s) => ParseGroups(s)
  }

  // ---- the text forms --------------------------------------------------------

  /**
   * One spelling of an address: groups, a `::` standing for `gap` zero groups
   * (no `::` when gap is 0), more groups, and optionally a dotted quad in place
   * of the last two groups.
   */
  datatype Spelling = Spelling(head: seq<string>, gap: nat, tail: seq<string>, quad: seq<string>) {
    ghost predicate Valid() {
      && AllGroups(head) && AllGroups(tail)
      && (quad == [] || ValidQuad(quad))
      && (gap == 0 ==> tail == [])
      && |head| + gap + |tail| + (if quad == [] then 0 else 2) == 8
    }

    function QuadItems(): seq<string> {
      if quad == [] then [] else [Join(quad, '.')]
    }

    function Print(): string {
      if gap == 0 then Join(head + QuadItems(), ':')
      else Join(head, ':') + "::" + Join(tail + QuadItems(), ':')
    }

    function QuadValues(): seq<nat> {
      if |quad| != 4 then []
      else
        var b := Octets(quad);
        [b[0] * 256 + b[1], b[2] * 256 + b[3]]
    }

    function Values(): seq<nat> {
      GroupValues(head) + Zeros(gap) + GroupValues(tail) + QuadValues()
    }
  }

  ghost predicate ValidQuad(quad: seq<string>) {
    |quad| == 4 && forall k :: 0 <= k < 4 ==> IsOctetText(quad[k]) && Octets(quad)[k] <= 255
  }

  // ---- facts about '::' ------------------------------------------------------

  ghost predicate NoDouble(s: string) {
    forall i, j :: 0 <= i < j < |s| && j == i + 1 ==> !(s[i] == ':' && s[j] == ':')
  }

  lemma {:induction false} SplitDoubleAbsent(s: string)
    requires NoDouble(s)
    ensures SplitDouble(s) == [s]
  {
    if |s| >= 2 {
      SplitDoubleAbsent(s[1..]);
      assert [s[0]] + s[1..] == s;
    }
  }

  lemma {:induction false} SplitDoubleAt(a: string, b: string)
    requires NoDouble(a) && (a == "" || a[|a| - 1] != ':') && NoDouble(b)
    ensures SplitDouble(a + "::" + b) == [a, b]
  {
    var s := a + "::" + b;
    if a == "" {
      assert s[2..] == b;
      SplitDoubleAbsent(b);
    } else {
      var a' := a[1..];
      assert s[1..] == a' + "::" + b;
      if a' != "" {
        assert a'[|a'| - 1] == a[|a| - 1];
        assert s[1] == a[1];
      }
      SplitDoubleAt(a', b);
      assert [s[0]] + a' == a;
    }
  }

  lemma {:induction false} SplitDoubleJoins(s: string)
    ensures var parts := SplitDouble(s);
            && (|parts| == 1 ==> parts[0] == s)
            && (|parts| == 2 ==> s == parts[0] + "::" + parts[1])
    decreases |s|
  {
    if |s| >= 2 {
      if s[0] == ':' && s[1] == ':' {
        SplitDoubleJoins(s[2..]);
        assert s == "" + "::" + s[2..];
      } else {
        SplitDoubleJoins(s[1..]);
        assert s == [s[0]] + s[1..];
      }
    }
  }

  lemma GroupFree(g: string, c: char)
    requires IsNumeral(g, 16) && Digit(c) == 16
    ensures c !in g
  {
  }

  /** Joined colon-free, non-empty items have no `::` and no colon at either end. */
  lemma {:induction false} JoinHasNoDouble(items: seq<string>)
    requires forall k :: 0 <= k < |items| ==> items[k] != "" && ':' !in items[k]
    ensures var s := Join(items, ':');
            NoDouble(s) && (s == "" <==> items == []) && (s != "" ==> s[0] != ':' && s[|s| - 1] != ':')
  {
    if |items| > 1 {
      JoinHasNoDouble(items[1..]);
      var s, t := Join(items, ':'), Join(items[1..], ':');
      var n := |items[0]|;
      forall i, j | 0 <= i < j < |s| && j == i + 1
        ensures !(s[i] == ':' && s[j] == ':')
      {
        if i < n {
          assert s[i] == items[0][i];
        } else if i > n {
          assert s[i] == t[i - n - 1] && s[j] == t[j - n - 1];
        }
      }
    }
  }

  lemma {:induction false} JoinAvoids(items: seq<string>, sep: char, c: char)
    requires c != sep && Free(items, c)
    ensures c !in Join(items, sep)
  {
    if |items| > 1 {
      assert forall k :: 0 <= k < |items[1..]| ==> items[1..][k] == items[k + 1];
      JoinAvoids(items[1..], sep, c);
    }
  }

  // ---- every spelling is parsed to its value -----------------------------------

  lemma DotFreeIsUnchanged(s: string)
    requires '.' !in s
    ensures RewriteQuad(s) == Some(s)
  {
    var i := AfterLastColon(s);
    SplitAbsent(s[i..], '.');
  }

  lemma GroupsAreClean(gs: seq<string>)
    requires AllGroups(gs)
    ensures Free(gs, ':') && Free(gs, '.')
    ensures '.' !in Join(gs, ':')
    ensures var s := Join(gs, ':');
            NoDouble(s) && (s == "" <==> gs == []) && (s != "" ==> s[0] != ':' && s[|s| - 1] != ':')
    ensures GroupTexts(Join(gs, ':')) == gs
  {
    forall k | 0 <= k < |gs| ensures ':' !in gs[k] && '.' !in gs[k] {
      GroupFree(gs[k], ':');
      GroupFree(gs[k], '.');
    }
    JoinAvoids(gs, ':', '.');
    JoinHasNoDouble(gs);
    if gs != [] {
      SplitOfJoin(gs, ':');
    }
  }

  lemma FullFormParses(gs: seq<string>)
    requires AllGroups(gs) && |gs| == 8
    ensures ExpandIpv6(Join(gs, ':')) == Some(GroupValues(gs))
  {
    GroupsAreClean(gs);
    DotFreeIsUnchanged(Join(gs, ':'));
    SplitDoubleAbsent(Join(gs, ':'));
  }

  lemma GapFormParses(head: seq<string>, tail: seq<string>)
    requires AllGroups(head) && AllGroups(tail) && |head| + |tail| < 8
    ensures ExpandIpv6(Join(head, ':') + "::" + Join(tail, ':'))
         == Some(GroupValues(head) + Zeros(8 - |head| - |tail|) + GroupValues(tail))
  {
    var a, b := Join(head, ':'), Join(tail, ':');
    var s := a + "::" + b;
    GroupsAreClean(head);
    GroupsAreClean(tail);
    assert RewriteQuad(s) == Some(s) by {
      DotFreeIsUnchanged(s);
    }
    SplitDoubleAt(a, b);
    GapGroupsParse(s, a, b, head, tail);
  }

  lemma GapGroupsParse(s: string, a: string, b: string, head: seq<string>, tail: seq<string>)
    requires SplitDouble(s) == [a, b]
    requires GroupTexts(a) == head && GroupTexts(b) == tail
    requires AllGroups(head) && AllGroups(tail) && |head| + |tail| < 8
    ensures ParseGroups(s) == Some(GroupValues(head) + Zeros(8 - |head| - |tail|) + GroupValues(tail))
  {
  }

  lemma PlainSpellingParses(sp: Spelling)
    requires sp.Valid() && sp.quad == []
    ensures ExpandIpv6(sp.Print()) == Some(sp.Values())
  {
    hide ExpandIpv6;
    NoQuad(sp);
    if sp.gap == 0 {
      FullFormParses(sp.head);
    } else {
      GapFormParses(sp.head, sp.tail);
    }
  }

  lemma NoQuad(sp: Spelling)
    requires sp.quad == []
    ensures sp.gap == 0 ==> sp.Print() == Join(sp.head, ':')
    ensures sp.gap != 0 ==> sp.Print() == Join(sp.head, ':') + "::" + Join(sp.tail, ':')
    ensures sp.gap == 0 && sp.tail == [] ==> sp.Values() == GroupValues(sp.head)
    ensures sp.Values() == GroupValues(sp.head) + Zeros(sp.gap) + GroupValues(sp.tail)
  {
    assert sp.head + [] == sp.head && sp.tail + [] == sp.tail;
  }

  // A dotted quad is first rewritten to two hexadecimal groups.

  function HexPair(quad: seq<string>): seq<string>
    requires |quad| == 4
  {
    var b := Octets(quad);
    [Numeral(b[0] * 256 + b[1], 16), Numeral(b[2] * 256 + b[3], 16)]
  }

  lemma HexPairIsValid(quad: seq<string>)
    requires ValidQuad(quad)
    ensures AllGroups(HexPair(quad))
    ensures GroupValues(HexPair(quad)) == Spelling([], 6, [], quad).QuadValues()
  {
    hide Numeral, NumeralValue;
    var b := Octets(quad);
    assert Power(16, 4) == 65536 by {
      assert Power(16, 1) == 16 && Power(16, 2) == 256 && Power(16, 3) == 4096;
    }
    NumeralLength(b[0] * 256 + b[1], 16, 4);
    NumeralLength(b[2] * 256 + b[3], 16, 4);
    NumeralRoundTrip(b[0] * 256 + b[1], 16);
    NumeralRoundTrip(b[2] * 256 + b[3], 16);
  }

  /** The same address with its dotted quad written as two groups. */
  function Undotted(sp: Spelling): Spelling
    requires |sp.quad| == 4
  {
    if sp.gap == 0 then Spelling(sp.head + HexPair(sp.quad), 0, [], [])
    else Spelling(sp.head, sp.gap, sp.tail + HexPair(sp.quad), [])
  }

  lemma QuadTextIsClean(quad: seq<string>)
    requires ValidQuad(quad)
    ensures ':' !in Join(quad, '.') && Split(Join(quad, '.'), '.') == quad && Join(quad, '.') != ""
  {
    forall k | 0 <= k < 4 ensures ':' !in quad[k] && '.' !in quad[k] {
      assert IsOctetText(quad[k]);
    }
    JoinAvoids(quad, '.', ':');
    SplitOfJoin(quad, '.');
    assert Split("", '.') == [""];
  }

  lemma {:induction false} LastColonBeforeSuffix(p: string, t: string)
    requires p != "" && p[|p| - 1] == ':' && ':' !in t
    ensures AfterLastColon(p + t) == |p|
  {
    if t == "" {
      assert p + t == p;
    } else {
      var s := p + t;
      assert s[..|s| - 1] == p + t[..|t| - 1];
      LastColonBeforeSuffix(p, t[..|t| - 1]);
    }
  }

  lemma QuadSuffixIsRewritten(p: string, quad: seq<string>)
    requires p != "" && p[|p| - 1] == ':' && !HasLineBreak(p) && ValidQuad(quad)
    ensures RewriteQuad(p + Join(quad, '.')) == Some(p + HexPair(quad)[0] + ":" + HexPair(quad)[1])
  {
    var q := Join(quad, '.');
    QuadTextIsClean(quad);
    LastColonBeforeSuffix(p, q);
    assert (p + q)[..|p|] == p && (p + q)[|p|..] == q;
  }

  /** What stands before a final item in joined text. */
  function Lead(items: seq<string>): string {
    if items == [] then "" else Join(items, ':') + ":"
  }

  lemma JoinAfterLead(items: seq<string>, x: string, y: string)
    ensures Join(items + [x], ':') == Lead(items) + x
    ensures Join(items + [x, y], ':') == Lead(items) + x + ":" + y
  {
    assert items + [x, y] == (items + [x]) + [y];
    JoinOfSnoc(items + [x], y, ':');
    if items != [] {
      JoinOfSnoc(items, x, ':');
    } else {
      assert items + [x] == [x];
    }
  }

  /** Everything a spelling prints before its dotted quad. */
  function QuadPrefix(sp: Spelling): string {
    if sp.gap == 0 then Lead(sp.head) else Join(sp.head, ':') + "::" + Lead(sp.tail)
  }

  lemma PrintAroundQuad(sp: Spelling)
    requires |sp.quad| == 4
    ensures sp.Print() == QuadPrefix(sp) + Join(sp.quad, '.')
    ensures Undotted(sp).Print() == QuadPrefix(sp) + HexPair(sp.quad)[0] + ":" + HexPair(sp.quad)[1]
  {
    hide Join, Lead, Numeral;
    var q, hx, hy := Join(sp.quad, '.'), HexPair(sp.quad)[0], HexPair(sp.quad)[1];
    var items := if sp.gap == 0 then sp.head else sp.tail;
    JoinAfterLead(items, q, "");
    JoinAfterLead(items, hx, hy);
    assert items + HexPair(sp.quad) + [] == items + [hx, hy];
    if sp.gap != 0 {
      Regroup(Join(sp.head, ':') + "::", Lead(items), q, "", "");
      Regroup(Join(sp.head, ':') + "::", Lead(items), hx, ":", hy);
    }
  }

  lemma Regroup(a: string, b: string, c: string, d: string, e: string)
    ensures a + (b + c) == a + b + c
    ensures a + (b + c + d + e) == a + b + c + d + e
  {
  }

  lemma NoLineBreakInGroups(gs: seq<string>)
    requires AllGroups(gs)
    ensures !HasLineBreak(Join(gs, ':'))
  {
    var s := Join(gs, ':');
    forall c: char | c == '\n' || c == '\r' || c == '\U{2028}' || c == '\U{2029}' ensures c !in s {
      forall k | 0 <= k < |gs| ensures c !in gs[k] {
        GroupFree(gs[k], c);
      }
      JoinAvoids(gs, ':', c);
    }
  }

  lemma QuadPrefixIsPlain(sp: Spelling)
    requires sp.Valid() && |sp.quad| == 4
    ensures !HasLineBreak(QuadPrefix(sp))
    ensures QuadPrefix(sp) != "" && QuadPrefix(sp)[|QuadPrefix(sp)| - 1] == ':'
  {
    NoLineBreakInGroups(sp.head);
    NoLineBreakInGroups(sp.tail);
  }

  lemma GroupValuesOfAppend(a: seq<string>, b: seq<string>)
    ensures GroupValues(a + b) == GroupValues(a) + GroupValues(b)
    ensures AllGroups(a) && AllGroups(b) ==> AllGroups(a + b)
    ensures GroupValues([]) == []
  {
    hide NumeralValue, IsGroup;
  }

  lemma UndottedIsValid(sp: Spelling)
    requires sp.Valid() && sp.quad != []
    ensures Undotted(sp).Valid() && Undotted(sp).Values() == sp.Values()
  {
    hide GroupValues, AllGroups, HexPair;
    HexPairIsValid(sp.quad);
    var p, q := HexPair(sp.quad), sp.QuadValues();
    assert Undotted(sp).QuadValues() == [];
    assert |p| == 2 by { HexPairLength(sp.quad); }
    GroupValuesOfAppend(sp.head, p);
    GroupValuesOfAppend(sp.tail, p);
    if sp.gap == 0 {
      SumOfNothing(GroupValues(sp.head), GroupValues(p));
    } else {
      assert GroupValues(sp.head) + Zeros(sp.gap) + (GroupValues(sp.tail) + GroupValues(p)) + []
          == GroupValues(sp.head) + Zeros(sp.gap) + GroupValues(sp.tail) + GroupValues(p);
    }
  }

  lemma HexPairLength(quad: seq<string>)
    requires |quad| == 4
    ensures |HexPair(quad)| == 2
  {
  }

  lemma SumOfNothing(a: seq<nat>, b: seq<nat>)
    ensures a + b + Zeros(0) + [] + [] == a + b
    ensures a + Zeros(0) + [] + b == a + b
  {
  }

  /** Every RFC 4291 spelling of an address is read as that address. */
  lemma SpellingParses(sp: Spelling)
    requires sp.Valid()
    ensures ExpandIpv6(sp.Print()) == Some(sp.Values())
  {
    if sp.quad == [] {
      PlainSpellingParses(sp);
    } else {
      UndottedIsValid(sp);
      PlainSpellingParses(Undotted(sp));
      PrintAroundQuad(sp);
      QuadPrefixIsPlain(sp);
      QuadSuffixIsRewritten(QuadPrefix(sp), sp.quad);
      UndottedIsPlain(sp);
    }
  }

  lemma UndottedIsPlain(sp: Spelling)
    requires sp.Valid() && sp.quad != []
    ensures RewriteQuad(Undotted(sp).Print()) == Some(Undotted(sp).Print())
  {
    UndottedIsValid(sp);
    var u := Undotted(sp);
    GroupsAreClean(u.head);
    GroupsAreClean(u.tail);
    assert u.head + [] == u.head && u.tail + [] == u.tail;
    DotFreeIsUnchanged(u.Print());
  }

  // ---- every accepted text is a spelling ----------------------------------------

  /** The spelling read off a text whose `::`-sides and trailing quad are given. */
  lemma PlainTextIsASpelling(s: string) returns (sp: Spelling)
    requires ParseGroups(s).Some?
    ensures sp.Valid() && sp.quad == [] && sp.Print() == s && ParseGroups(s) == Some(sp.Values())
  {
    hide GroupValues, AllGroups, Split, Join, SplitDouble;
    var parts := SplitDouble(s);
    SplitDoubleJoins(s);
    if |parts| == 1 {
      sp := Spelling(Split(s, ':'), 0, [], []);
      JoinOfSplit(s, ':');
      assert sp.head + [] == sp.head;
      GroupValuesOfAppend([], []);
      SumOfNothing(GroupValues(sp.head), []);
      assert GroupValues(sp.head) + [] == GroupValues(sp.head);
      assert AllGroups([]) by { NoGroups(); }
    } else {
      var head, tail := GroupTexts(parts[0]), GroupTexts(parts[1]);
      JoinOfSplit(parts[0], ':');
      JoinOfSplit(parts[1], ':');
      assert Join([], ':') == "" by { NoGroups(); }
      sp := Spelling(head, 8 - |head| - |tail|, tail, []);
      GroupsOfAppend(head, tail);
      assert tail + [] == tail;
      assert GroupValues(head) + Zeros(sp.gap) + GroupValues(tail) + [] == GroupValues(head) + Zeros(sp.gap) + GroupValues(tail);
    }
  }

  lemma NoGroups()
    ensures AllGroups([]) && Join([], ':') == ""
  {
  }

  lemma GroupsOfAppend(a: seq<string>, b: seq<string>)
    requires AllGroups(a + b)
    ensures AllGroups(a) && AllGroups(b)
  {
    hide IsGroup;
    assert forall k :: 0 <= k < |a| ==> (a + b)[k] == a[k];
    assert forall k :: 0 <= k < |b| ==> (a + b)[|a| + k] == b[k];
  }

  lemma LastPieceIsEmpty(l: string)
    requires l == "" || l[|l| - 1] == ':'
    ensures var x := Split(l, ':'); x[|x| - 1] == ""
  {
    if l != "" {
      assert l == l[..|l| - 1] + ":";
      SplitOfAppend(l[..|l| - 1], ":", ':');
      assert Split(":", ':') == ["", ""] by {
        assert ":"[1..] == "";
      }
    }
  }

  lemma SplitEndsInPair(l: string, hx: string, hy: string)
    requires l == "" || l[|l| - 1] == ':'
    requires ':' !in hx && ':' !in hy
    ensures var x := Split(l, ':'); Split(l + hx + ":" + hy, ':') == x[..|x| - 1] + [hx, hy]
  {
    var pair := hx + ":" + hy;
    assert l + hx + ":" + hy == l + pair;
    SplitOfAppend(l, pair, ':');
    LastPieceIsEmpty(l);
    assert Join([hx, hy], ':') == pair by {
      assert [hx, hy][1..] == [hy];
    }
    SplitOfJoin([hx, hy], ':');
    assert "" + hx == hx;
  }

  /** Two colons in a row cannot reach into a trailing pair of groups. */
  lemma DoubleIsBeforePair(a: string, b: string, p: string, hx: string, hy: string)
    requires a + "::" + b == p + hx + ":" + hy
    requires p != "" && p[|p| - 1] == ':' && hx != "" && hy != "" && ':' !in hx && ':' !in hy
    ensures |a| + 2 <= |p| && b == p[|a| + 2..] + hx + ":" + hy
  {
    var s := a + "::" + b;
    var t := p + hx + ":" + hy;
    assert s[|a|] == ':' && s[|a| + 1] == ':';
    assert forall i :: |p| <= i < |t| && t[i] == ':' ==> i == |p| + |hx|;
    assert b == s[|a| + 2..];
  }

  lemma SnocPair(l: string, items: seq<string>, hx: string, hy: string)
    requires Split(l + hx + ":" + hy, ':') == items + [hx, hy]
    ensures Lead(items) == l
  {
    var s := l + hx + ":" + hy;
    JoinOfSplit(s, ':');
    JoinAfterLead(items, hx, hy);
    var n := |s| - (|hx| + 1 + |hy|);
    assert s[..n] == Lead(items);
    assert s[..n] == l;
  }

  lemma TrailingPairOfFull(head: seq<string>, p: string, hx: string, hy: string) returns (items: seq<string>)
    requires GroupTexts(Join(head, ':')) == head && Join(head, ':') == p + hx + ":" + hy
    requires p != "" && p[|p| - 1] == ':' && ':' !in hx && ':' !in hy
    ensures head == items + [hx, hy] && Lead(items) == p
  {
    SplitEndsInPair(p, hx, hy);
    var x := Split(p, ':');
    items := x[..|x| - 1];
    SnocPair(p, items, hx, hy);
  }

  lemma TrailingPairOfTail(a: string, tail: seq<string>, p: string, hx: string, hy: string) returns (items: seq<string>)
    requires GroupTexts(Join(tail, ':')) == tail && a + "::" + Join(tail, ':') == p + hx + ":" + hy
    requires p != "" && p[|p| - 1] == ':' && ':' !in hx && ':' !in hy && hx != "" && hy != ""
    ensures tail == items + [hx, hy] && a + "::" + Lead(items) == p
  {
    DoubleIsBeforePair(a, Join(tail, ':'), p, hx, hy);
    var l := p[|a| + 2..];
    assert p == a + "::" + l by {
      assert p == (p + hx + ":" + hy)[..|p|];
    }
    SplitEndsInPair(l, hx, hy);
    var x := Split(l, ':');
    items := x[..|x| - 1];
    SnocPair(l, items, hx, hy);
  }

  /** Undo the quad rewriting on the spelling of the rewritten text. */
  lemma Redotted(plain: Spelling, p: string, q: seq<string>) returns (sp: Spelling)
    requires plain.Valid() && plain.quad == [] && ValidQuad(q)
    requires p != "" && p[|p| - 1] == ':'
    requires plain.Print() == p + HexPair(q)[0] + ":" + HexPair(q)[1]
    ensures sp.quad == q && Undotted(sp) == plain && QuadPrefix(sp) == p && sp.Valid()
  {
    HexPairIsValid(q);
    var hx, hy := HexPair(q)[0], HexPair(q)[1];
    GroupFree(hx, ':');
    GroupFree(hy, ':');
    assert HexPair(q) == [hx, hy];
    if plain.gap == 0 {
      assert plain.head + [] == plain.head;
      GroupsAreClean(plain.head);
      var items := TrailingPairOfFull(plain.head, p, hx, hy);
      sp := Spelling(items, 0, [], q);
      PrefixOfGroups(plain.head, items, hx, hy);
    } else {
      assert plain.tail + [] == plain.tail;
      GroupsAreClean(plain.tail);
      var items := TrailingPairOfTail(Join(plain.head, ':'), plain.tail, p, hx, hy);
      sp := Spelling(plain.head, plain.gap, items, q);
      PrefixOfGroups(plain.tail, items, hx, hy);
    }
  }

  lemma PrefixOfGroups(gs: seq<string>, items: seq<string>, hx: string, hy: string)
    requires AllGroups(gs) && gs == items + [hx, hy]
    ensures AllGroups(items)
  {
    assert forall k :: 0 <= k < |items| ==> items[k] == gs[k];
  }

  lemma QuadTextIsASpelling(input: string, p: string, q: seq<string>, plain: Spelling) returns (sp: Spelling)
    requires input == p + Join(q, '.') && p != "" && p[|p| - 1] == ':' && ValidQuad(q)
    requires plain.Valid() && plain.quad == []
    requires plain.Print() == p + HexPair(q)[0] + ":" + HexPair(q)[1]
    ensures sp.Valid() && sp.Print() == input && sp.Values() == plain.Values()
  {
    sp := Redotted(plain, p, q);
    UndottedIsValid(sp);
    PrintAroundQuad(sp);
  }

  lemma AcceptedTextIsASpelling(input: string) returns (sp: Spelling)
    requires ExpandIpv6(input).Some?
    ensures sp.Valid() && sp.Print() == input && ExpandIpv6(input) == Some(sp.Values())
  {
    hide ParseGroups;
    sp := PlainTextIsASpelling(RewriteQuad(input).value);
    if RewriteQuad(input) != Some(input) {
      var i := AfterLastColon(input);
      var p, q := input[..i], Split(input[i..], '.');
      assert forall k :: 0 <= k < 4 ==> Octets(q)[k] <= 255;
      JoinOfSplit(input[i..], '.');
      assert input == p + input[i..];
      sp := QuadTextIsASpelling(input, p, q, sp);
    }
  }

  /** s is some RFC 4291 text form of the address h. */
  ghost predicate Spells(s: string, h: seq<nat>) {
    exists sp: Spelling :: sp.Valid() && sp.Print() == s && sp.Values() == h
  }

  /** The parser accepts exactly the text forms, each with its own address. */
  lemma ParserAcceptsExactlyTheTextForms(s: string, h: seq<nat>)
    ensures ExpandIpv6(s) == Some(h) <==> Spells(s, h)
  {
    if ExpandIpv6(s) == Some(h) {
      var sp := AcceptedTextIsASpelling(s);
    }
    if Spells(s, h) {
      var sp: Spelling :| sp.Valid() && sp.Print() == s && sp.Values() == h;
      SpellingParses(sp);
    }
  }

  /** Two texts everybody knows. */
  lemma KnownTexts()
    ensures ExpandIpv6("::1") == Some([0, 0, 0, 0, 0, 0, 0, 1])
    ensures ExpandIpv6("fe80::a") == Some([0xfe80, 0, 0, 0, 0, 0, 0, 10])
  {
    HexValues();
    hide NumeralValue, Digit, ExpandIpv6, IsGroup, Join, Zeros;
    GapText([], ["1"]);
    GapText(["fe80"], ["a"]);
    assert Join([], ':') == "" && Join(["1"], ':') == "1" && Join(["fe80"], ':') == "fe80" && Join(["a"], ':') == "a" by {
      Singles();
    }
    assert "" + "::" + "1" == "::1" && "fe80" + "::" + "a" == "fe80::a";
    assert [] + Zeros(7) + [1] == [0, 0, 0, 0, 0, 0, 0, 1];
    assert [0xfe80] + Zeros(6) + [10] == [0xfe80, 0, 0, 0, 0, 0, 0, 10];
  }

  lemma Singles()
    ensures Join([], ':') == "" && Join(["1"], ':') == "1" && Join(["fe80"], ':') == "fe80" && Join(["a"], ':') == "a"
  {
  }

  lemma HexValues()
    ensures GroupValues([]) == [] && GroupValues(["1"]) == [1] && GroupValues(["a"]) == [10]
    ensures GroupValues(["fe80"]) == [0xfe80]
    ensures IsGroup("1") && IsGroup("a") && IsGroup("fe80")
  {
    AreGroups();
    hide NumeralValue, Digit, IsGroup;
    OneDigit('1');
    OneDigit('a');
    FourDigits('f', 'e', '8', '0');
    HexDigits();
    OneGroup("1");
    OneGroup("a");
    OneGroup("fe80");
    hide GroupValues;
  }

  lemma OneGroup(g: string)
    ensures GroupValues([g]) == [NumeralValue(g, 16)]
    ensures GroupValues([]) == []
  {
    hide NumeralValue;
  }

  lemma AreGroups()
    ensures IsGroup("1") && IsGroup("a") && IsGroup("fe80")
  {
    HexGroup("1");
    HexGroup("a");
    HexGroup("fe80");
    hide IsGroup;
  }

  lemma HexDigits()
    ensures Digit('f') == 15 && Digit('e') == 14 && Digit('8') == 8 && Digit('0') == 0 && Digit('1') == 1 && Digit('a') == 10
  {
  }

  lemma OneDigit(a: char)
    ensures NumeralValue([a], 16) == Digit(a)
  {
    DigitValues("", a, 16);
    assert "" + [a] == [a];
  }

  lemma FourDigits(a: char, b: char, c: char, d: char)
    ensures NumeralValue([a, b, c, d], 16) == ((Digit(a) * 16 + Digit(b)) * 16 + Digit(c)) * 16 + Digit(d)
  {
    hide NumeralValue, Digit;
    OneDigit(a);
    DigitValues([a], b, 16);
    DigitValues([a, b], c, 16);
    DigitValues([a, b, c], d, 16);
    assert [a] + [b] == [a, b] && [a, b] + [c] == [a, b, c] && [a, b, c] + [d] == [a, b, c, d];
  }

  /** Groups around a `::` that fills up to eight. */
  lemma GapText(head: seq<string>, tail: seq<string>)
    requires AllGroups(head) && AllGroups(tail) && |head| + |tail| < 8
    ensures ExpandIpv6(Join(head, ':') + "::" + Join(tail, ':'))
         == Some(GroupValues(head) + Zeros(8 - |head| - |tail|) + GroupValues(tail))
  {
    hide AllGroups, GroupValues, Join, ExpandIpv6;
    var sp := Spelling(head, 8 - |head| - |tail|, tail, []);
    SpellingParses(sp);
    assert tail + [] == tail;
    assert GroupValues(head) + Zeros(sp.gap) + GroupValues(tail) + [] == GroupValues(head) + Zeros(sp.gap) + GroupValues(tail);
  }

  lemma HexGroup(g: string)
    requires 1 <= |g| <= 4 && forall k :: 0 <= k < |g| ==> '0' <= g[k] <= '9' || 'a' <= g[k] <= 'f'
    ensures IsGroup(g)
  {
  }

  lemma GroupValueBound(g: string)
    requires IsGroup(g)
    ensures NumeralValue(g, 16) < 0x10000
  {
    NumeralValueBound(g, 16);
    assert Power(16, 1) == 16 && Power(16, 2) == 256 && Power(16, 3) == 4096 && Power(16, 4) == 65536;
  }

  /** What the parser returns is always eight 16-bit values. */
  lemma AcceptedTextHasEightHextets(s: string)
    requires ExpandIpv6(s).Some?
    ensures var h := ExpandIpv6(s).value; |h| == 8 && forall k :: 0 <= k < 8 ==> h[k] < 0x10000
  {
    hide ExpandIpv6, NumeralValue, IsGroup;
    var sp := AcceptedTextIsASpelling(s);
    forall k | 0 <= k < |sp.head| ensures GroupValues(sp.head)[k] < 0x10000 {
      GroupValueBound(sp.head[k]);
    }
    forall k | 0 <= k < |sp.tail| ensures GroupValues(sp.tail)[k] < 0x10000 {
      GroupValueBound(sp.tail[k]);
    }
  }

  // ---- printing ------------------------------------------------------------------

  function HexGroups(h: seq<nat>): (gs: seq<string>)
    ensures |gs| == |h|
  {
    seq(|h|, k requires 0 <= k < |h| => Numeral(h[k], 16))
  }

  function DecimalQuad(x: nat, y: nat): seq<string> {
    [Numeral(x / 256, 10), Numeral(x % 256, 10), Numeral(y / 256, 10), Numeral(y % 256, 10)]
  }

  /** h printed with `::` over the run h[at..at+gap] and optionally a dotted tail. */
  function SpellingOf(h: Hextets, at: nat, gap: nat, dotted: bool): Spelling
    requires at + gap <= (if dotted then 6 else 8)
  {
    var end := if dotted then 6 else 8;
    var quad := if dotted then DecimalQuad(h[6], h[7]) else [];
    if gap == 0 then Spelling(HexGroups(h[..end]), 0, [], quad)
    else Spelling(HexGroups(h[..at]), gap, HexGroups(h[at + gap..end]), quad)
  }

  lemma HexGroupsRoundTrip(h: seq<nat>)
    requires forall k :: 0 <= k < |h| ==> h[k] < 0x10000
    ensures AllGroups(HexGroups(h)) && GroupValues(HexGroups(h)) == h
  {
    assert Power(16, 1) == 16 && Power(16, 2) == 256 && Power(16, 3) == 4096 && Power(16, 4) == 65536;
    forall k | 0 <= k < |h| ensures IsGroup(HexGroups(h)[k]) && NumeralValue(HexGroups(h)[k], 16) == h[k] {
      NumeralLength(h[k], 16, 4);
      NumeralRoundTrip(h[k], 16);
    }
  }

  lemma DecimalQuadRoundTrip(x: nat, y: nat)
    requires x < 0x10000 && y < 0x10000
    ensures var q := DecimalQuad(x, y);
            && ValidQuad(q)
            && Octets(q)[0] * 256 + Octets(q)[1] == x && Octets(q)[2] * 256 + Octets(q)[3] == y
  {
    assert Power(10, 1) == 10 && Power(10, 2) == 100 && Power(10, 3) == 1000;
    forall n: nat | n < 256 ensures IsOctetText(Numeral(n, 10)) && NumeralValue(Numeral(n, 10), 10) == n {
      NumeralLength(n, 10, 3);
      NumeralRoundTrip(n, 10);
    }
  }

  /** What the spelling of an address stands for. */
  lemma SpellingOfValues(h: Hextets, at: nat, gap: nat, dotted: bool)
    requires at + gap <= (if dotted then 6 else 8)
    requires forall k :: at <= k < at + gap ==> h[k] == 0
    ensures SpellingOf(h, at, gap, dotted).Values() == h
  {
    hide GroupValues, AllGroups, HexGroups, DecimalQuad;
    var sp := SpellingOf(h, at, gap, dotted);
    var end := if dotted then 6 else 8;
    SpellingOfIsValid(h, at, gap, dotted);
    if gap == 0 {
      HexGroupsRoundTrip(h[..end]);
      GroupValuesOfAppend([], []);
      SumOfNothing(h[..end], sp.QuadValues());
    } else {
      HexGroupsRoundTrip(h[..at]);
      HexGroupsRoundTrip(h[at + gap..end]);
      assert h[at..at + gap] == Zeros(gap);
      assert h[..end] == h[..at] + h[at..at + gap] + h[at + gap..end];
    }
    assert h == h[..end] + if dotted then h[6..] else [];
  }

  /** Round trip: whichever zero run is compressed and however the tail is written. */
  lemma PrintThenExpand(h: Hextets, at: nat, gap: nat, dotted: bool)
    requires at + gap <= (if dotted then 6 else 8)
    requires forall k :: at <= k < at + gap ==> h[k] == 0
    ensures ExpandIpv6(SpellingOf(h, at, gap, dotted).Print()) == Some(h)
  {
    SpellingOfIsValid(h, at, gap, dotted);
    SpellingOfValues(h, at, gap, dotted);
    SpellingParses(SpellingOf(h, at, gap, dotted));
  }

  lemma HexGroupsOfSlice(h: Hextets, i: nat, j: nat)
    requires i <= j <= 8
    ensures AllGroups(HexGroups(h[i..j]))
  {
    HexGroupsRoundTrip(h[i..j]);
  }

  lemma DottedTail(h: Hextets, sp: Spelling)
    requires sp.quad == DecimalQuad(h[6], h[7])
    ensures sp.QuadValues() == h[6..]
  {
    hide Numeral, NumeralValue, IsNumeral;
    DecimalQuadRoundTrip(h[6], h[7]);
    assert h[6..] == [h[6], h[7]];
  }

  lemma SpellingOfIsValid(h: Hextets, at: nat, gap: nat, dotted: bool)
    requires at + gap <= (if dotted then 6 else 8)
    ensures SpellingOf(h, at, gap, dotted).Valid()
    ensures SpellingOf(h, at, gap, dotted).QuadValues() == if dotted then h[6..] else []
  {
    hide Numeral, NumeralValue, HexGroups, DecimalQuad;
    var sp := SpellingOf(h, at, gap, dotted);
    var end := if dotted then 6 else 8;
    HexGroupsOfSlice(h, 0, end);
    HexGroupsOfSlice(h, 0, at);
    HexGroupsOfSlice(h, at + gap, end);
    assert h[..end] == h[0..end] && h[..at] == h[0..at];
    DecimalQuadRoundTrip(h[6], h[7]);
    assert sp.Valid();
    if dotted {
      DottedTail(h, sp);
    }
  }
}
