// The egress guard's address check: blocked ranges decided from the text a
// resolver returned.
module Ssrf {
  import opened Text
  import opened Bits
  import opened Ipv6

  /** `net.isIP` of the runtime: 4, 6, or 0 for a text that is no address. */
  type NetIsIp = string -> nat

  // ---- normalisation ---------------------------------------------------------------

  /** `replace(/^\[|\]$/g, '')`. */
  function StripBrackets(s: string): string {
    var a := if s != "" && s[0] == '[' then s[1..] else s;
    if a != "" && a[|a| - 1] == ']' then a[..|a| - 1] else a
  }

  /** Trimmed, lower-cased, without brackets and without a zone index. */
  function Normalize(ip: string): string {
    Split(StripBrackets(Lower(Trim(ip))), '%')[0]
  }

  // ---- the check -----------------------------------------------------------------

  /** The four numbers of a dotted quad, or None. */
  function QuadNumbers(ip: string): (r: Option<seq<nat>>)
    ensures r.Some? ==> |r.value| == 4
  {
    var parts := Split(ip, '.');
    if |parts| == 4 && forall k :: 0 <= k < 4 ==> IsNumeral(parts[k], 10) && Octets(parts)[k] <= 255
    then Some(Octets(parts)) else None
  }

  function IsBlockedIpv4(ip: string): bool {
    match QuadNumbers(ip)
    case None => true
    case Some(n) =>
      var a, b := n[0], n[1];
      || a == 0
      || a == 10
      || a == 127
      || (a == 169 && b == 254)
      || (a == 172 && 16 <= b <= 31)
      || (a == 192 && b == 168)
      || (a == 100 && 64 <= b <= 127)
  }

  function EmbeddedIpv4(hi: nat, lo: nat): string {
    Join([Numeral(And(Shr(hi, 8), 0xff), 10), Numeral(And(hi, 0xff), 10),
          Numeral(And(Shr(lo, 8), 0xff), 10), Numeral(And(lo, 0xff), 10)], '.')
  }

  function IsBlockedIpv6(h: Hextets): bool {
    var highZero := forall k :: 0 <= k < 5 ==> h[k] == 0;
    if highZero && h[5] == 0xffff then IsBlockedIpv4(EmbeddedIpv4(h[6], h[7]))
    else if highZero && h[5] == 0 then
      var low := Or(Shl32(h[6], 16), h[7]);
      low == 0 || low == 1 || IsBlockedIpv4(EmbeddedIpv4(h[6], h[7]))
    else if And(h[0], 0xffc0) == 0xfe80 then true
    else And(h[0], 0xfe00) == 0xfc00
  }

  function IsBlockedIp(isIp: NetIsIp, ip: string): bool {
    var addr := Normalize(ip);
    if isIp(addr) == 4 then IsBlockedIpv4(addr)
    else if isIp(addr) == 6 then
      match ExpandIpv6(addr)
      case None => true
      case Some(h) =>
        AcceptedTextHasEightHextets(addr);
        IsBlockedIpv6(h)
    else true
  }

  /** `assertResolvedIpsAllowed`: true when it returns, false when it throws SSRF_BLOCKED. */
  method ResolvedIpsAllowed(isIp: NetIsIp, ips: seq<string>) returns (ok: bool)
    ensures ok <==> ips != [] && forall k :: 0 <= k < |ips| ==> !IsBlockedIp(isIp, ips[k])
  {
    hide *;
    if |ips| == 0 {
      return false;
    }
    for k := 0 to |ips|
      invariant forall j :: 0 <= j < k ==> !IsBlockedIp(isIp, ips[j])
    {
      if IsBlockedIp(isIp, ips[k]) {
        return false;
      }
    }
    return true;
  }

  // ---- addresses as numbers, ranges as CIDR blocks -----------------------------------

  datatype Address = V4(n: nat) | V6(h: Hextets)

  /** A block of 2^free addresses starting at base. */
  datatype Cidr = Cidr(base: nat, free: nat)

  /** n and the base agree on everything but the `free` low bits. */
  predicate InCidr(n: nat, c: Cidr) {
    Shr(n, c.free) == Shr(c.base, c.free)
  }

  const M: nat := 0x1_0000  // 2^16

  /** 0/8, 10/8, 127/8, 169.254/16, 172.16/12, 192.168/16, 100.64/10. */
  const BLOCKED_V4: seq<Cidr> :=
    [Cidr(0, 24), Cidr(10 * 256 * M, 24), Cidr(127 * 256 * M, 24), Cidr((169 * 256 + 254) * M, 16),
     Cidr((172 * 256 + 16) * M, 20), Cidr((192 * 256 + 168) * M, 16), Cidr((100 * 256 + 64) * M, 22)]

  /** The 128-bit number eight hextets stand for. */
  function Number6(h: Hextets): nat {
    h[7] + M * (h[6] + M * (h[5] + M * (h[4] + M * (h[3] + M * (h[2] + M * (h[1] + M * h[0]))))))
  }

  /** fe80::/10 and fc00::/7. */
  const LINK_LOCAL: Cidr := Cidr(Number6([0xfe80, 0, 0, 0, 0, 0, 0, 0]), 118)
  const UNIQUE_LOCAL: Cidr := Cidr(Number6([0xfc00, 0, 0, 0, 0, 0, 0, 0]), 121)

  ghost predicate BlockedV4(n: nat) {
    exists k :: 0 <= k < |BLOCKED_V4| && InCidr(n, BLOCKED_V4[k])
  }

  /**
   * The policy by value. IPv4-mapped (::ffff:0:0/96) and IPv4-compatible (::/96)
   * addresses get the verdict of the IPv4 address in their low 32 bits.
   */
  ghost predicate Blocked(a: Address) {
    match a
    case V4(n) => BlockedV4(n)
    case V6(h) =>
      var n := Number6(h);
      if n / (M * M) == 0xffff || n / (M * M) == 0 then BlockedV4(n % (M * M))
      else InCidr(n, LINK_LOCAL) || InCidr(n, UNIQUE_LOCAL)
  }

  // ---- bit masks are CIDR prefixes ----------------------------------------------------

  lemma DoubleZeroBits(x: nat, y: nat, k: nat)
    ensures Double(x, k) == Double(y, k) <==> x == y
  {
  }

  lemma LinkLocalMask(x: nat)
    requires x < M
    ensures And(x, 0xffc0) == 0xfe80 <==> Shr(x, 6) == 0x3fa
  {
    assert Ones(10) == 0x3ff by { assert Ones(5) == 31; }
    assert Double(0x3ff, 6) == 0xffc0 && Double(0x3fa, 6) == 0xfe80;
    assert Shr(x, 6) <= 0x3ff by { ShrAdd(x, 4, 2); ByFour(x); ByTwo(x / 16); }
    AndHighMask(x, 0x3ff, 6);
    AndLowMask(Shr(x, 6), 10);
    TruncFits(Shr(x, 6), 10);
    DoubleZeroBits(Shr(x, 6), 0x3fa, 6);
  }

  lemma UniqueLocalMask(x: nat)
    requires x < M
    ensures And(x, 0xfe00) == 0xfc00 <==> Shr(x, 9) == 0x7e
  {
    assert Shr(x, 9) <= 0x7f by { ShrAdd(x, 8, 1); ByByte(x); }
    assert Ones(7) == 0x7f by { assert Ones(4) == 15; }
    assert Double(0x7f, 9) == 0xfe00 by { assert Double(0x7f, 5) == 0xfe0; }
    assert Double(0x7e, 9) == 0xfc00 by { assert Double(0x7e, 5) == 0xfc0; }
    AndHighMask(x, 0x7f, 9);
    AndLowMask(Shr(x, 9), 7);
    TruncFits(Shr(x, 9), 7);
    DoubleZeroBits(Shr(x, 9), 0x7e, 9);
  }

  /** Seven hextets below the first one drop out of a shift by 112 and more. */
  lemma TopBits(h: Hextets, k: nat)
    ensures Shr(Number6(h), 112 + k) == Shr(h[0], k)
  {
    hide Shr;
    var x0 := h[0];
    var x1 := h[1] + M * x0;
    var x2 := h[2] + M * x1;
    var x3 := h[3] + M * x2;
    var x4 := h[4] + M * x3;
    var x5 := h[5] + M * x4;
    var x6 := h[6] + M * x5;
    var x7 := h[7] + M * x6;
    ShrByTwoBytes(x7, 96 + k);
    ShrByTwoBytes(x6, 80 + k);
    ShrByTwoBytes(x5, 64 + k);
    ShrByTwoBytes(x4, 48 + k);
    ShrByTwoBytes(x3, 32 + k);
    ShrByTwoBytes(x2, 16 + k);
    ShrByTwoBytes(x1, k);
  }

  lemma MasksAreTheRanges(h: Hextets)
    ensures And(h[0], 0xffc0) == 0xfe80 <==> InCidr(Number6(h), LINK_LOCAL)
    ensures And(h[0], 0xfe00) == 0xfc00 <==> InCidr(Number6(h), UNIQUE_LOCAL)
  {
    hide And, Shr, Number6;
    LinkLocalMask(h[0]);
    UniqueLocalMask(h[0]);
    TopBits(h, 6);
    TopBits(h, 9);
    TopBits([0xfe80, 0, 0, 0, 0, 0, 0, 0], 6);
    TopBits([0xfc00, 0, 0, 0, 0, 0, 0, 0], 9);
    PrefixBits();
  }

  lemma PrefixBits()
    ensures Shr(0xfe80, 6) == 0x3fa && Shr(0xfc00, 9) == 0x7e
  {
    ShiftBelowByte(0xfe80);
    ShrAdd(0xfc00, 8, 1);
    ByByte(0xfc00);
  }

  // ---- the verdict by value ---------------------------------------------------------------

  function QuadValue(n: seq<nat>): nat
    requires |n| == 4
  {
    n[0] * 256 * M + n[1] * M + n[2] * 256 + n[3]
  }

  /** The seven comparisons on the first two octets are the seven blocks. */
  lemma OctetTestsAreTheRanges(ip: string)
    ensures match QuadNumbers(ip)
            case None => IsBlockedIpv4(ip)
            case Some(n) => IsBlockedIpv4(ip) <==> BlockedV4(QuadValue(n))
  {
    match QuadNumbers(ip)
    case None =>
    case Some(n) =>
      assert forall k :: 0 <= k < 4 ==> n[k] <= 255;
      OctetRanges(n[0], n[1], n[2], n[3]);
  }

  lemma OctetRanges(a: nat, b: nat, c: nat, d: nat)
    requires a <= 255 && b <= 255 && c <= 255 && d <= 255
    ensures BlockedV4(QuadValue([a, b, c, d])) <==>
              || a == 0 || a == 10 || a == 127 || (a == 169 && b == 254)
              || (a == 172 && 16 <= b <= 31) || (a == 192 && b == 168) || (a == 100 && 64 <= b <= 127)
  {
    hide InCidr, QuadValue;
    var n := QuadValue([a, b, c, d]);
    forall k: nat | k < |BLOCKED_V4| ensures InCidr(n, BLOCKED_V4[k]) <==> PrefixTest(n, k) {
      BlockTest(n, k);
    }
    assert BlockedV4(n) <==> exists k: nat :: k < 7 && PrefixTest(n, k);
    assert BlockedV4(n) <==> PrefixTest(n, 0) || PrefixTest(n, 1) || PrefixTest(n, 2) || PrefixTest(n, 3)
                             || PrefixTest(n, 4) || PrefixTest(n, 5) || PrefixTest(n, 6);
    Prefixes(a, b, c, d);
  }

  lemma Prefixes(a: nat, b: nat, c: nat, d: nat)
    requires a <= 255 && b <= 255 && c <= 255 && d <= 255
    ensures var n := QuadValue([a, b, c, d]);
            && n / (256 * M) == a && n / M == 256 * a + b
            && n / (16 * M) == 16 * a + b / 16 && n / (64 * M) == 4 * a + b / 64
  {
  }

  /** The prefix of n that block k fixes has the block's value. */
  predicate PrefixTest(n: nat, k: nat) {
    match k
    case 0 => n / (256 * M) == 0
    case 1 => n / (256 * M) == 10
    case 2 => n / (256 * M) == 127
    case 3 => n / M == 169 * 256 + 254
    case 4 => n / (16 * M) == 172 * 16 + 1
    case 5 => n / M == 192 * 256 + 168
    case _ => n / (64 * M) == 100 * 4 + 1
  }

  lemma ShiftBelowByte(x: nat)
    ensures Shr(x, 0) == x && Shr(x, 4) == x / 16 && Shr(x, 6) == x / 64 && Shr(x, 8) == x / 256
  {
    ByByte(x);
    ByFour(x);
    ShrAdd(x, 4, 2);
    ByTwo(x / 16);
  }

  /** A shift by the four block sizes in use, as a division. */
  lemma ShiftAsDivision(n: nat)
    ensures Shr(n, 24) == n / (256 * M) && Shr(n, 16) == n / M
    ensures Shr(n, 20) == n / (16 * M) && Shr(n, 22) == n / (64 * M)
  {
    hide Shr;
    ShrByTwoBytes(n, 0);
    ShrByTwoBytes(n, 8);
    ShrByTwoBytes(n, 4);
    ShrByTwoBytes(n, 6);
    ShiftBelowByte(n / M);
  }

  lemma BlockTest(n: nat, k: nat)
    requires k < |BLOCKED_V4|
    ensures InCidr(n, BLOCKED_V4[k]) <==> PrefixTest(n, k)
  {
    hide Shr;
    ShiftAsDivision(n);
    ShiftAsDivision(BLOCKED_V4[k].base);
  }

  lemma EmbeddedNumbers(hi: nat, lo: nat)
    requires hi < M && lo < M
    ensures var n := QuadNumbers(EmbeddedIpv4(hi, lo)); n.Some? && QuadValue(n.value) == hi * M + lo
  {
    var o := [And(Shr(hi, 8), 0xff), And(hi, 0xff), And(Shr(lo, 8), 0xff), And(lo, 0xff)];
    hide And, Shr;
    ByteOf(hi);
    ByteOf(lo);
    QuadOfNumbers(o);
    assert o == [hi / 256, hi % 256, lo / 256, lo % 256];
  }

  lemma QuadOfNumbers(o: seq<nat>)
    requires |o| == 4 && forall k :: 0 <= k < 4 ==> o[k] <= 255
    ensures QuadNumbers(Join([Numeral(o[0], 10), Numeral(o[1], 10), Numeral(o[2], 10), Numeral(o[3], 10)], '.')) == Some(o)
  {
    hide Numeral, NumeralValue, Join, Split;
    var parts := [Numeral(o[0], 10), Numeral(o[1], 10), Numeral(o[2], 10), Numeral(o[3], 10)];
    NumeralRoundTrip(o[0], 10);
    NumeralRoundTrip(o[1], 10);
    NumeralRoundTrip(o[2], 10);
    NumeralRoundTrip(o[3], 10);
    assert Free(parts, '.') by {
      assert forall k :: 0 <= k < 4 ==> IsNumeral(parts[k], 10);
    }
    SplitOfJoin(parts, '.');
    assert Octets(parts) == o;
  }

  lemma ByteOf(x: nat)
    requires x < M
    ensures And(Shr(x, 8), 0xff) == x / 256 && And(x, 0xff) == x % 256
  {
    assert Ones(8) == 0xff by { assert Ones(4) == 15; }
    AndLowMask(Shr(x, 8), 8);
    AndLowMask(x, 8);
    ByByte(x);
    ByByte(x / 256);
  }

  /** The verdict on eight hextets is the policy on the address they are. */
  lemma HextetTestsAreThePolicy(h: Hextets)
    ensures IsBlockedIpv6(h) <==> Blocked(V6(h))
  {
    hide And, Or, Shl32, BlockedV4, InCidr, IsBlockedIpv4, EmbeddedIpv4, QuadNumbers, Number6;
    EmbeddedNumbers(h[6], h[7]);
    OctetTestsAreTheRanges(EmbeddedIpv4(h[6], h[7]));
    MasksAreTheRanges(h);
    HighPart(h);
    LowWord(h[6], h[7]);
  }

  lemma HighPart(h: Hextets)
    ensures Number6(h) % (M * M) == h[6] * M + h[7]
    ensures Number6(h) / (M * M) == 0 <==> forall k :: 0 <= k < 6 ==> h[k] == 0
    ensures Number6(h) / (M * M) == 0xffff <==> h[5] == 0xffff && forall k :: 0 <= k < 5 ==> h[k] == 0
  {
    var rest := h[5] + M * (h[4] + M * (h[3] + M * (h[2] + M * (h[1] + M * h[0]))));
    assert Number6(h) == M * M * rest + (h[6] * M + h[7]);
    assert Number6(h) / (M * M) == rest;
  }

  /** :: and ::1 are inside 0.0.0.0/8 anyway. */
  lemma LowWord(hi: nat, lo: nat)
    requires hi < M && lo < M
    ensures var low := Or(Shl32(hi, 16), lo);
            low == 0 || low == 1 ==> BlockedV4(hi * M + lo)
  {
    hide InCidr;
    var x := hi * M + lo;
    LowWordIs(hi, lo);
    if hi == 0 {
      BlockTest(x, 0);
      assert PrefixTest(x, 0);
      assert InCidr(x, BLOCKED_V4[0]);
    }
  }

  /** Two hextets shifted and joined in the 32-bit register. */
  lemma LowWordIs(hi: nat, lo: nat)
    requires hi < M && lo < M
    ensures Or(Shl32(hi, 16), lo) == hi * M + lo
  {
    hide Double, Ones, Or, Trunc;
    OnesOf16And32();
    ByTwoBytes(hi);
    TruncFits(hi * M, 32);
    OrDisjoint(hi, lo, 16);
  }

  lemma OnesOf16And32()
    ensures Ones(16) == 0xffff && Ones(32) == 0xffff_ffff
  {
    assert Ones(4) == 0xf && Ones(8) == 0xff && Ones(12) == 0xfff && Ones(16) == 0xffff;
    assert Ones(20) == 0xf_ffff && Ones(24) == 0xff_ffff && Ones(28) == 0xfff_ffff;
  }

  // ---- main result -----------------------------------------------------------------------------

  /** The runtime calls s an address, and s is a text form of a. */
  ghost predicate Denotes(isIp: NetIsIp, s: string, a: Address) {
    match a
    case V4(n) => isIp(s) == 4 && QuadNumbers(s).Some? && QuadValue(QuadNumbers(s).value) == n
    case V6(h) => isIp(s) == 6 && Spells(s, h)
  }

  /** A text denotes at most one address. */
  lemma DenotesOneAddress(isIp: NetIsIp, s: string, a: Address, b: Address)
    requires Denotes(isIp, s, a) && Denotes(isIp, s, b)
    ensures a == b
  {
    if a.V6? {
      ParserAcceptsExactlyTheTextForms(s, a.h);
      ParserAcceptsExactlyTheTextForms(s, b.h);
    }
  }

  /** An address passes exactly when its text denotes a value outside the blocked ranges. */
  lemma AllowedIffUnblockedValue(isIp: NetIsIp, ip: string)
    ensures !IsBlockedIp(isIp, ip) <==> exists a: Address :: Denotes(isIp, Normalize(ip), a) && !Blocked(a)
  {
    hide IsBlockedIpv6, IsBlockedIpv4, BlockedV4, Spells, ExpandIpv6, QuadNumbers, Normalize, QuadValue;
    var s := Normalize(ip);
    OctetTestsAreTheRanges(s);
    if isIp(s) == 4 && QuadNumbers(s).Some? {
      assert Denotes(isIp, s, V4(QuadValue(QuadNumbers(s).value)));
    }
    if isIp(s) == 6 && ExpandIpv6(s).Some? {
      AcceptedTextHasEightHextets(s);
      var h: Hextets := ExpandIpv6(s).value;
      ParserAcceptsExactlyTheTextForms(s, h);
      HextetTestsAreThePolicy(h);
      assert Denotes(isIp, s, V6(h));
    }
    if a: Address :| Denotes(isIp, s, a) && !Blocked(a) {
      if a.V6? {
        ParserAcceptsExactlyTheTextForms(s, a.h);
        HextetTestsAreThePolicy(a.h);
      }
    }
  }

  /** Mapped and compatible IPv6 spellings are judged as the IPv4 address they embed. */
  lemma EmbeddedIpv4Verdict(isIp: NetIsIp, ip4: string, ip6: string, n: nat, h: Hextets)
    requires Denotes(isIp, Normalize(ip4), V4(n)) && Denotes(isIp, Normalize(ip6), V6(h))
    requires h[6] * M + h[7] == n && (h[5] == 0xffff || h[5] == 0) && forall k :: 0 <= k < 5 ==> h[k] == 0
    ensures IsBlockedIp(isIp, ip6) == IsBlockedIp(isIp, ip4)
  {
    hide IsBlockedIpv6, IsBlockedIpv4, BlockedV4, Spells, ExpandIpv6, QuadNumbers, Normalize, QuadValue;
    HighPart(h);
    ParserAcceptsExactlyTheTextForms(Normalize(ip6), h);
    HextetTestsAreThePolicy(h);
    OctetTestsAreTheRanges(Normalize(ip4));
  }

  // ---- addresses as they may be written ----------------------------------------------------------

  /** What address texts in normal form consist of. */
  predicate AddressChar(c: char) {
    '0' <= c <= '9' || 'a' <= c <= 'f' || c == ':' || c == '.'
  }

  predicate AddressText(s: string) {
    s != "" && forall k :: 0 <= k < |s| ==> AddressChar(s[k])
  }

  lemma {:induction false} JoinOfAddressText(items: seq<string>, sep: char)
    requires AddressChar(sep) && forall k :: 0 <= k < |items| ==> AllAddress(items[k])
    ensures AllAddress(Join(items, sep))
  {
    if |items| > 1 {
      JoinOfAddressText(items[1..], sep);
    }
  }

  predicate AllAddress(s: string) {
    forall k :: 0 <= k < |s| ==> AddressChar(s[k])
  }

  lemma NumeralIsAddressText(s: string, base: nat)
    requires IsNumeral(s, base) && base <= 16
    ensures AllAddress(s)
  {
    assert forall k :: 0 <= k < |s| ==> Digit(s[k]) < 16;
  }

  lemma QuadIsAddressText(s: string)
    requires QuadNumbers(s).Some?
    ensures AddressText(s)
  {
    var parts := Split(s, '.');
    JoinOfSplit(s, '.');
    forall k | 0 <= k < |parts| ensures AllAddress(parts[k]) {
      NumeralIsAddressText(parts[k], 10);
    }
    JoinOfAddressText(parts, '.');
    hide Join;
    if s == "" {
      EmptyIsNoQuad();
    }
  }

  lemma EmptyIsNoQuad()
    ensures QuadNumbers("") == None
  {
  }

  lemma SpellingIsAddressText(sp: Spelling)
    requires sp.Valid()
    ensures AddressText(sp.Print())
  {
    GroupsAreAddressText(sp.head);
    GroupsAreAddressText(sp.tail);
    QuadItemsAreAddressText(sp);
    hide IsNumeral, Join, Octets, AllGroups, AddressChar;
    assert AddressChar(':') && AddressChar('.') by { Separators(); }
    JoinOfAddressText(sp.head + sp.QuadItems(), ':');
    JoinOfAddressText(sp.head, ':');
    JoinOfAddressText(sp.tail + sp.QuadItems(), ':');
    if sp.gap == 0 {
      JoinIsLong(sp.head + sp.QuadItems(), ':');
    }
  }

  lemma Separators()
    ensures AddressChar(':') && AddressChar('.')
  {
  }

  lemma JoinIsLong(items: seq<string>, sep: char)
    requires |items| >= 2
    ensures Join(items, sep) != ""
  {
  }

  lemma GroupsAreAddressText(groups: seq<string>)
    requires AllGroups(groups)
    ensures forall k :: 0 <= k < |groups| ==> AllAddress(groups[k])
  {
    forall k | 0 <= k < |groups| ensures AllAddress(groups[k]) {
      NumeralIsAddressText(groups[k], 16);
    }
  }

  lemma QuadItemsAreAddressText(sp: Spelling)
    requires sp.Valid()
    ensures forall k :: 0 <= k < |sp.QuadItems()| ==> AllAddress(sp.QuadItems()[k])
  {
    if sp.quad != [] {
      forall k | 0 <= k < |sp.quad| ensures AllAddress(sp.quad[k]) {
        NumeralIsAddressText(sp.quad[k], 10);
      }
      JoinOfAddressText(sp.quad, '.');
    }
  }

  /** Every text that denotes an address is one of these. */
  lemma DenotedIsAddressText(isIp: NetIsIp, s: string, a: Address)
    requires Denotes(isIp, s, a)
    ensures AddressText(s)
  {
    match a
    case V4(_) => QuadIsAddressText(s);
    case V6(h) =>
      var sp: Spelling :| sp.Valid() && sp.Print() == s && sp.Values() == h;
      SpellingIsAddressText(sp);
  }

  /** The same letters in any case contain no space, bracket or percent sign either. */
  lemma InAnyCase(s: string, x: string)
    requires AddressText(s) && Lower(x) == s
    ensures x != "" && |x| == |s| && '%' !in s
    ensures forall k :: 0 <= k < |x| ==> !IsSpace(x[k]) && x[k] != '[' && x[k] != ']'
    ensures s[0] != '[' && s[|s| - 1] != ']'
  {
    forall k | 0 <= k < |x| ensures !IsSpace(x[k]) && x[k] != '[' && x[k] != ']' {
      assert s[k] == LowerChar(x[k]) && AddressChar(s[k]);
    }
  }

  /** In any case, between white space, in brackets, or with a zone: the normal form is the same. */
  lemma NormalForms(s: string, x: string, before: string, after: string, zone: string)
    requires AddressText(s) && Lower(x) == s && AllSpace(before) && AllSpace(after)
    ensures Normalize(before + x + after) == s
    ensures Normalize(before + "[" + x + "]" + after) == s
    ensures Normalize(before + x + "%" + zone) == s
  {
    InAnyCase(s, x);
    Spaced(s, x, before, after);
    Bracketed(s, x, before, after);
    Zoned(s, x, before, zone);
  }

  lemma Spaced(s: string, x: string, before: string, after: string)
    requires AddressText(s) && Lower(x) == s && AllSpace(before) && AllSpace(after)
    ensures Normalize(before + x + after) == s
  {
    InAnyCase(s, x);
    hide IsSpace, Lower, Split, AddressChar, Trim;
    TrimOf(before, x, after);
    SplitAbsent(s, '%');
  }

  lemma Bracketed(s: string, x: string, before: string, after: string)
    requires AddressText(s) && Lower(x) == s && AllSpace(before) && AllSpace(after)
    ensures Normalize(before + "[" + x + "]" + after) == s
  {
    InAnyCase(s, x);
    var y := "[" + x + "]";
    assert !IsSpace('[') && !IsSpace(']') by { BracketsAreNoSpace(); }
    LowerOfAppend("[" + x, "]");
    LowerOfAppend("[", x);
    assert Lower("[") == "[" && Lower("]") == "]" by { BracketsAreNoSpace(); }
    hide IsSpace, Lower, Split, AddressChar, Trim;
    assert before + y + after == before + "[" + x + "]" + after;
    TrimOf(before, y, after);
    assert Lower(y) == "[" + s + "]";
    assert Lower(y)[1..] == s + "]" && (s + "]")[..|s|] == s;
    SplitAbsent(s, '%');
  }

  lemma BracketsAreNoSpace()
    ensures !IsSpace('[') && !IsSpace(']') && !IsSpace('%')
    ensures Lower("[") == "[" && Lower("]") == "]" && Lower("%") == "%"
  {
  }

  lemma Zoned(s: string, x: string, before: string, zone: string)
    requires AddressText(s) && Lower(x) == s && AllSpace(before)
    ensures Normalize(before + x + "%" + zone) == s
  {
    InAnyCase(s, x);
    BracketsAreNoSpace();
    hide IsSpace, Lower, Split, AddressChar, TrimStart, TrimEnd;
    var p, z := before + x + "%", TrimEnd(zone);
    TrimEndPast(p, zone);
    assert p + z == before + (x + "%" + z);
    TrimStartOf(before, x + "%" + z);
    LowerOfAppend(x + "%", z);
    LowerOfAppend(x, "%");
    var t := s + "%" + Lower(z);
    assert Lower(Trim(before + x + "%" + zone)) == t;
    var rest := if t[|t| - 1] == ']' then Lower(z)[..|z| - 1] else Lower(z);
    assert StripBrackets(t) == s + "%" + rest;
    SplitFirst(s, '%', rest);
  }

  /**
   * The verdict on any such writing of an address is the policy on the address:
   * in capitals, between white space, in brackets, or with a zone.
   */
  lemma VerdictOnWriting(isIp: NetIsIp, s: string, a: Address, x: string, before: string, after: string, zone: string)
    requires Denotes(isIp, s, a) && Lower(x) == s && AllSpace(before) && AllSpace(after)
    ensures IsBlockedIp(isIp, before + x + after) <==> Blocked(a)
    ensures IsBlockedIp(isIp, before + "[" + x + "]" + after) <==> Blocked(a)
    ensures IsBlockedIp(isIp, before + x + "%" + zone) <==> Blocked(a)
  {
    DenotedIsAddressText(isIp, s, a);
    NormalForms(s, x, before, after, zone);
    hide *;
    VerdictByValue(isIp, before + x + after, a);
    VerdictByValue(isIp, before + "[" + x + "]" + after, a);
    VerdictByValue(isIp, before + x + "%" + zone, a);
  }

  lemma VerdictByValue(isIp: NetIsIp, ip: string, a: Address)
    requires Denotes(isIp, Normalize(ip), a)
    ensures IsBlockedIp(isIp, ip) <==> Blocked(a)
  {
    hide IsBlockedIp, Normalize, Blocked, Denotes;
    AllowedIffUnblockedValue(isIp, ip);
    forall b: Address | Denotes(isIp, Normalize(ip), b) ensures b == a {
      DenotesOneAddress(isIp, Normalize(ip), a, b);
    }
  }
}
