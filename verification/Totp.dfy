// Time-based one-time passwords: dynamic truncation and code checking
// (section 5.3 of RFC 4226, sections 4 and 5 of RFC 6238).
module Totp {
  import opened Text
  import opened Bits
  import opened Base32

  type Digest = d: seq<Byte> | |d| == 20 witness seq(20, _ => 0)

  /** HMAC-SHA1 of a message under a key. */
  type Hmac = (seq<Byte>, seq<Byte>) -> Digest

  const DIGITS: nat := 6
  const MODULUS: nat := 1_000_000
  const PERIOD_MS: nat := 30_000

  /** A string, or the exception that was thrown instead. */
  datatype Code = Code(text: string) | BadSecret | StepOutOfRange

  // ---- one code ------------------------------------------------------------------------

  /** n bytes, most significant first: `writeBigUInt64BE` for n = 8. */
  function BigEndian(x: nat, n: nat): (b: seq<Byte>)
    ensures |b| == n
  {
    if n == 0 then [] else BigEndian(x / 256, n - 1) + [x % 256]
  }

  function FromBigEndian(b: seq<Byte>): nat {
    if b == [] then 0 else 256 * FromBigEndian(b[..|b| - 1]) + b[|b| - 1]
  }

  /** Where the four code bytes start: the low half of the last byte. */
  function Offset(digest: Digest): (o: nat)
    ensures o + 4 <= 19
  {
    OffsetBound(digest[19]);
    And(digest[19], 0x0f)
  }

  /** The 31-bit number at the offset, reduced to six digits. */
  function Truncate(digest: Digest): nat {
    var o := Offset(digest);
    And(FromBigEndian(digest[o..o + 4]), 0x7fff_ffff) % MODULUS
  }

  /** `padStart(n, '0')`. */
  function PadStart(s: string, n: nat): (p: string)
    ensures |p| >= n && |p| >= |s|
    decreases n - |s|
  {
    if |s| >= n then s else PadStart("0" + s, n)
  }

  function TotpAt(hmac: Hmac, secret: string, step: int): Code {
    if !(0 <= step < 0x1_0000_0000_0000_0000) then StepOutOfRange
    else
      match Decode(secret)
      case None => BadSecret
      case Some(key) => Code.Code(PadStart(Numeral(Truncate(hmac(key, BigEndian(step, 8))), 10), DIGITS))
  }

  lemma OffsetBound(x: nat)
    ensures And(x, 0x0f) <= 15
  {
    assert Ones(4) == 15;
    AndLowMask(x, 4);
    TruncBound(x, 4);
  }

  /** The counter's eight bytes determine the step, and the read never leaves the digest. */
  lemma {:induction false} CounterRoundTrip(x: nat, n: nat)
    requires x < Double(1, 8 * n)
    ensures FromBigEndian(BigEndian(x, n)) == x
  {
    if n > 0 {
      DoubleAdd(1, 8 * (n - 1), 8);
      ByByte(Double(1, 8 * (n - 1)));
      CounterRoundTrip(x / 256, n - 1);
      var b := BigEndian(x, n);
      assert b[..n - 1] == BigEndian(x / 256, n - 1);
    }
  }

  /**
   * Truncation keeps the low 31 bits of the four bytes at the offset: the sign
   * bit of the first byte is dropped.
   */
  lemma TruncationValue(digest: Digest)
    ensures var o := Offset(digest);
            && o == digest[19] % 16
            && Truncate(digest) == FromBigEndian([digest[o] % 128, digest[o + 1], digest[o + 2], digest[o + 3]]) % MODULUS
  {
    var o := Offset(digest);
    assert Ones(4) == 15;
    AndLowMask(digest[19], 4);
    ByFour(digest[19]);
    FourBytes(digest[o], digest[o + 1], digest[o + 2], digest[o + 3]);
    assert digest[o..o + 4] == [digest[o], digest[o + 1], digest[o + 2], digest[o + 3]];
  }

  lemma FourBytes(a: Byte, b: Byte, c: Byte, d: Byte)
    ensures And(FromBigEndian([a, b, c, d]), 0x7fff_ffff) == FromBigEndian([a % 128, b, c, d])
  {
    hide Trunc, FromBigEndian, Ones, And;
    var x1 := a * 256 + b;
    var x2 := x1 * 256 + c;
    var x3 := x2 * 256 + d;
    BigEndianOfFour(a, b, c, d);
    BigEndianOfFour(a % 128, b, c, d);
    OnesOf31();
    AndLowMask(x3, 31);
    TruncSnoc(x2, d, 23);
    TruncSnoc(x1, c, 15);
    TruncSnoc(a, b, 7);
    TruncSeven(a);
  }

  lemma TruncSnoc(x: nat, d: Byte, k: nat)
    ensures Trunc(x * 256 + d, 8 + k) == 256 * Trunc(x, k) + d
  {
    TruncByByte(x * 256 + d, k);
    assert (x * 256 + d) / 256 == x;
  }

  lemma BigEndianOfFour(a: Byte, b: Byte, c: Byte, d: Byte)
    ensures FromBigEndian([a, b, c, d]) == ((a * 256 + b) * 256 + c) * 256 + d
  {
    assert [a, b, c, d][..3] == [a, b, c] && [a, b, c][..2] == [a, b] && [a, b][..1] == [a] && [a][..0] == [];
    assert FromBigEndian([a]) == a;
    assert FromBigEndian([a, b]) == 256 * a + b;
    assert FromBigEndian([a, b, c]) == 256 * (256 * a + b) + c;
  }

  lemma OnesOf31()
    ensures Ones(31) == 0x7fff_ffff
  {
    assert Ones(7) == 0x7f && Ones(11) == 0x7ff && Ones(15) == 0x7fff && Ones(19) == 0x7_ffff;
    assert Ones(23) == 0x7f_ffff && Ones(27) == 0x7ff_ffff;
  }

  lemma TruncByByte(x: nat, k: nat)
    ensures Trunc(x, 8 + k) == 256 * Trunc(x / 256, k) + x % 256
  {
    TruncAdd(x, 8, k);
    ByByte(x);
    ByByte(Trunc(x / 256, k));
  }

  lemma TruncThree(x: nat)
    ensures Trunc(x, 3) == x % 8
  {
    TruncAdd(x, 2, 1);
    ByTwo(x);
    assert Trunc(x / 4, 1) == 2 * Trunc(x / 4 / 2, 0) + x / 4 % 2;
    ByTwo(x / 4 % 2);
  }

  lemma TruncSeven(a: Byte)
    ensures Trunc(a, 7) == a % 128
  {
    hide Trunc, Double, Shr;
    TruncAdd(a, 4, 3);
    ByFour(a);
    TruncThree(a / 16);
    ByFour(a / 16 % 8);
  }

  lemma {:induction false} PadStartPads(s: string, n: nat)
    requires IsNumeral(s, 10) && |s| <= n
    ensures var p := PadStart(s, n);
            |p| == n && IsNumeral(p, 10) && NumeralValue(p, 10) == NumeralValue(s, 10)
    decreases n - |s|
  {
    if |s| < n {
      LeadingZero(s);
      PadStartPads("0" + s, n);
    }
  }

  lemma {:induction false} LeadingZero(s: string)
    requires IsNumeral(s, 10)
    ensures IsNumeral("0" + s, 10) && NumeralValue("0" + s, 10) == NumeralValue(s, 10)
  {
    var z := "0" + s;
    assert z[..|z| - 1] == "0" + s[..|s| - 1];
    if |s| == 1 {
      assert z[..1] == "0" && "0"[..0] == "" && s[..0] == "";
    } else {
      LeadingZero(s[..|s| - 1]);
    }
  }

  /** A code, when there is one, is exactly six digits and has the truncated value. */
  lemma CodeIsSixDigits(hmac: Hmac, secret: string, step: int)
    requires TotpAt(hmac, secret, step).Code?
    ensures var text := TotpAt(hmac, secret, step).text;
            |text| == 6 && IsNumeral(text, 10)
            && NumeralValue(text, 10) == Truncate(hmac(Decode(secret).value, BigEndian(step, 8)))
  {
    hide Decode, BigEndian, Truncate;
    var v := Truncate(hmac(Decode(secret).value, BigEndian(step, 8)));
    TruncateIsSmall(hmac(Decode(secret).value, BigEndian(step, 8)));
    assert Power(10, 1) == 10 && Power(10, 2) == 100 && Power(10, 3) == 1000
      && Power(10, 4) == 10000 && Power(10, 5) == 100000 && Power(10, 6) == 1000000;
    NumeralLength(v, 10, 6);
    NumeralRoundTrip(v, 10);
    PadStartPads(Numeral(v, 10), 6);
  }

  lemma TruncateIsSmall(digest: Digest)
    ensures Truncate(digest) < MODULUS
  {
  }

  // ---- checking a code -----------------------------------------------------------------------

  function TimeStep(nowMs: int): int {
    nowMs / PERIOD_MS
  }

  datatype Verdict = Matched(step: int) | NoMatch | Threw(code: Code)

  predicate SixDigits(code: string) {
    |code| == 6 && IsNumeral(code, 10)
  }

  /** Steps not yet used up: all, or those after the last accepted one. */
  predicate Eligible(step: int, notAfterStep: Option<int>) {
    notAfterStep.Some? ==> step > notAfterStep.value
  }

  /** The first eligible step from `step` on, up to `last`, whose code matches or cannot be computed. */
  function Search(hmac: Hmac, secret: string, code: string, notAfterStep: Option<int>, step: int, last: int): Verdict
    decreases last - step
  {
    if step > last then NoMatch
    else if !Eligible(step, notAfterStep) then Search(hmac, secret, code, notAfterStep, step + 1, last)
    else
      var expected := TotpAt(hmac, secret, step);
      if !expected.Code? then Threw(expected)
      else if expected.text == code then Matched(step)
      else Search(hmac, secret, code, notAfterStep, step + 1, last)
  }

  function Verify(hmac: Hmac, secret: string, code: string, nowMs: int, notAfterStep: Option<int>): Verdict {
    if !SixDigits(code) then NoMatch
    else Search(hmac, secret, code, notAfterStep, TimeStep(nowMs) - 1, TimeStep(nowMs) + 1)
  }

  method VerifyTotp(hmac: Hmac, secret: string, code: string, nowMs: int, notAfterStep: Option<int>) returns (v: Verdict)
    ensures v == Verify(hmac, secret, code, nowMs, notAfterStep)
  {
    hide TotpAt;
    if !SixDigits(code) {
      return NoMatch;
    }
    var current := TimeStep(nowMs);
    var steps := [current - 1, current, current + 1];
    for k := 0 to 3
      invariant Verify(hmac, secret, code, nowMs, notAfterStep)
             == Search(hmac, secret, code, notAfterStep, current - 1 + k, current + 1)
    {
      var step := steps[k];
      if notAfterStep.Some? && step <= notAfterStep.value {
        continue;
      }
      var expected := TotpAt(hmac, secret, step);
      if !expected.Code? {
        return Threw(expected);
      }
      if expected.text == code {
        return Matched(step);
      }
    }
    return NoMatch;
  }

  lemma {:induction false} SearchFindsFirst(
    hmac: Hmac, secret: string, code: string, notAfterStep: Option<int>, step: int, last: int)
    ensures match Search(hmac, secret, code, notAfterStep, step, last)
            case Matched(m) =>
              && step <= m <= last && Eligible(m, notAfterStep) && TotpAt(hmac, secret, m) == Code.Code(code)
              && forall j :: step <= j < m && Eligible(j, notAfterStep) ==> TotpAt(hmac, secret, j) != Code.Code(code)
            case NoMatch =>
              forall j :: step <= j <= last && Eligible(j, notAfterStep) ==> TotpAt(hmac, secret, j) != Code.Code(code)
            case Threw(e) => exists j :: step <= j <= last && TotpAt(hmac, secret, j) == e && !e.Code?
    decreases last - step
  {
    hide TotpAt;
    if step <= last {
      SearchFindsFirst(hmac, secret, code, notAfterStep, step + 1, last);
    }
  }

  /** The search succeeds exactly when some eligible step matches and no eligible one before it throws. */
  lemma {:induction false} SearchMatches(
    hmac: Hmac, secret: string, code: string, notAfterStep: Option<int>, step: int, last: int)
    ensures Search(hmac, secret, code, notAfterStep, step, last).Matched? <==>
              exists m :: && step <= m <= last && Eligible(m, notAfterStep) && TotpAt(hmac, secret, m) == Code.Code(code)
                          && forall j :: step <= j < m && Eligible(j, notAfterStep) ==> TotpAt(hmac, secret, j).Code?
    decreases last - step
  {
    hide TotpAt, Eligible;
    if step <= last {
      SearchMatches(hmac, secret, code, notAfterStep, step + 1, last);
    }
  }

  /** The earliest step that may still be used: one before the current one, or the one after the last accepted. */
  function FirstStep(nowMs: int, last: Option<int>): int {
    if last.Some? && last.value >= nowMs / 30000 - 1 then last.value + 1 else nowMs / 30000 - 1
  }

  /**
   * In the clock's own terms: the code of a step from the first usable one to one
   * after nowMs / 30000. A first step below zero, as in the first minute of 1970,
   * throws unless it is the match, which it cannot be.
   */
  ghost predicate Accepts(hmac: Hmac, secret: string, code: string, nowMs: int, last: Option<int>) {
    && FirstStep(nowMs, last) >= 0
    && exists m :: FirstStep(nowMs, last) <= m <= nowMs / 30000 + 1 && TotpAt(hmac, secret, m) == Code.Code(code)
  }

  lemma AcceptsExactly(hmac: Hmac, secret: string, code: string, nowMs: int, last: Option<int>)
    ensures Verify(hmac, secret, code, nowMs, last).Matched? <==> Accepts(hmac, secret, code, nowMs, last)
    ensures TimeStep(nowMs) == nowMs / 30000
  {
    hide TotpAt, Search, SixDigits, Decode;
    var now, first := nowMs / 30000, FirstStep(nowMs, last);
    SearchMatches(hmac, secret, code, last, now - 1, now + 1);
    forall j ensures TotpAt(hmac, secret, j) == Code.Code(code) ==> SixDigits(code) {
      if TotpAt(hmac, secret, j) == Code.Code(code) {
        OnlySixDigitsMatch(hmac, secret, code, j);
      }
    }
    forall j ensures !TotpAt(hmac, secret, j).Code? <==> Decode(secret) == None || !(0 <= j < 0x1_0000_0000_0000_0000) {
      ThrowsOutOfRange(hmac, secret, j);
    }
    assert forall j :: now - 1 <= j ==> (Eligible(j, last) <==> first <= j);
    assert !TotpAt(hmac, secret, first).Code? ==> Decode(secret) == None || first < 0 || first >= 0x1_0000_0000_0000_0000;
  }

  /** The counter is written with its most significant byte first. */
  lemma ByteOrder()
    ensures FromBigEndian([1, 0]) == 256 && BigEndian(256, 2) == [1, 0]
  {
    assert [1, 0][..1] == [1] && [1][..0] == [];
    assert BigEndian(1, 1) == [1];
    FromBytes([], 1);
    FromBytes([1], 0);
    assert [] + [1] == [1] && [1] + [0] == [1, 0];
  }

  lemma FromBytes(b: seq<Byte>, last: Byte)
    ensures FromBigEndian(b + [last]) == 256 * FromBigEndian(b) + last
  {
    assert (b + [last])[..|b|] == b;
  }

  lemma FromFour(a: Byte, b: Byte, c: Byte, d: Byte)
    ensures FromBigEndian([a, b, c, d]) == ((a * 256 + b) * 256 + c) * 256 + d
  {
    NoBytes();
    hide FromBigEndian;
    FromBytes([], a);
    FromBytes([a], b);
    FromBytes([a, b], c);
    FromBytes([a, b, c], d);
    assert [] + [a] == [a] && [a] + [b] == [a, b] && [a, b] + [c] == [a, b, c] && [a, b, c] + [d] == [a, b, c, d];
  }

  lemma NoBytes()
    ensures FromBigEndian([]) == 0
  {
  }

  /** The example of section 5.4 of RFC 4226: 50 ef 7f 19 at offset 10 is the code 872921. */
  lemma TruncationExample(digest: Digest)
    requires digest[19] == 0x5a && digest[10] == 0x50 && digest[11] == 0xef && digest[12] == 0x7f && digest[13] == 0x19
    ensures Truncate(digest) == 872921
  {
    hide FromBigEndian, Truncate, Offset;
    TruncationValue(digest);
    FromFour(0x50, 0xef, 0x7f, 0x19);
  }

  /** The six digits are the 31 bits at the offset modulo a million. */
  lemma CodeValue(hmac: Hmac, secret: string, step: int)
    requires TotpAt(hmac, secret, step).Code?
    ensures var text, d := TotpAt(hmac, secret, step).text, hmac(Decode(secret).value, BigEndian(step, 8));
            var o := d[19] % 16;
            && |text| == 6 && IsNumeral(text, 10)
            && NumeralValue(text, 10) == FromBigEndian([d[o] % 128, d[o + 1], d[o + 2], d[o + 3]]) % 1000000
  {
    CodeIsSixDigits(hmac, secret, step);
    hide BigEndian, Truncate, Numeral;
    TruncationValue(hmac(Decode(secret).value, BigEndian(step, 8)));
  }

  /**
   * An accepted step lies within one step of the current one, is later than the
   * last accepted one, and its code is the one given; with a usable secret and
   * steps in range, a code is refused only when no such step exists.
   */
  lemma VerifyIsExact(hmac: Hmac, secret: string, code: string, nowMs: int, notAfterStep: Option<int>)
    ensures match Verify(hmac, secret, code, nowMs, notAfterStep)
            case Matched(m) =>
              && -1 <= m - TimeStep(nowMs) <= 1 && Eligible(m, notAfterStep) && TotpAt(hmac, secret, m) == Code.Code(code)
            case NoMatch =>
              forall j :: -1 <= j - TimeStep(nowMs) <= 1 && Eligible(j, notAfterStep) ==>
                TotpAt(hmac, secret, j) != Code.Code(code)
            case Threw(_) => Decode(secret) == None || nowMs < PERIOD_MS || TimeStep(nowMs) >= 0xffff_ffff_ffff_ffff
  {
    hide TotpAt, Search, SixDigits, Decode, Eligible;
    SearchFindsFirst(hmac, secret, code, notAfterStep, TimeStep(nowMs) - 1, TimeStep(nowMs) + 1);
    forall j ensures !SixDigits(code) ==> TotpAt(hmac, secret, j) != Code.Code(code) {
      if TotpAt(hmac, secret, j) == Code.Code(code) {
        OnlySixDigitsMatch(hmac, secret, code, j);
      }
    }
    forall j ensures !TotpAt(hmac, secret, j).Code? ==> Decode(secret) == None || !(0 <= j < 0x1_0000_0000_0000_0000) {
      ThrowsOutOfRange(hmac, secret, j);
    }
  }

  lemma OnlySixDigitsMatch(hmac: Hmac, secret: string, code: string, step: int)
    requires TotpAt(hmac, secret, step) == Code.Code(code)
    ensures SixDigits(code)
  {
    hide TotpAt;
    CodeIsSixDigits(hmac, secret, step);
  }

  lemma ThrowsOutOfRange(hmac: Hmac, secret: string, step: int)
    ensures !TotpAt(hmac, secret, step).Code? <==> Decode(secret) == None || !(0 <= step < 0x1_0000_0000_0000_0000)
  {
    hide Decode, Truncate, BigEndian, Numeral;
  }
}
