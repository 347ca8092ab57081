// Base32 as the authenticator secrets use it (section 6 of RFC 4648, no
// padding characters): two loops over a 32-bit register that is never masked.
module Base32 {
  import opened Text
  import opened Bits

  type Byte = x: nat | x < 256

  const ALPHABET: string := "ABCDEFGHIJKLMNOPQRSTUVWXYZ234567"

  // ---- the bit strings both sides stand for ------------------------------------

  /** Eight bits a byte, in order. */
  function BytesBits(b: seq<Byte>): (bits: seq<bool>)
    ensures |bits| == 8 * |b|
  {
    if b == [] then [] else BytesBits(b[..|b| - 1]) + LowBits(b[|b| - 1], 8)
  }

  /** `ALPHABET.indexOf(c)`, 32 when absent. */
  function Index(c: char): (i: nat)
    ensures i <= 32
  {
    if 'A' <= c <= 'Z' then (c as int) - ('A' as int)
    else if '2' <= c <= '7' then (c as int) - ('2' as int) + 26
    else 32
  }

  /** `ALPHABET[i]`. */
  function Symbol(i: nat): (c: char)
    requires i < 32
  {
    ALPHABET[i]
  }

  lemma IndexOfSymbol(i: nat)
    requires i < 32
    ensures Index(Symbol(i)) == i
  {
  }

  lemma SymbolOfIndex(c: char)
    requires Index(c) < 32
    ensures Symbol(Index(c)) == c
  {
  }

  predicate IsBase32(s: string) {
    forall k :: 0 <= k < |s| ==> Index(s[k]) < 32
  }

  /** Five bits a symbol, in order. */
  function SymbolBits(s: string): (bits: seq<bool>)
    ensures |bits| == 5 * |s|
  {
    if s == "" then [] else SymbolBits(s[..|s| - 1]) + LowBits(Index(s[|s| - 1]), 5)
  }

  ghost predicate AllFalse(b: seq<bool>) {
    forall k :: 0 <= k < |b| ==> !b[k]
  }

  // ---- specification -------------------------------------------------------------

  function Falses(n: nat): (b: seq<bool>)
    ensures |b| == n && AllFalse(b)
  {
    seq(n, _ => false)
  }

  /** Zero bits needed to reach a whole number of five-bit symbols. */
  function PadLength(n: nat): (p: nat)
    ensures p < 5 && (n + p) % 5 == 0
  {
    if n % 5 == 0 then 0 else 5 - n % 5
  }

  lemma FiveAndEightOnes()
    ensures Ones(5) == 31 && Ones(8) == 255
  {
    assert Ones(3) == 7;
    assert Ones(6) == 63;
  }

  /** Five bits to a symbol. */
  function Symbols(bits: seq<bool>): (s: string)
    requires |bits| % 5 == 0
  {
    if bits == [] then ""
    else
      var n := |bits| - 5;
      FiveAndEightOnes();
      Symbols(bits[..n]) + [Symbol(FromBits(bits[n..]))]
  }

  /** Eight bits to a byte. */
  function Bytes(bits: seq<bool>): (b: seq<Byte>)
    requires |bits| % 8 == 0
  {
    if bits == [] then []
    else
      var n := |bits| - 8;
      FiveAndEightOnes();
      Bytes(bits[..n]) + [FromBits(bits[n..])]
  }

  function Encode(b: seq<Byte>): string {
    Symbols(BytesBits(b) + Falses(PadLength(8 * |b|)))
  }

  /**
   * `c.toUpperCase()` for ASCII letters and for every other character whose upper
   * case consists of symbols. The upper case of any other one has a character that
   * decoding neither knows nor skips, so it may as well stay.
   */
  function Upper(c: char): string {
    if 'a' <= c <= 'z' then [((c as int) - 32) as char]
    else if c == '\U{00DF}' then "SS"
    else if c == '\U{0131}' then "I"
    else if c == '\U{017F}' then "S"
    else if c == '\U{FB00}' then "FF"
    else if c == '\U{FB01}' then "FI"
    else if c == '\U{FB02}' then "FL"
    else if c == '\U{FB03}' then "FFI"
    else if c == '\U{FB04}' then "FFL"
    else if c == '\U{FB05}' || c == '\U{FB06}' then "ST"
    else [c]
  }

  /** The class `[\s=-]` that decoding skips. */
  predicate IsSkipped(c: char) {
    c == '=' || c == '-' || IsSpace(c)
  }

  /** `s.replace(/[\s=-]/g, '')`. */
  function Unskipped(s: string): string {
    if s == "" then "" else Unskipped(s[..|s| - 1]) + (if IsSkipped(s[|s| - 1]) then "" else [s[|s| - 1]])
  }

  function Clean(input: string): string {
    if input == "" then "" else Clean(input[..|input| - 1]) + Unskipped(Upper(input[|input| - 1]))
  }

  /** Whole bytes of the symbols' bits; None when a character is no symbol. */
  function Decode(input: string): Option<seq<Byte>> {
    var s := Clean(input);
    if IsBase32(s) then Some(Bytes(SymbolBits(s)[..WholeBytes(|s|)])) else None
  }

  /** The bits of n symbols that make up whole bytes. */
  function WholeBytes(n: nat): (w: nat)
    ensures w <= 5 * n && w % 8 == 0 && 5 * n - w < 8
  {
    8 * (5 * n / 8)
  }

  // ---- the loops --------------------------------------------------------------------

  method Base32Encode(buffer: seq<Byte>) returns (out: string)
    ensures out == Encode(buffer)
  {
    hide *;
    var bits, value: nat := 0, 0;
    out := "";
    Start();
    for i := 0 to |buffer|
      invariant bits < 5
      invariant Emitted(out, value, bits, BytesBits(buffer[..i]))
    {
      ShiftInByte(out, value, bits, buffer[..i], buffer[i]);
      assert buffer[..i + 1] == buffer[..i] + [buffer[i]];
      value := Or(Shl32(value, 8), buffer[i]);
      bits := bits + 8;
      while bits >= 5
        invariant bits < 13
        invariant Emitted(out, value, bits, BytesBits(buffer[..i + 1]))
      {
        EmitSymbol(out, value, bits, BytesBits(buffer[..i + 1]));
        out := out + [Symbol(And(Shr(value, bits - 5), 31))];
        bits := bits - 5;
      }
    }
    assert buffer[..|buffer|] == buffer;
    EmitLast(out, value, bits, buffer);
    if bits > 0 {
      out := out + [Symbol(And(Shl32(value, 5 - bits), 31))];
    }
  }

  method Base32Decode(input: string) returns (r: Option<seq<Byte>>)
    ensures r == Decode(input)
  {
    hide *;
    var clean := Clean(input);
    var bits, value: nat := 0, 0;
    var out: seq<Byte> := [];
    Start();
    for i := 0 to |clean|
      invariant bits < 8
      invariant Collected(out, value, bits, clean[..i])
    {
      var index := Index(clean[i]);
      assert clean[..i + 1] == clean[..i] + [clean[i]];
      if index == 32 {
        BadCharacter(input, clean, i);
        return None;
      }
      ShiftInSymbol(out, value, bits, clean[..i], clean[i]);
      value := Or(Shl32(value, 5), index);
      bits := bits + 5;
      if bits >= 8 {
        EmitByte(out, value, bits, clean[..i + 1]);
        out := out + [And(Shr(value, bits - 8), 255)];
        bits := bits - 8;
      }
    }
    assert clean[..|clean|] == clean;
    CollectLast(out, value, bits, input);
    return Some(out);
  }

  // ---- what each step of the loops does to the bits ----------------------------------

  /** Emitted symbols and the register's pending bits together are `goal`. */
  ghost predicate Emitted(out: string, value: nat, bits: nat, goal: seq<bool>) {
    IsBase32(out) && SymbolBits(out) + LowBits(value, bits) == goal
  }

  /** Emitted bytes and the register's pending bits together are the read symbols. */
  ghost predicate Collected(out: seq<Byte>, value: nat, bits: nat, read: string) {
    IsBase32(read) && BytesBits(out) + LowBits(value, bits) == SymbolBits(read)
  }

  lemma Start()
    ensures Emitted("", 0, 0, BytesBits([])) && Collected([], 0, 0, "")
  {
  }

  lemma SymbolBitsSnoc(s: string, c: char)
    ensures SymbolBits(s + [c]) == SymbolBits(s) + LowBits(Index(c), 5)
  {
    assert (s + [c])[..|s|] == s;
  }

  lemma BytesBitsSnoc(b: seq<Byte>, x: Byte)
    ensures BytesBits(b + [x]) == BytesBits(b) + LowBits(x, 8)
  {
    assert (b + [x])[..|b|] == b;
  }

  lemma ShiftInByte(out: string, value: nat, bits: nat, read: seq<Byte>, b: Byte)
    requires bits < 5 && Emitted(out, value, bits, BytesBits(read))
    ensures Emitted(out, Or(Shl32(value, 8), b), bits + 8, BytesBits(read + [b]))
  {
    hide Or, Shl32, LowBits, IsBase32, SymbolBits, BytesBits;
    FiveAndEightOnes();
    ShiftIn(value, bits, b, 8);
    BytesBitsSnoc(read, b);
  }

  lemma EmitSymbol(out: string, value: nat, bits: nat, goal: seq<bool>)
    requires bits >= 5 && Emitted(out, value, bits, goal)
    ensures var i := And(Shr(value, bits - 5), 31);
            i < 32 && Emitted(out + [Symbol(i)], value, bits - 5, goal)
  {
    hide And, Shr, LowBits, Symbol, Index, SymbolBits;
    TakeSymbol(value, bits);
    SymbolBitsSnoc(out, Symbol(And(Shr(value, bits - 5), 31)));
  }

  lemma EmitLast(out: string, value: nat, bits: nat, buffer: seq<Byte>)
    requires bits < 5 && Emitted(out, value, bits, BytesBits(buffer))
    ensures bits == 0 ==> out == Encode(buffer)
    ensures bits > 0 ==> var i := And(Shl32(value, 5 - bits), 31);
                         i < 32 && out + [Symbol(i)] == Encode(buffer)
  {
    hide And, Shl32, LowBits, Symbol, Index, SymbolBits, Encode, BytesBits, Falses;
    EncodedBits(buffer);
    assert PadLength(8 * |buffer|) == if bits == 0 then 0 else 5 - bits;
    if bits == 0 {
      assert LowBits(value, 0) == [] && Falses(0) == [];
      SymbolBitsInjective(out, Encode(buffer));
    } else {
      PadSymbol(value, bits);
      var c := Symbol(And(Shl32(value, 5 - bits), 31));
      SymbolBitsSnoc(out, c);
      SymbolBitsInjective(out + [c], Encode(buffer));
    }
  }

  lemma BadCharacter(input: string, clean: string, i: nat)
    requires clean == Clean(input) && i < |clean| && Index(clean[i]) == 32
    ensures Decode(input) == None
  {
    hide Index, Clean;
  }

  lemma ShiftInSymbol(out: seq<Byte>, value: nat, bits: nat, read: string, c: char)
    requires bits < 8 && Index(c) < 32 && Collected(out, value, bits, read)
    ensures Collected(out, Or(Shl32(value, 5), Index(c)), bits + 5, read + [c])
  {
    hide Or, Shl32, LowBits, Index, SymbolBits, BytesBits;
    FiveAndEightOnes();
    ShiftIn(value, bits, Index(c), 5);
    SymbolBitsSnoc(read, c);
  }

  lemma EmitByte(out: seq<Byte>, value: nat, bits: nat, read: string)
    requires bits >= 8 && Collected(out, value, bits, read)
    ensures var b := And(Shr(value, bits - 8), 255);
            b < 256 && Collected(out + [b], value, bits - 8, read)
  {
    hide And, Shr, LowBits, Index, SymbolBits, BytesBits;
    TakeByte(value, bits);
    BytesBitsSnoc(out, And(Shr(value, bits - 8), 255));
  }

  lemma CollectLast(out: seq<Byte>, value: nat, bits: nat, input: string)
    requires bits < 8 && Collected(out, value, bits, Clean(input))
    ensures Decode(input) == Some(out)
  {
    hide LowBits, Index, SymbolBits, BytesBits, Clean, Bytes, IsBase32;
    var s := Clean(input);
    assert WholeBytes(|s|) == 8 * |out|;
    assert SymbolBits(s)[..8 * |out|] == BytesBits(out);
    BytesOfBits(BytesBits(out));
    BytesBitsInjective(Bytes(BytesBits(out)), out);
  }

  // What the register's low bits are after each shift, although bits shifted out
  // at the top are simply lost.

  lemma ShiftIn(value: nat, bits: nat, x: nat, k: nat)
    requires x <= Ones(k) && bits + k <= 32
    ensures LowBits(Or(Shl32(value, k), x), bits + k) == LowBits(value, bits) + LowBits(x, k)
  {
    var hi := Trunc(value, 32 - k);
    ShiftedValue(value, k);
    OrDisjoint(hi, x, k);
    LowBitsConcat(hi, x, bits, k);
    LowBitsOfTrunc(value, bits, 32 - k);
  }

  lemma {:induction false} TruncOfDouble(value: nat, k: nat, m: nat)
    ensures Trunc(Double(value, k), m + k) == Double(Trunc(value, m), k)
  {
    if k > 0 {
      TruncOfDouble(value, k - 1, m);
      assert Double(value, k) / 2 == Double(value, k - 1);
    }
  }

  lemma ShiftedValue(value: nat, k: nat)
    requires k <= 32
    ensures Shl32(value, k) == Double(Trunc(value, 32 - k), k)
  {
    TruncOfDouble(value, k, 32 - k);
  }

  lemma TakeSymbol(value: nat, bits: nat)
    requires bits >= 5
    ensures var i := And(Shr(value, bits - 5), 31);
            i < 32 && Index(Symbol(i)) == i
            && LowBits(value, bits) == LowBits(i, 5) + LowBits(value, bits - 5)
  {
    FiveAndEightOnes();
    var x := Shr(value, bits - 5);
    AndLowMask(x, 5);
    TruncBound(x, 5);
    IndexOfSymbol(And(x, 31));
    LowBitsSplit(value, 5, bits - 5);
    LowBitsOfTrunc(x, 5, 5);
  }

  lemma TakeByte(value: nat, bits: nat)
    requires bits >= 8
    ensures var b := And(Shr(value, bits - 8), 255);
            b < 256 && LowBits(value, bits) == LowBits(b, 8) + LowBits(value, bits - 8)
  {
    FiveAndEightOnes();
    var x := Shr(value, bits - 8);
    AndLowMask(x, 8);
    TruncBound(x, 8);
    LowBitsSplit(value, 8, bits - 8);
    LowBitsOfTrunc(x, 8, 8);
  }

  lemma PadSymbol(value: nat, bits: nat)
    requires 0 < bits < 5
    ensures var i := And(Shl32(value, 5 - bits), 31);
            i < 32 && Index(Symbol(i)) == i && LowBits(i, 5) == LowBits(value, bits) + Falses(5 - bits)
  {
    FiveAndEightOnes();
    var k := 5 - bits;
    var x := Shl32(value, k);
    AndLowMask(x, 5);
    TruncBound(x, 5);
    IndexOfSymbol(And(x, 31));
    LowBitsOfTrunc(x, 5, 5);
    LowBitsOfTrunc(Double(value, k), 5, 32);
    LowBitsConcat(value, 0, bits, k);
    ZeroBits(k);
  }

  lemma {:induction false} ZeroBits(k: nat)
    ensures LowBits(0, k) == Falses(k)
  {
    if k > 0 {
      ZeroBits(k - 1);
    }
  }

  // ---- symbols, bytes and bits determine one another --------------------------------

  lemma {:induction false} SymbolsAreBase32(bits: seq<bool>)
    requires |bits| % 5 == 0
    ensures IsBase32(Symbols(bits))
  {
    hide Index, Symbol, FromBits, Ones;
    if bits != [] {
      FiveAndEightOnes();
      SymbolsAreBase32(bits[..|bits| - 5]);
      IndexOfSymbol(FromBits(bits[|bits| - 5..]));
    }
  }

  lemma {:induction false} SymbolsOfBits(bits: seq<bool>)
    requires |bits| % 5 == 0
    ensures IsBase32(Symbols(bits)) && SymbolBits(Symbols(bits)) == bits
  {
    hide Index, Symbol, FromBits, LowBits, Ones, IsBase32;
    SymbolsAreBase32(bits);
    if bits != [] {
      var n := |bits| - 5;
      FiveAndEightOnes();
      SymbolsOfBits(bits[..n]);
      var s := Symbols(bits);
      assert s[..|s| - 1] == Symbols(bits[..n]);
      IndexOfSymbol(FromBits(bits[n..]));
      LowBitsOfFromBits(bits[n..]);
    }
  }

  lemma {:induction false} BytesOfBits(bits: seq<bool>)
    requires |bits| % 8 == 0
    ensures BytesBits(Bytes(bits)) == bits
  {
    hide Index, Symbol, FromBits, LowBits, Ones;
    if bits != [] {
      var n := |bits| - 8;
      BytesOfBits(bits[..n]);
      var b := Bytes(bits);
      assert b[..|b| - 1] == Bytes(bits[..n]);
      LowBitsOfFromBits(bits[n..]);
    }
  }

  lemma {:induction false} SymbolBitsInjective(s: string, t: string)
    requires IsBase32(s) && IsBase32(t) && SymbolBits(s) == SymbolBits(t)
    ensures s == t
  {
    hide Index, Symbol, LowBits;
    if s != "" {
      var n := |s| - 1;
      assert |t| == |s|;
      assert SymbolBits(s[..n]) == SymbolBits(s)[..5 * n] == SymbolBits(t[..n]);
      assert LowBits(Index(s[n]), 5) == SymbolBits(s)[5 * n..] == LowBits(Index(t[n]), 5);
      FiveAndEightOnes();
      LowBitsInjective(Index(s[n]), Index(t[n]), 5);
      SymbolOfIndex(s[n]);
      SymbolOfIndex(t[n]);
      SymbolBitsInjective(s[..n], t[..n]);
      assert s == s[..n] + [s[n]] && t == t[..n] + [t[n]];
    }
  }

  lemma {:induction false} BytesBitsInjective(a: seq<Byte>, b: seq<Byte>)
    requires BytesBits(a) == BytesBits(b)
    ensures a == b
  {
    if a != [] {
      var n := |a| - 1;
      assert |b| == |a|;
      assert BytesBits(a[..n]) == BytesBits(a)[..8 * n] == BytesBits(b[..n]);
      assert LowBits(a[n], 8) == BytesBits(a)[8 * n..] == LowBits(b[n], 8);
      FiveAndEightOnes();
      LowBitsInjective(a[n], b[n], 8);
      BytesBitsInjective(a[..n], b[..n]);
      assert a == a[..n] + [a[n]] && b == b[..n] + [b[n]];
    }
  }

  // ---- the code of RFC 4648 ---------------------------------------------------------

  /** The alphabet of table 3: A to Z, then 2 to 7. */
  lemma AlphabetIs(i: nat)
    requires i < 32
    ensures i < 26 ==> Symbol(i) as int == 'A' as int + i
    ensures i >= 26 ==> Symbol(i) as int == '2' as int + (i - 26)
  {
  }

  /** Bits are read most significant first: 0x66 is 01100110, and its symbols are 12 and 24. */
  lemma BitOrder()
    ensures LowBits(0x66, 8) == [false, true, true, false, false, true, true, false]
    ensures FromBits([false, true, true, false, false]) == 12 && FromBits([true, true, false, false, false]) == 24
  {
    var f, t := false, true;
    hide LowBits;
    LowBit(0x66, 8);
    LowBit(0x33, 7);
    LowBit(0x19, 6);
    LowBit(12, 5);
    LowBit(6, 4);
    LowBit(3, 3);
    LowBit(1, 2);
    LowBit(0, 1);
    assert LowBits(12, 5) == [f, t, t, f, f];
    assert LowBits(24, 5) == [t, t, f, f, f] by {
      LowBit(24, 5);
      LowBit(12, 4);
      LowBit(6, 3);
      LowBit(3, 2);
      LowBit(1, 1);
      LowBit(0, 0);
    }
    FiveAndEightOnes();
    BitsOf(12);
    BitsOf(24);
  }

  lemma LowBit(x: nat, n: nat)
    ensures n > 0 ==> LowBits(x, n) == LowBits(x / 2, n - 1) + [x % 2 == 1]
    ensures LowBits(x, 0) == []
  {
  }

  lemma BitsOf(x: nat)
    requires x < 32
    ensures FromBits(LowBits(x, 5)) == x
  {
    hide LowBits, FromBits;
    FiveAndEightOnes();
    LowBitsOfFromBits(LowBits(x, 5));
    LowBitsInjective(FromBits(LowBits(x, 5)), x, 5);
  }

  /** The first test vector of section 10: "f" is MY. */
  lemma FirstVector()
    ensures Encode([0x66]) == "MY"
  {
    BitOrder();
    hide LowBits, FromBits;
    var f, t := false, true;
    assert [0x66][..0] == [];
    var bits := [f, t, t, f, f, t, t, f, f, f];
    assert BytesBits([0x66]) == [f, t, t, f, f, t, t, f];
    assert Falses(PadLength(8)) == [f, f];
    assert BytesBits([0x66]) + Falses(PadLength(8)) == bits;
    assert bits[..5] == [f, t, t, f, f] && bits[5..] == [t, t, f, f, f];
    assert bits[..5][..0] == [] && bits[..5][0..] == bits[..5];
    assert Symbols(bits[..5]) == [Symbol(12)];
    assert Symbols(bits) == [Symbol(12)] + [Symbol(24)];
    AlphabetIs(12);
    AlphabetIs(24);
  }

  // ---- round trips ------------------------------------------------------------------

  lemma SymbolIsKept(c: char)
    requires Index(c) < 32
    ensures Unskipped(Upper(c)) == [c]
  {
    assert [c][..0] == "";
  }

  lemma {:induction false} CleanBase32(s: string)
    requires IsBase32(s)
    ensures Clean(s) == s
  {
    hide Index, Upper, Unskipped;
    if s != "" {
      CleanBase32(s[..|s| - 1]);
      SymbolIsKept(s[|s| - 1]);
      assert s == s[..|s| - 1] + [s[|s| - 1]];
    }
  }

  lemma EncodedBits(b: seq<Byte>)
    ensures IsBase32(Encode(b)) && SymbolBits(Encode(b)) == BytesBits(b) + Falses(PadLength(8 * |b|))
  {
    hide Index, BytesBits, SymbolBits, Symbols, IsBase32;
    SymbolsOfBits(BytesBits(b) + Falses(PadLength(8 * |b|)));
  }

  /** Encoded text: only symbols, ceil(8n/5) of them, the bytes' bits then zeros. */
  lemma EncodedForm(b: seq<Byte>)
    ensures IsBase32(Encode(b))
    ensures |Encode(b)| == (8 * |b| + 4) / 5
    ensures SymbolBits(Encode(b))[..8 * |b|] == BytesBits(b)
    ensures AllFalse(SymbolBits(Encode(b))[8 * |b|..])
  {
    hide Index, BytesBits, SymbolBits, Encode;
    EncodedBits(b);
  }

  lemma WholeBytesOfEncoded(n: nat)
    ensures WholeBytes((8 * n + 4) / 5) == 8 * n
  {
    var s := (8 * n + 4) / 5;
    assert 0 <= 5 * s - 8 * n < 5;
    assert 5 * s / 8 == n;
  }

  /** Decoding undoes encoding, for every byte string. */
  lemma DecodeOfEncode(b: seq<Byte>)
    ensures Decode(Encode(b)) == Some(b)
  {
    hide Index, Symbols, BytesBits, SymbolBits, Encode, Bytes, Clean, IsBase32;
    EncodedForm(b);
    CleanBase32(Encode(b));
    hide WholeBytes;
    WholeBytesOfEncoded(|b|);
    BytesOfBits(BytesBits(b));
    BytesBitsInjective(Bytes(BytesBits(b)), b);
  }

  /** Text with no leftover symbol and no leftover set bit. */
  ghost predicate Canonical(s: string) {
    && IsBase32(s)
    && |s| % 8 !in {1, 3, 6}
    && AllFalse(SymbolBits(s)[WholeBytes(|s|)..])
  }

  /** The bytes decoded from clean text hold the whole bytes of its bits. */
  lemma DecodedBits(s: string)
    requires IsBase32(s)
    ensures Decode(s).Some?
    ensures var w := WholeBytes(|s|);
            8 * |Decode(s).value| == w && BytesBits(Decode(s).value) == SymbolBits(s)[..w]
  {
    hide Index, Symbols, BytesBits, SymbolBits, Bytes, Clean, IsBase32, WholeBytes;
    CleanBase32(s);
    BytesOfBits(SymbolBits(s)[..WholeBytes(|s|)]);
  }

  /** A text is canonical in length exactly when fewer than five bits are left over. */
  lemma SpareBits(n: nat)
    ensures n % 8 !in {1, 3, 6} <==> 5 * n - WholeBytes(n) < 5
    ensures 5 * n - WholeBytes(n) < 5 <==> (WholeBytes(n) + 4) / 5 == n
  {
    var q, r := n / 8, n % 8;
    assert 5 * n == 8 * (5 * q) + 5 * r;
    assert WholeBytes(n) == 8 * (5 * q) + 8 * (5 * r / 8);
  }

  /** Encoding undoes decoding exactly on the canonical texts. */
  lemma EncodeOfDecode(s: string)
    requires IsBase32(s)
    ensures Decode(s).Some?
    ensures Encode(Decode(s).value) == s <==> Canonical(s)
  {
    hide Index, Symbols, BytesBits, SymbolBits, Encode, Decode, IsBase32, WholeBytes;
    DecodedBits(s);
    SpareBits(|s|);
    var w, bits, e := WholeBytes(|s|), SymbolBits(s), Encode(Decode(s).value);
    EncodedForm(Decode(s).value);
    if Canonical(s) {
      assert |e| == |s|;
      SameHalves(SymbolBits(e), bits, w);
      SymbolBitsInjective(e, s);
    }
  }

  lemma SameHalves(a: seq<bool>, b: seq<bool>, w: nat)
    requires |a| == |b| && w <= |a| && a[..w] == b[..w] && AllFalse(a[w..]) && AllFalse(b[w..])
    ensures a == b
  {
    assert a[w..] == b[w..];
    assert a == a[..w] + a[w..] && b == b[..w] + b[w..];
  }

  // ---- the form shown for typing ------------------------------------------------------

  /** `s.replace(/(.{4})/g, '$1 ')`. */
  function SpaceEveryFour(s: string): string {
    if |s| < 4 then s else s[..4] + " " + SpaceEveryFour(s[4..])
  }

  /** The enrolment script's spaced form of a secret. */
  function Display(s: string): string {
    Trim(SpaceEveryFour(s))
  }

  lemma {:induction false} CleanOfAppend(a: string, b: string)
    ensures Clean(a + b) == Clean(a) + Clean(b)
  {
    hide Upper, Unskipped;
    if b == "" {
      assert a + b == a;
    } else {
      CleanOfAppend(a, b[..|b| - 1]);
      assert (a + b)[..|a + b| - 1] == a + b[..|b| - 1];
    }
  }

  lemma {:induction false} CleanIgnoresSpacing(s: string)
    ensures Clean(SpaceEveryFour(s)) == Clean(s)
  {
    hide Upper, Unskipped;
    if |s| >= 4 {
      CleanIgnoresSpacing(s[4..]);
      CleanOfAppend(s[..4] + " ", SpaceEveryFour(s[4..]));
      CleanOfAppend(s[..4], " ");
      SpaceIsSkipped(' ');
      CleanOfAppend(s[..4], s[4..]);
      assert s == s[..4] + s[4..];
    }
  }

  lemma SpaceIsSkipped(c: char)
    requires IsSpace(c)
    ensures Clean([c]) == ""
  {
    assert [c][..0] == "" && [c][0] == c;
    assert Upper(c) == [c];
    assert Unskipped([c]) == "";
    hide Upper, Unskipped;
    assert Clean([c]) == Clean("") + Unskipped(Upper(c));
  }

  lemma {:induction false} CleanIgnoresTrimEnd(s: string)
    ensures Clean(TrimEnd(s)) == Clean(s)
  {
    hide IsSpace, Clean;
    if s != "" && IsSpace(s[|s| - 1]) {
      CleanIgnoresTrimEnd(s[..|s| - 1]);
      SpaceIsSkipped(s[|s| - 1]);
      CleanOfAppend(s[..|s| - 1], [s[|s| - 1]]);
      assert s == s[..|s| - 1] + [s[|s| - 1]];
    }
  }

  lemma {:induction false} CleanIgnoresTrimStart(s: string)
    ensures Clean(TrimStart(s)) == Clean(s)
  {
    hide IsSpace, Clean;
    if s != "" && IsSpace(s[0]) {
      CleanIgnoresTrimStart(s[1..]);
      SpaceIsSkipped(s[0]);
      CleanOfAppend([s[0]], s[1..]);
      assert s == [s[0]] + s[1..];
    }
  }

  /** A secret typed back as displayed decodes to the same bytes. */
  lemma DisplayDecodesAlike(s: string)
    ensures Decode(Display(s)) == Decode(s)
  {
    CleanIgnoresTrimStart(TrimEnd(SpaceEveryFour(s)));
    CleanIgnoresTrimEnd(SpaceEveryFour(s));
    CleanIgnoresSpacing(s);
  }
}
