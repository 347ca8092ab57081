// Strings as the JavaScript runtime treats them: splitting and joining on one
// separator, and positional numerals (`toString(base)`, `parseInt`, `\d`).
module Text {

  datatype Option<+T> = None | Some(value: T)

  /** A string variable that counts as true: neither missing nor empty. */
  predicate Truthy(s: Option<string>) {
    s.Some? && s.value != ""
  }

  /** Writing under this key adds a property to a plain object; `__proto__` sets its prototype instead. */
  predicate Settable(key: string) {
    key != "__proto__"
  }

  // ---- split and join -----------------------------------------------------

  /** `s.split(sep)` for a one-character separator. */
  function Split(s: string, sep: char): (parts: seq<string>)
    ensures |parts| >= 1
  {
    if s == "" then [""]
    else if s[0] == sep then [""] + Split(s[1..], sep)
    else var rest := Split(s[1..], sep); [[s[0]] + rest[0]] + rest[1..]
  }

  /** `parts.join(sep)`. */
  function Join(parts: seq<string>, sep: char): string {
    if |parts| == 0 then ""
    else if |parts| == 1 then parts[0]
    else parts[0] + [sep] + Join(parts[1..], sep)
  }

  ghost predicate Free(parts: seq<string>, sep: char) {
    forall k :: 0 <= k < |parts| ==> sep !in parts[k]
  }

  lemma {:induction false} JoinOfSplit(s: string, sep: char)
    ensures Join(Split(s, sep), sep) == s
    ensures Free(Split(s, sep), sep)
  {
    if s != "" {
      JoinOfSplit(s[1..], sep);
      var rest := Split(s[1..], sep);
      if s[0] == sep {
        assert Split(s, sep)[1..] == rest;
      } else {
        var all := Split(s, sep);
        assert all[0] == [s[0]] + rest[0] && all[1..] == rest[1..];
        if |all| > 1 {
          assert Join(all, sep) == [s[0]] + Join(rest, sep);
        }
      }
    }
  }

  lemma {:induction false} SplitOfJoin(parts: seq<string>, sep: char)
    requires |parts| >= 1 && Free(parts, sep)
    ensures Split(Join(parts, sep), sep) == parts
    decreases |parts|, |parts[0]|
  {
    var s := Join(parts, sep);
    if parts[0] == "" {
      if |parts| > 1 {
        SplitOfJoin(parts[1..], sep);
        assert s[1..] == Join(parts[1..], sep);
      }
    } else {
      var shorter := [parts[0][1..]] + parts[1..];
      assert shorter[1..] == parts[1..];
      assert forall k :: 0 <= k < |shorter| ==> k > 0 ==> shorter[k] == parts[k];
      assert Free(shorter, sep);
      SplitOfJoin(shorter, sep);
      assert s[0] == parts[0][0];
      assert s[1..] == Join(shorter, sep);
      assert [s[0]] + shorter[0] == parts[0];
    }
  }

  /** Joined text of separator-free, non-empty parts determines the parts. */
  lemma JoinInjective(a: seq<string>, b: seq<string>, sep: char)
    requires Free(a, sep) && Free(b, sep)
    requires |a| >= 1 && |b| >= 1
    requires Join(a, sep) == Join(b, sep)
    ensures a == b
  {
    SplitOfJoin(a, sep);
    SplitOfJoin(b, sep);
  }

  /** Two split texts put side by side: the piece at the seam is shared. */
  function Glue(x: seq<string>, y: seq<string>): seq<string>
    requires |x| >= 1 && |y| >= 1
  {
    x[..|x| - 1] + [x[|x| - 1] + y[0]] + y[1..]
  }

  lemma GlueExtendsHead(c: char, x: seq<string>, y: seq<string>)
    requires |x| >= 1 && |y| >= 1
    ensures var z := Glue(x, y);
            Glue([[c] + x[0]] + x[1..], y) == [[c] + z[0]] + z[1..]
  {
    var z := Glue(x, y);
    var left, right := Glue([[c] + x[0]] + x[1..], y), [[c] + z[0]] + z[1..];
    if |x| == 1 {
      assert [c] + (x[0] + y[0]) == ([c] + x[0]) + y[0];
    }
    assert |left| == |right|;
    assert forall k :: 0 <= k < |left| ==> left[k] == right[k];
  }

  lemma GlueExtendsList(p: string, x: seq<string>, y: seq<string>)
    requires |x| >= 1 && |y| >= 1
    ensures Glue([p] + x, y) == [p] + Glue(x, y)
  {
    var left, right := Glue([p] + x, y), [p] + Glue(x, y);
    assert |left| == |right|;
    assert forall k :: 0 <= k < |left| ==> left[k] == right[k];
  }

  lemma {:induction false} SplitOfAppend(a: string, b: string, sep: char)
    ensures Split(a + b, sep) == Glue(Split(a, sep), Split(b, sep))
  {
    if a == "" {
      var y := Split(b, sep);
      assert a + b == b && "" + y[0] == y[0];
      assert Glue([""], y) == y;
    } else {
      SplitOfAppend(a[1..], b, sep);
      var x, y := Split(a[1..], sep), Split(b, sep);
      assert (a + b)[1..] == a[1..] + b;
      if a[0] == sep {
        GlueExtendsList("", x, y);
      } else {
        GlueExtendsHead(a[0], x, y);
      }
    }
  }

  lemma {:induction false} SplitAbsent(s: string, sep: char)
    requires sep !in s
    ensures Split(s, sep) == [s]
  {
    if s != "" {
      SplitAbsent(s[1..], sep);
      assert [s[0]] + s[1..] == s;
    }
  }

  lemma {:induction false} JoinOfSnoc(parts: seq<string>, last: string, sep: char)
    requires |parts| >= 1
    ensures Join(parts + [last], sep) == Join(parts, sep) + [sep] + last
  {
    if |parts| == 1 {
      assert (parts + [last])[1..] == [last];
    } else {
      JoinOfSnoc(parts[1..], last, sep);
      assert (parts + [last])[1..] == parts[1..] + [last];
    }
  }

  // ---- case and white space --------------------------------------------------------

  /** `toLowerCase()` for ASCII; other characters are left as they are. */
  function LowerChar(c: char): char {
    if 'A' <= c <= 'Z' then ((c as int) + 32) as char else c
  }

  function Lower(s: string): (l: string)
    ensures |l| == |s|
  {
    seq(|s|, k requires 0 <= k < |s| => LowerChar(s[k]))
  }

  /** The same ASCII letter in either case, or the same character. */
  predicate SameLetter(a: char, b: char) {
    a == b || ('A' <= a <= 'Z' && b as int == a as int + 32) || ('A' <= b <= 'Z' && a as int == b as int + 32)
  }

  ghost predicate SameIgnoringCase(a: string, b: string) {
    |a| == |b| && forall k :: 0 <= k < |a| ==> SameLetter(a[k], b[k])
  }

  /** Lower-casing makes equal exactly the texts that differ in case only. */
  lemma LowerIgnoresCase(a: string, b: string)
    ensures Lower(a) == Lower(b) <==> SameIgnoringCase(a, b)
  {
    forall x: char, y: char ensures LowerChar(x) == LowerChar(y) <==> SameLetter(x, y) {
    }
    if Lower(a) == Lower(b) {
      assert forall k :: 0 <= k < |a| ==> Lower(a)[k] == LowerChar(a[k]) && Lower(b)[k] == LowerChar(b[k]);
    }
  }

  lemma LowerOfLetters()
    ensures Lower("ABCDEFGHIJKLMNOPQRSTUVWXYZ") == "abcdefghijklmnopqrstuvwxyz"
    ensures forall s :: (forall k :: 0 <= k < |s| ==> !('A' <= s[k] <= 'Z')) ==> Lower(s) == s
  {
  }

  predicate IsSpace(c: char) {
    || c == ' ' || '\t' <= c <= '\r' || c == '\U{00A0}' || c == '\U{1680}' || '\U{2000}' <= c <= '\U{200A}'
    || c == '\U{2028}' || c == '\U{2029}' || c == '\U{202F}' || c == '\U{205F}' || c == '\U{3000}' || c == '\U{FEFF}'
  }

  function TrimStart(s: string): string {
    if s != "" && IsSpace(s[0]) then TrimStart(s[1..]) else s
  }

  function TrimEnd(s: string): string {
    if s != "" && IsSpace(s[|s| - 1]) then TrimEnd(s[..|s| - 1]) else s
  }

  /** `s.trim()`. */
  function Trim(s: string): string {
    TrimStart(TrimEnd(s))
  }

  predicate AllSpace(s: string) {
    forall k :: 0 <= k < |s| ==> IsSpace(s[k])
  }

  lemma {:induction false} TrimStartOf(a: string, s: string)
    requires AllSpace(a) && (s != "" ==> !IsSpace(s[0]))
    ensures TrimStart(a + s) == s
  {
    hide IsSpace;
    if a == "" {
      assert a + s == s;
    } else {
      assert (a + s)[1..] == a[1..] + s;
      TrimStartOf(a[1..], s);
    }
  }

  /** Trimming at the end does not reach past a character that is no space. */
  lemma {:induction false} TrimEndPast(s: string, b: string)
    requires s != "" && !IsSpace(s[|s| - 1])
    ensures TrimEnd(s + b) == s + TrimEnd(b)
    ensures AllSpace(b) ==> TrimEnd(b) == ""
  {
    hide IsSpace;
    if b == "" {
      assert s + b == s;
    } else {
      var n := |b| - 1;
      assert (s + b)[..|s + b| - 1] == s + b[..n] && (s + b)[|s + b| - 1] == b[n];
      TrimEndPast(s, b[..n]);
    }
  }

  /** Exactly the white space around a text goes. */
  lemma TrimOf(a: string, s: string, b: string)
    requires AllSpace(a) && AllSpace(b)
    requires s != "" && !IsSpace(s[0]) && !IsSpace(s[|s| - 1])
    ensures Trim(a + s + b) == s
  {
    hide IsSpace, TrimStart, TrimEnd;
    TrimEndPast(a + s, b);
    assert a + s + "" == a + s;
    TrimStartOf(a, s);
  }

  lemma LowerOfAppend(a: string, b: string)
    ensures Lower(a + b) == Lower(a) + Lower(b)
  {
  }

  /** The first piece ends at the first separator. */
  lemma {:induction false} SplitFirst(s: string, sep: char, rest: string)
    requires sep !in s
    ensures Split(s + [sep] + rest, sep)[0] == s
  {
    var all := s + [sep] + rest;
    if s != "" {
      assert all[1..] == s[1..] + [sep] + rest;
      SplitFirst(s[1..], sep, rest);
      assert s == [s[0]] + s[1..];
    }
  }

  // ---- numerals ------------------------------------------------------------

  /** The value of a lower-case digit, or 16 for any other character. */
  function Digit(c: char): (d: nat)
    ensures d <= 16
  {
    if '0' <= c <= '9' then (c as int) - ('0' as int)
    else if 'a' <= c <= 'f' then (c as int) - ('a' as int) + 10
    else 16
  }

  function DigitChar(d: nat): (c: char)
    requires d < 16
    ensures Digit(c) == d
  {
    "0123456789abcdef"[d]
  }

  predicate IsNumeral(s: string, base: nat) {
    s != "" && forall k :: 0 <= k < |s| ==> Digit(s[k]) < base
  }

  /** `parseInt(s, base)` on a numeral; reads left to right, most significant first. */
  function NumeralValue(s: string, base: nat): nat {
    if s == "" then 0 else Times(base, NumeralValue(s[..|s| - 1], base)) + Digit(s[|s| - 1])
  }

  /** Digits and places have their usual values. */
  lemma DigitValues(s: string, c: char, base: nat)
    ensures '0' <= c <= '9' ==> Digit(c) == c as int - '0' as int
    ensures 'a' <= c <= 'f' ==> Digit(c) == 10 + (c as int - 'a' as int)
    ensures !('0' <= c <= '9') && !('a' <= c <= 'f') ==> Digit(c) == 16
    ensures NumeralValue("", base) == 0 && NumeralValue(s + [c], base) == base * NumeralValue(s, base) + Digit(c)
  {
    assert (s + [c])[..|s|] == s;
    TimesIs(base, NumeralValue(s, base));
  }

  lemma TimesIs(a: nat, b: nat)
    ensures Times(a, b) == a * b
  {
  }

  /** `n.toString(base)`. */
  function Numeral(n: nat, base: nat): (s: string)
    requires 2 <= base <= 16
    ensures IsNumeral(s, base)
  {
    if n < base then [DigitChar(n)] else Numeral(n / base, base) + [DigitChar(n % base)]
  }

  /** base^e for the two bases in use. */
  function Power(base: nat, e: nat): nat {
    if e == 0 then 1 else Times(base, Power(base, e - 1))
  }

  /** base * v, spelled with the constant so that arithmetic stays linear. */
  function Times(base: nat, v: nat): nat {
    if base == 10 then 10 * v else if base == 16 then 16 * v else base * v
  }

  lemma {:induction false} NumeralRoundTrip(n: nat, base: nat)
    requires base == 10 || base == 16
    ensures NumeralValue(Numeral(n, base), base) == n
    decreases n
  {
    var s := Numeral(n, base);
    if n < base {
      assert s[..0] == "";
    } else {
      NumeralRoundTrip(n / base, base);
      assert s[..|s| - 1] == Numeral(n / base, base);
    }
  }

  /** A number below base^k is written with at most k digits. */
  lemma {:induction false} NumeralLength(n: nat, base: nat, k: nat)
    requires base == 10 || base == 16
    requires 1 <= k && n < Power(base, k)
    ensures |Numeral(n, base)| <= k
    decreases n
  {
    if n >= base {
      if k > 1 {
        NumeralLength(n / base, base, k - 1);
      }
    }
  }

  /** A k-digit numeral denotes a number below base^k. */
  lemma {:induction false} NumeralValueBound(s: string, base: nat)
    requires base == 10 || base == 16
    requires s == "" || IsNumeral(s, base)
    ensures NumeralValue(s, base) < Power(base, |s|)
  {
    if s != "" {
      NumeralValueBound(s[..|s| - 1], base);
    }
  }
}
