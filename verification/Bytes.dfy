/** Go strings are byte sequences.  This module holds the byte type, the decimal
    conversions of `strconv` (`FormatInt`, `ParseInt`, `Atoi`) and the fixed-width
    little-endian integers of `encoding/binary`, each with its round trip. */
module Bytes {
  import opened Arithmetic

  newtype byte = b: int | 0 <= b < 256

  type bytes = seq<byte>

  datatype Option<+T> = None | Some(value: T)

  const CR: byte := 13
  const LF: byte := 10
  const CRLF: bytes := [CR, LF]

  const INT64_MIN: int := -0x8000_0000_0000_0000
  const INT64_MAX: int := 0x7FFF_FFFF_FFFF_FFFF

  predicate IsInt64(i: int) {
    INT64_MIN <= i <= INT64_MAX
  }

  // Text of the program: command names and option names are ASCII words.

  predicate IsLatin(s: string) {
    forall i | 0 <= i < |s| :: s[i] as int < 256
  }

  function Ascii(s: string): bytes
    requires IsLatin(s)
  {
    seq(|s|, i requires 0 <= i < |s| && s[i] as int < 256 => (s[i] as int) as byte)
  }

  function Text(b: bytes): string {
    seq(|b|, i requires 0 <= i < |b| => (b[i] as int) as char)
  }

  lemma TextOfAscii(s: string)
    requires IsLatin(s)
    ensures Text(Ascii(s)) == s
  {
  }

  /** `strings.ToUpper` on ASCII bytes. */
  function ToUpper(b: bytes): (r: bytes)
    ensures |r| == |b|
  {
    seq(|b|, i requires 0 <= i < |b| => if 97 <= b[i] <= 122 then b[i] - 32 else b[i])
  }

  predicate HasUpperOnly(s: string) {
    forall i | 0 <= i < |s| :: 'A' <= s[i] <= 'Z'
  }

  lemma ToUpperOfUpper(s: string)
    requires IsLatin(s) && HasUpperOnly(s)
    ensures ToUpper(Ascii(s)) == Ascii(s)
  {
  }

  // Decimal notation.

  predicate IsDigit(b: byte) {
    48 <= b <= 57
  }

  function Digits(n: nat): (r: bytes)
    ensures |r| > 0 && forall i | 0 <= i < |r| :: IsDigit(r[i])
  {
    var last := (48 + n % 10) as byte;
    if n < 10 then [last] else Digits(n / 10) + [last]
  }

  function FormatInt(i: int): (r: bytes)
    ensures |r| > 0 && LF !in r
  {
    if i < 0 then [45] + Digits(-i) else Digits(i)
  }

  /** The value of a non-empty run of decimal digits. */
  function ParseDigits(s: bytes): Option<nat> {
    if s == [] || !IsDigit(s[|s| - 1]) then None
    else
      var d := s[|s| - 1] as nat - 48;
      if |s| == 1 then Some(d)
      else
        match ParseDigits(s[..|s| - 1])
        case None => None
        case Some(v) => Some(10 * v + d)
  }

  /** `strconv.ParseInt(s, 10, 64)` and `strconv.Atoi` on a 64-bit platform. */
  function ParseInt(s: bytes): (r: Option<int>)
    ensures r.Some? ==> IsInt64(r.value)
  {
    if s == [] then None
    else
      var signed := s[0] == 43 || s[0] == 45;
      match ParseDigits(if signed then s[1..] else s)
      case None => None
      case Some(n) =>
        var m: int := n;
        var v := if s[0] == 45 then -m else m;
        if IsInt64(v) then Some(v) else None
  }

  lemma {:induction false} ParseDigitsRoundTrip(n: nat)
    ensures ParseDigits(Digits(n)) == Some(n)
  {
    if n >= 10 {
      ParseDigitsRoundTrip(n / 10);
      var r := Digits(n);
      assert r[..|r| - 1] == Digits(n / 10);
    }
  }

  lemma ParseIntRoundTrip(i: int)
    requires IsInt64(i)
    ensures ParseInt(FormatInt(i)) == Some(i)
  {
    if i < 0 {
      ParseDigitsRoundTrip(-i);
      assert FormatInt(i)[1..] == Digits(-i);
    } else {
      ParseDigitsRoundTrip(i);
      assert IsDigit(Digits(i)[0]);
    }
  }

  // Lines, as `bufio.Reader.ReadString('\n')` cuts them.

  datatype Line = NoLine | Line(text: bytes, rest: bytes)

  /** Everything up to and including the first line feed. */
  function ReadLine(s: bytes): (r: Line)
    ensures r.Line? ==> |r.text| > 0 && |s| == |r.text| + |r.rest|
  {
    if s == [] then NoLine
    else if s[0] == LF then Line([LF], s[1..])
    else
      match ReadLine(s[1..])
      case NoLine => NoLine
      case Line(t, rest) => Line([s[0]] + t, rest)
  }

  lemma {:induction false} ReadLineSplits(s: bytes)
    ensures match ReadLine(s)
            case NoLine => LF !in s
            case Line(t, rest) => s == t + rest && t[|t| - 1] == LF && LF !in t[..|t| - 1]
  {
    if s != [] && s[0] != LF {
      ReadLineSplits(s[1..]);
      match ReadLine(s[1..])
      case NoLine =>
      case Line(t, rest) =>
        var text := [s[0]] + t;
        assert text[..|text| - 1] == [s[0]] + t[..|t| - 1];
    }
  }

  lemma {:induction false} ReadLineOf(t: bytes, rest: bytes)
    requires LF !in t
    ensures ReadLine(t + [LF] + rest) == Line(t + [LF], rest)
  {
    var s := t + [LF] + rest;
    if t != [] {
      assert s[1..] == t[1..] + [LF] + rest;
      ReadLineOf(t[1..], rest);
      assert t + [LF] == [t[0]] + (t[1..] + [LF]);
    }
  }

  // Little-endian integers.

  /** The `k` low-order bytes of `n`: the unsigned conversion of Go, which truncates. */
  function LE(n: nat, k: nat): (r: bytes)
    ensures |r| == k
  {
    if k == 0 then [] else [(n % 256) as byte] + LE(n / 256, k - 1)
  }

  function LEValue(s: bytes): nat {
    if s == [] then 0 else s[0] as nat + 256 * LEValue(s[1..])
  }

  function Pow256(k: nat): (r: nat)
    ensures r > 0
  {
    if k == 0 then 1 else 256 * Pow256(k - 1)
  }

  lemma {:induction false} LERoundTrip(n: nat, k: nat)
    requires n < Pow256(k)
    ensures LEValue(LE(n, k)) == n
  {
    if k > 0 {
      LERoundTrip(n / 256, k - 1);
      assert LE(n, k)[1..] == LE(n / 256, k - 1);
    }
  }

  lemma {:induction false} LEValueBound(s: bytes)
    ensures LEValue(s) < Pow256(|s|)
  {
    if s != [] {
      LEValueBound(s[1..]);
    }
  }

  const TWO64: int := 0x1_0000_0000_0000_0000

  lemma Pow256Values()
    ensures Pow256(2) == 0x1_0000
    ensures Pow256(4) == 0x1_0000_0000
    ensures Pow256(8) == TWO64
  {
    assert Pow256(1) == 256;
    assert Pow256(3) == 0x100_0000;
    assert Pow256(5) == 0x100_0000_0000;
    assert Pow256(6) == 0x1_0000_0000_0000;
    assert Pow256(7) == 0x100_0000_0000_0000;
  }

  /** A signed 64-bit integer in two's complement. */
  function LE64(i: int): (r: bytes)
    ensures |r| == 8
  {
    LE(i % TWO64, 8)
  }

  function LE64Value(s: bytes): int {
    var u := LEValue(s);
    if u <= INT64_MAX then u else u - TWO64
  }

  lemma LE64RoundTrip(i: int)
    requires IsInt64(i)
    ensures LE64Value(LE64(i)) == i
  {
    Pow256Values();
    LERoundTrip(i % TWO64, 8);
  }

  /** The value an `int64` computation leaves: arithmetic wraps around. */
  function Wrap64(i: int): (r: int)
    ensures IsInt64(r) && (IsInt64(i) ==> r == i)
  {
    var u := i % TWO64;
    if u <= INT64_MAX then u else u - TWO64
  }

  // ---------- What the bytes are ----------

  /** Little-endian: byte number `i` is the digit of weight 256^i, the lowest one first. */
  lemma {:induction false} LEBytes(n: nat, k: nat, i: nat)
    requires i < k
    ensures LE(n, k)[i] as nat == n / Pow256(i) % 256
  {
    if i > 0 {
      LEBytes(n / 256, k - 1, i - 1);
      DivideTwice(n, 256, Pow256(i - 1));
    }
  }

  /** Every byte string is the encoding of its value. */
  lemma {:induction false} LEOfValue(s: bytes)
    ensures LE(LEValue(s), |s|) == s
  {
    if s != [] {
      LEOfValue(s[1..]);
      assert LEValue(s) % 256 == s[0] as nat && LEValue(s) / 256 == LEValue(s[1..]);
      assert s == [s[0]] + s[1..];
    }
  }

  function Pow10(k: nat): (r: nat)
    ensures r > 0
  {
    if k == 0 then 1 else 10 * Pow10(k - 1)
  }

  const DIGITS := "0123456789"

  /** Decimal notation: the digit of weight 10^i stands `i` places before the end, and there
      are no leading zeros. */
  lemma {:induction false} DecimalPlaces(n: nat, i: nat)
    requires i < |Digits(n)|
    ensures var d := Digits(n); d[|d| - 1 - i] == Ascii(DIGITS)[n / Pow10(i) % 10]
    ensures n < Pow10(|Digits(n)|) && (n > 0 ==> n >= Pow10(|Digits(n)| - 1)) && (n == 0 ==> |Digits(n)| == 1)
  {
    if n >= 10 {
      DecimalPlaces(n / 10, if i == 0 then 0 else i - 1);
      if i > 0 {
        DivideTwice(n, 10, Pow10(i - 1));
      }
    }
  }

  /** A minus sign in front of negative numbers. */
  lemma DecimalSign(n: nat)
    ensures FormatInt(n) == Digits(n)
    ensures n > 0 ==> FormatInt(-(n as int)) == Ascii("-") + Digits(n)
  {
  }

  /** The value of a run of digits, the first one having the largest weight. */
  function PlaceValue(s: bytes): int
    requires forall i | 0 <= i < |s| :: IsDigit(s[i])
  {
    if s == [] then 0 else (s[0] as int - 48) * Pow10(|s| - 1) + PlaceValue(s[1..])
  }

  lemma {:induction false} PlaceValueSnoc(s: bytes, d: byte)
    requires forall i | 0 <= i < |s| :: IsDigit(s[i])
    requires IsDigit(d)
    ensures (forall i | 0 <= i < |s + [d]| :: IsDigit((s + [d])[i]))
            && PlaceValue(s + [d]) == 10 * PlaceValue(s) + (d as int - 48)
  {
    if s != [] {
      var t := s + [d];
      assert t[1..] == s[1..] + [d];
      PlaceValueSnoc(s[1..], d);
      Commute(s[0] as int - 48, Pow10(|s| - 1));
    }
  }

  lemma Commute(a: int, b: int)
    ensures a * (10 * b) == 10 * (a * b)
  {
  }

  /** What `ParseInt` accepts, and as which number: an optional sign and at least one digit,
      leading zeros included, within 64 bits. */
  lemma {:induction false} ParseDigitsExactly(s: bytes)
    ensures ParseDigits(s).Some? <==> s != [] && forall i | 0 <= i < |s| :: IsDigit(s[i])
    ensures ParseDigits(s).Some? ==> ParseDigits(s).value == PlaceValue(s)
  {
    if s != [] && IsDigit(s[|s| - 1]) {
      var init := s[..|s| - 1];
      assert s == init + [s[|s| - 1]];
      assert forall i | 0 <= i < |init| :: init[i] == s[i];
      if init == [] {
        PlaceValueSnoc([], s[0]);
      } else {
        ParseDigitsExactly(init);
        if ParseDigits(init).Some? {
          PlaceValueSnoc(init, s[|s| - 1]);
        }
      }
    }
  }

  /** A number within 64 bits. */
  function InRange(n: Option<nat>, negative: bool): Option<int> {
    match n
    case None => None
    case Some(v) =>
      if negative && v <= 0x8000_0000_0000_0000 then Some(-(v as int))
      else if !negative && v < 0x8000_0000_0000_0000 then Some(v)
      else None
  }

  lemma ParseIntExactly(s: bytes)
    ensures ParseInt(Ascii("-") + s) == InRange(ParseDigits(s), true)
    ensures ParseInt(Ascii("+") + s) == InRange(ParseDigits(s), false)
    ensures s != [] && s[0] != Ascii("+")[0] && s[0] != Ascii("-")[0] ==> ParseInt(s) == InRange(ParseDigits(s), false)
    ensures ParseInt([]) == None
  {
    assert Ascii("+") == [43] && Ascii("-") == [45];
    ParseSigned(45, s);
    ParseSigned(43, s);
    if s != [] && s[0] != 43 && s[0] != 45 {
      ParseUnsigned(s);
    }
  }

  lemma ParseSigned(sign: byte, s: bytes)
    requires sign == 43 || sign == 45
    ensures ParseInt([sign] + s) == InRange(ParseDigits(s), sign == 45)
  {
    assert ([sign] + s)[1..] == s;
  }

  lemma ParseUnsigned(s: bytes)
    requires s != [] && s[0] != 43 && s[0] != 45
    ensures ParseInt(s) == InRange(ParseDigits(s), false)
  {
  }

  /** Wrapping around keeps the number modulo 2^64. */
  lemma WrapIsCongruent(i: int)
    ensures (Wrap64(i) - i) % 0x1_0000_0000_0000_0000 == 0
    ensures -0x8000_0000_0000_0000 <= Wrap64(i) < 0x8000_0000_0000_0000
  {
  }

  /** Two's complement, the lowest byte first. */
  lemma LE64Bytes(i: int, j: nat)
    requires j < 8
    ensures LE64(i)[j] as nat == i % 0x1_0000_0000_0000_0000 / Pow256(j) % 256
  {
    LEBytes(i % TWO64, 8, j);
  }

  /** Upper case: the letters a to z become A to Z, all other bytes stay. */
  lemma ToUpperLetters(b: bytes, i: nat)
    requires i < |b|
    ensures if Ascii("a")[0] <= b[i] <= Ascii("z")[0] then
              ToUpper(b)[i] as int - Ascii("A")[0] as int == b[i] as int - Ascii("a")[0] as int
            else ToUpper(b)[i] == b[i]
  {
  }

  /** `b` is the word, given in capitals, in any mixture of cases. */
  predicate Spells(b: bytes, word: string)
    requires HasUpperOnly(word)
  {
    |b| == |word|
    && forall i | 0 <= i < |b| :: b[i] as int == word[i] as int || b[i] as int == word[i] as int + 32
  }

  lemma UpperSpells(b: bytes, word: string)
    requires HasUpperOnly(word) && IsLatin(word)
    ensures ToUpper(b) == Ascii(word) <==> Spells(b, word)
  {
    if ToUpper(b) == Ascii(word) {
      forall i | 0 <= i < |b| ensures b[i] as int == word[i] as int || b[i] as int == word[i] as int + 32 {
        assert ToUpper(b)[i] == Ascii(word)[i];
      }
    }
  }
}
