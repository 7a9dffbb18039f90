/** Numbers-and-dots addresses: one to four dot-separated parts, each decimal, hexadecimal or
    octal, combined by the classic `inet_aton` rules. Words of 32 bits are natural numbers below
    `WORD`, with shift and bitwise or written out. */
module InetAton {
  import opened Wrappers
  import opened Strings

  const WORD: nat := 0x1_0000_0000

  // ----- Numbers in a radix -----

  function DigitValue(c: char): nat {
    if '0' <= c <= '9' then c as int - '0' as int
    else if 'a' <= c <= 'z' then c as int - 'a' as int + 10
    else if 'A' <= c <= 'Z' then c as int - 'A' as int + 10
    else 36
  }

  predicate IsNumeral(s: string, radix: nat) {
    s != "" && forall i :: 0 <= i < |s| ==> DigitValue(s[i]) < radix
  }

  function Value(s: string, radix: nat): nat {
    if s == "" then 0 else Value(s[..|s| - 1], radix) * radix + DigitValue(s[|s| - 1])
  }

  function DropPlus(s: string): string {
    if StartsWith(s, '+') then s[1..] else s
  }

  /** `u32::from_str_radix`: it takes a leading plus sign. */
  function FromStrRadix(s: string, radix: nat): Option<nat> {
    var digits := DropPlus(s);
    if !IsNumeral(digits, radix) || Value(digits, radix) >= WORD then None else Some(Value(digits, radix))
  }

  function ParsePart(part: string): Option<nat> {
    if "0x" <= part || "0X" <= part then
      if part[2..] == "" then None else FromStrRadix(part[2..], 16)
    else if |part| > 1 && part[0] == '0' then FromStrRadix(part, 8)
    else FromStrRadix(part, 10)
  }

  // ----- Words -----

  function PowerOfTwo(n: nat): nat {
    if n == 0 then 1 else 2 * PowerOfTwo(n - 1)
  }

  function ShiftLeft(a: nat, n: nat): nat {
    a * PowerOfTwo(n) % WORD
  }

  function Or(a: nat, b: nat): nat {
    if a == 0 && b == 0 then 0 else 2 * Or(a / 2, b / 2) + (if a % 2 == 1 || b % 2 == 1 then 1 else 0)
  }

  function Combine(values: seq<nat>): Option<nat> {
    if |values| == 1 then Some(values[0])
    else if |values| == 2 then
      if values[0] > 0xff || values[1] > 0x00ff_ffff then None
      else Some(Or(ShiftLeft(values[0], 24), values[1]))
    else if |values| == 3 then
      if values[0] > 0xff || values[1] > 0xff || values[2] > 0xffff then None
      else Some(Or(Or(ShiftLeft(values[0], 24), ShiftLeft(values[1], 16)), values[2]))
    else if |values| == 4 then
      if values[0] > 0xff || values[1] > 0xff || values[2] > 0xff || values[3] > 0xff then None
      else Some(Or(Or(Or(ShiftLeft(values[0], 24), ShiftLeft(values[1], 16)), ShiftLeft(values[2], 8)), values[3]))
    else None
  }

  /** All parts parsed, or nothing. */
  function ParseParts(parts: seq<string>): Option<seq<nat>> {
    if parts == [] then Some([])
    else
      var first :- ParsePart(parts[0]);
      var rest :- ParseParts(parts[1..]);
      Some([first] + rest)
  }

  function ParseInetAton(host: string): Option<nat> {
    if host == "" then None
    else
      var parts := Split(host, '.');
      if |parts| > 4 || "" in parts then None
      else
        var values :- ParseParts(parts);
        Combine(values)
  }

  // ----- Shift and or are positional -----

  lemma {:induction false} OrZero(a: nat)
    ensures Or(a, 0) == a
  {
    if a != 0 {
      OrZero(a / 2);
    }
  }

  /** A number below `2^n` fills the empty low bits. */
  lemma {:induction false} OrFills(high: nat, n: nat, low: nat)
    requires low < PowerOfTwo(n)
    ensures Or(high * PowerOfTwo(n), low) == high * PowerOfTwo(n) + low
    decreases n
  {
    if n == 0 {
      OrZero(high);
    } else {
      var a, half := high * PowerOfTwo(n), high * PowerOfTwo(n - 1);
      assert a == 2 * half;
      assert a / 2 == half && a % 2 == 0;
      OrFills(high, n - 1, low / 2);
    }
  }

  /** The base-256 value of leading bytes. */
  function Bytes(bytes: seq<nat>): nat {
    if bytes == [] then 0 else 256 * Bytes(bytes[..|bytes| - 1]) + bytes[|bytes| - 1]
  }

  /** How many values the last of `n` parts can take: it fills the bytes the others leave. */
  function LastRange(n: nat): nat {
    if n == 1 then 0x1_0000_0000 else if n == 2 then 0x100_0000 else if n == 3 then 0x1_0000 else 0x100
  }

  predicate InRange(values: seq<nat>) {
    && 1 <= |values| <= 4
    && (forall i :: 0 <= i < |values| - 1 ==> values[i] < 0x100)
    && values[|values| - 1] < LastRange(|values|)
  }

  /** The leading parts are the address's leading bytes, the last part is the rest. */
  function Positional(values: seq<nat>): nat
    requires values != []
  {
    Bytes(values[..|values| - 1]) * LastRange(|values|) + values[|values| - 1]
  }

  lemma Powers()
    ensures PowerOfTwo(8) == 0x100 && PowerOfTwo(16) == 0x1_0000 && PowerOfTwo(24) == 0x100_0000
  {
    assert PowerOfTwo(4) == 16;
    assert PowerOfTwo(8) == 0x100;
    assert PowerOfTwo(12) == 0x1000;
    assert PowerOfTwo(16) == 0x1_0000;
    assert PowerOfTwo(20) == 0x10_0000;
  }

  lemma ShiftFits(a: nat, n: nat)
    requires a <= 0xff && (n == 8 || n == 16 || n == 24)
    ensures ShiftLeft(a, n) == a * PowerOfTwo(n)
  {
    Powers();
  }

  lemma BytesOf(a: nat, b: nat, c: nat)
    ensures Bytes([a]) == a && Bytes([a, b]) == 256 * a + b && Bytes([a, b, c]) == 0x1_0000 * a + 256 * b + c
  {
    assert [a][..0] == [] && [a, b][..1] == [a] && [a, b, c][..2] == [a, b];
    assert Bytes([a]) == a;
    assert Bytes([a, b]) == 256 * a + b;
  }

  lemma Combine2(a: nat, b: nat)
    requires a <= 0xff && b <= 0xff_ffff
    ensures Or(ShiftLeft(a, 24), b) == 0x100_0000 * a + b
  {
    Powers();
    ShiftFits(a, 24);
    OrFills(a, 24, b);
  }

  lemma Combine3(a: nat, b: nat, c: nat)
    requires a <= 0xff && b <= 0xff && c <= 0xffff
    ensures Or(Or(ShiftLeft(a, 24), ShiftLeft(b, 16)), c) == 0x100_0000 * a + 0x1_0000 * b + c
  {
    Powers();
    ShiftFits(b, 16);
    Combine2(a, ShiftLeft(b, 16));
    var high := 256 * a + b;
    assert Or(ShiftLeft(a, 24), ShiftLeft(b, 16)) == high * PowerOfTwo(16);
    OrFills(high, 16, c);
  }

  lemma Combine4(a: nat, b: nat, c: nat, d: nat)
    requires a <= 0xff && b <= 0xff && c <= 0xff && d <= 0xff
    ensures Or(Or(Or(ShiftLeft(a, 24), ShiftLeft(b, 16)), ShiftLeft(c, 8)), d)
            == 0x100_0000 * a + 0x1_0000 * b + 0x100 * c + d
  {
    Powers();
    ShiftFits(c, 8);
    Combine3(a, b, ShiftLeft(c, 8));
    var high := 0x1_0000 * a + 256 * b + c;
    assert Or(Or(ShiftLeft(a, 24), ShiftLeft(b, 16)), ShiftLeft(c, 8)) == high * PowerOfTwo(8);
    OrFills(high, 8, d);
  }

  lemma Positional2(a: nat, b: nat)
    ensures Positional([a, b]) == 0x100_0000 * a + b
  {
    BytesOf(a, 0, 0);
    assert [a, b][..1] == [a];
  }

  lemma Positional3(a: nat, b: nat, c: nat)
    ensures Positional([a, b, c]) == 0x100_0000 * a + 0x1_0000 * b + c
  {
    BytesOf(a, b, 0);
    assert [a, b, c][..2] == [a, b];
  }

  lemma Positional4(a: nat, b: nat, c: nat, d: nat)
    ensures Positional([a, b, c, d]) == 0x100_0000 * a + 0x1_0000 * b + 0x100 * c + d
  {
    BytesOf(a, b, c);
    assert [a, b, c, d][..3] == [a, b, c];
  }

  lemma CombinesOne(a: nat)
    ensures Combine([a]) == Some(Positional([a]))
  {
    assert [a][..0] == [];
  }

  lemma CombinesTwo(a: nat, b: nat)
    requires a <= 0xff && b <= 0xff_ffff
    ensures Combine([a, b]) == Some(Positional([a, b]))
  {
    Combine2(a, b);
    Positional2(a, b);
  }

  lemma CombinesThree(a: nat, b: nat, c: nat)
    requires a <= 0xff && b <= 0xff && c <= 0xffff
    ensures Combine([a, b, c]) == Some(Positional([a, b, c]))
  {
    var word := 0x100_0000 * a + 0x1_0000 * b + c;
    assert Positional([a, b, c]) == word by { Positional3(a, b, c); }
    assert Combine([a, b, c]) == Some(word) by { Combine3(a, b, c); }
  }

  lemma CombinesFour(a: nat, b: nat, c: nat, d: nat)
    requires a <= 0xff && b <= 0xff && c <= 0xff && d <= 0xff
    ensures Combine([a, b, c, d]) == Some(Positional([a, b, c, d]))
  {
    var word := 0x100_0000 * a + 0x1_0000 * b + 0x100 * c + d;
    assert Positional([a, b, c, d]) == word by { Positional4(a, b, c, d); }
    assert Combine([a, b, c, d]) == Some(word) by {
      FourShifted([a, b, c, d]);
      Combine4(a, b, c, d);
    }
  }

  lemma FourShifted(v: seq<nat>)
    requires |v| == 4 && v[0] <= 0xff && v[1] <= 0xff && v[2] <= 0xff && v[3] <= 0xff
    ensures Combine(v) == Some(Or(Or(Or(ShiftLeft(v[0], 24), ShiftLeft(v[1], 16)), ShiftLeft(v[2], 8)), v[3]))
  {
  }

  /** The length and bounds the code tests for. */
  predicate PassesTests(values: seq<nat>) {
    || |values| == 1
    || (|values| == 2 && values[0] <= 0xff && values[1] <= 0xff_ffff)
    || (|values| == 3 && values[0] <= 0xff && values[1] <= 0xff && values[2] <= 0xffff)
    || (|values| == 4 && values[0] <= 0xff && values[1] <= 0xff && values[2] <= 0xff && values[3] <= 0xff)
  }

  lemma TestsAreRange(values: seq<nat>)
    requires forall i :: 0 <= i < |values| ==> values[i] < WORD
    ensures PassesTests(values) <==> InRange(values)
  {
  }

  lemma CombinesTested(values: seq<nat>)
    ensures Combine(values) == if PassesTests(values) then Some(Positional(values)) else None
  {
    if PassesTests(values) {
      if |values| == 1 {
        assert values == [values[0]];
        CombinesOne(values[0]);
      } else if |values| == 2 {
        assert values == [values[0], values[1]];
        CombinesTwo(values[0], values[1]);
      } else if |values| == 3 {
        assert values == [values[0], values[1], values[2]];
        CombinesThree(values[0], values[1], values[2]);
      } else {
        assert values == [values[0], values[1], values[2], values[3]];
        CombinesFour(values[0], values[1], values[2], values[3]);
      }
    }
  }

  /** Shifting and or-ing gives the base-256 positional value, for exactly the value lists in range. */
  lemma CombineIsPositional(values: seq<nat>)
    requires forall i :: 0 <= i < |values| ==> values[i] < WORD
    ensures Combine(values) == if InRange(values) then Some(Positional(values)) else None
  {
    TestsAreRange(values);
    CombinesTested(values);
  }

  // ----- Spellings -----

  predicate IsNumber(digits: string, radix: nat, value: nat) {
    IsNumeral(digits, radix) && Value(digits, radix) == value
  }

  /** The spellings of a number: hexadecimal after `0x` or `0X`, octal with a leading zero, or
      decimal without one. The hexadecimal and decimal digits may follow a plus sign, and a decimal
      number after a plus sign may have leading zeros. */
  predicate Spells(part: string, value: nat) {
    || (("0x" <= part || "0X" <= part) && IsNumber(DropPlus(part[2..]), 16, value))
    || (|part| > 1 && part[0] == '0' && IsNumber(part, 8, value))
    || (IsNumber(part, 10, value) && (part == "0" || part[0] != '0'))
    || (StartsWith(part, '+') && IsNumber(part[1..], 10, value))
  }

  /** A part parses to exactly the number it spells, if that fits a word. */
  lemma PartParsesWhatItSpells(part: string, value: nat)
    ensures ParsePart(part) == Some(value) <==> Spells(part, value) && value < WORD
  {
    if "0x" <= part || "0X" <= part {
      assert part[0] == '0' && |part| > 1 && (part[1] == 'x' || part[1] == 'X');
      assert !IsNumeral(part, 8) && !IsNumeral(part, 10);
    } else if |part| > 1 && part[0] == '0' {
      assert DropPlus(part) == part;
    } else {
      assert StartsWith(part, '+') ==> DigitValue(part[0]) == 36;
    }
  }

  /** The digits of each radix. */
  predicate AllIn(s: string, digits: string) {
    s != "" && forall i :: 0 <= i < |s| ==> s[i] in digits
  }

  lemma DigitsOfRadix(c: char)
    ensures DigitValue(c) < 8 <==> c in "01234567"
    ensures DigitValue(c) < 10 <==> c in "0123456789"
    ensures DigitValue(c) < 16 <==> c in "0123456789abcdefABCDEF"
  {
    var v := DigitValue(c);
    assert v < 8 ==> "01234567"[v] == c;
    assert v < 10 ==> "0123456789"[v] == c;
    assert v < 16 ==> "0123456789abcdef"[v] == c || (v >= 10 && "ABCDEF"[v - 10] == c);
    assert v < 16 ==> "0123456789abcdefABCDEF"[v] == c || (v >= 10 && "0123456789abcdefABCDEF"[v + 6] == c);
  }

  lemma NumeralsAreDigits(s: string)
    ensures IsNumeral(s, 8) <==> AllIn(s, "01234567")
    ensures IsNumeral(s, 10) <==> AllIn(s, "0123456789")
    ensures IsNumeral(s, 16) <==> AllIn(s, "0123456789abcdefABCDEF")
  {
    forall i | 0 <= i < |s|
      ensures DigitValue(s[i]) < 8 <==> s[i] in "01234567"
      ensures DigitValue(s[i]) < 10 <==> s[i] in "0123456789"
      ensures DigitValue(s[i]) < 16 <==> s[i] in "0123456789abcdefABCDEF"
    {
      DigitsOfRadix(s[i]);
    }
  }

  /** A part is a number of some kind exactly when it has that kind's digits: hexadecimal after `0x` or
      `0X`, octal after a zero, and decimal otherwise; before the digits, but not before an octal's zero,
      there may be a plus sign. */
  lemma NumbersAreDigits(part: string)
    ensures (exists value :: Spells(part, value)) <==>
              if "0x" <= part || "0X" <= part then AllIn(DropPlus(part[2..]), "0123456789abcdefABCDEF")
              else if |part| > 1 && part[0] == '0' then AllIn(part, "01234567")
              else AllIn(DropPlus(part), "0123456789")
  {
    NumeralsAreDigits(part);
    NumeralsAreDigits(DropPlus(part));
    if "0x" <= part || "0X" <= part {
      NumeralsAreDigits(DropPlus(part[2..]));
      assert part[0] == '0' && |part| > 1 && (part[1] == 'x' || part[1] == 'X');
      assert !IsNumeral(part, 8) && !IsNumeral(part, 10);
      if IsNumeral(DropPlus(part[2..]), 16) {
        assert Spells(part, Value(DropPlus(part[2..]), 16));
      }
    } else if |part| > 1 && part[0] == '0' {
      if IsNumeral(part, 8) {
        assert Spells(part, Value(part, 8));
      }
    } else {
      assert StartsWith(part, '+') ==> DigitValue(part[0]) == 36;
      if IsNumeral(DropPlus(part), 10) {
        assert Spells(part, Value(DropPlus(part), 10));
      }
    }
  }

  predicate SpellsAll(parts: seq<string>, values: seq<nat>) {
    && |parts| == |values|
    && forall i :: 0 <= i < |parts| ==> Spells(parts[i], values[i]) && values[i] < WORD
  }

  lemma {:induction false} PartsParseWhatTheySpell(parts: seq<string>, values: seq<nat>)
    ensures ParseParts(parts) == Some(values) <==> SpellsAll(parts, values)
  {
    if parts != [] {
      if values != [] {
        PartParsesWhatItSpells(parts[0], values[0]);
        PartsParseWhatTheySpell(parts[1..], values[1..]);
        assert values == [values[0]] + values[1..];
      }
      if SpellsAll(parts, values) {
        forall i | 0 <= i < |parts[1..]| ensures Spells(parts[1..][i], values[1..][i]) && values[1..][i] < WORD {
          assert Spells(parts[i + 1], values[i + 1]);
        }
      }
      if ParseParts(parts) == Some(values) {
        forall i | 0 <= i < |parts| ensures Spells(parts[i], values[i]) && values[i] < WORD {
          if i > 0 {
            assert Spells(parts[1..][i - 1], values[1..][i - 1]);
          }
        }
      }
    }
  }

  lemma NoEmptyPart(parts: seq<string>, values: seq<nat>)
    requires SpellsAll(parts, values)
    ensures "" !in parts
  {
  }

  /** A host parses to an address exactly when it is one to four parts that spell numbers in range
      whose positional value is that address. */
  lemma AddressesAreSpelled(host: string, address: nat)
    ensures ParseInetAton(host) == Some(address) <==>
              exists values :: SpellsAll(Split(host, '.'), values) && InRange(values) && address == Positional(values)
  {
    var parts := Split(host, '.');
    if ParseInetAton(host) == Some(address) {
      var values := ParseParts(parts).value;
      PartsParseWhatTheySpell(parts, values);
      CombineIsPositional(values);
    }
    forall values | SpellsAll(parts, values) && InRange(values) && address == Positional(values)
      ensures ParseInetAton(host) == Some(address)
    {
      PartsParseWhatTheySpell(parts, values);
      NoEmptyPart(parts, values);
      CombineIsPositional(values);
      assert host == "" ==> parts == [""];
    }
  }

  /** Every address can be written with one to four parts, in one way each. */
  function PartsOf(address: nat, n: nat): (values: seq<nat>)
    requires 1 <= n <= 4
    ensures |values| == n
  {
    var leading := address / LastRange(n);
    (if n == 1 then []
     else if n == 2 then [leading]
     else if n == 3 then [leading / 256, leading % 256]
     else [leading / 65536, leading / 256 % 256, leading % 256])
    + [address % LastRange(n)]
  }

  /** Whatever number of parts an address is written with and however each is spelled, the host
      parses back to it. */
  lemma EverySpellingParses(address: nat, n: nat, host: string)
    requires address < WORD && 1 <= n <= 4
    requires SpellsAll(Split(host, '.'), PartsOf(address, n))
    ensures ParseInetAton(host) == Some(address)
  {
    PartsOfIsExact(address, n);
    AddressesAreSpelled(host, address);
  }

  lemma ThreeBytes(n: nat)
    requires n < 0x100_0000
    ensures n / 65536 < 256 && 65536 * (n / 65536) + 256 * (n / 256 % 256) + n % 256 == n
  {
    var high := n / 256;
    assert n == 256 * high + n % 256 && n / 65536 == high / 256;
  }

  lemma TwoPartsAreExact(address: nat)
    requires address < WORD
    ensures InRange(PartsOf(address, 2)) && Positional(PartsOf(address, 2)) == address
  {
    var leading, last := address / 0x100_0000, address % 0x100_0000;
    assert PartsOf(address, 2) == [leading, last];
    Positional2(leading, last);
  }

  lemma ThreePartsAreExact(address: nat)
    requires address < WORD
    ensures InRange(PartsOf(address, 3)) && Positional(PartsOf(address, 3)) == address
  {
    var leading, last := address / 0x1_0000, address % 0x1_0000;
    assert PartsOf(address, 3) == [leading / 256, leading % 256, last];
    Positional3(leading / 256, leading % 256, last);
  }

  lemma FourPartsAreExact(address: nat)
    requires address < WORD
    ensures InRange(PartsOf(address, 4)) && Positional(PartsOf(address, 4)) == address
  {
    var leading, last := address / 0x100, address % 0x100;
    assert PartsOf(address, 4) == [leading / 65536, leading / 256 % 256, leading % 256, last];
    ThreeBytes(leading);
    Positional4(leading / 65536, leading / 256 % 256, leading % 256, last);
  }

  lemma PartsOfIsExact(address: nat, n: nat)
    requires address < WORD && 1 <= n <= 4
    ensures InRange(PartsOf(address, n)) && Positional(PartsOf(address, n)) == address
  {
    if n == 1 {
      assert PartsOf(address, 1) == [address] && [address][..0] == [];
    } else if n == 2 {
      TwoPartsAreExact(address);
    } else if n == 3 {
      ThreePartsAreExact(address);
    } else {
      FourPartsAreExact(address);
    }
  }

  // ----- Spellings exist -----

  datatype Notation = Decimal | PlusDecimal | Hexadecimal | PlusHexadecimal | UpperHexadecimal | Octal

  function DigitChar(n: nat, upper: bool): (c: char)
    requires n < 16
    ensures DigitValue(c) == n && c != '.' && c != '+'
  {
    if n < 10 then (n + '0' as int) as char
    else if upper then (n - 10 + 'A' as int) as char
    else (n - 10 + 'a' as int) as char
  }

  /** All digits but the last, as a number, and the last. */
  function CutLast(n: nat, notation: Notation): (cut: (nat, nat))
    ensures cut.0 == 0 || cut.0 < n
    ensures cut.1 < 16
  {
    match notation
    case Decimal => (n / 10, n % 10)
    case PlusDecimal => (n / 10, n % 10)
    case Octal => (n / 8, n % 8)
    case _ => (n / 16, n % 16)
  }

  function LastDigit(n: nat, notation: Notation): string {
    [DigitChar(CutLast(n, notation).1, notation.UpperHexadecimal?)]
  }

  /** The digits of a number, without leading zeros. */
  function Digits(n: nat, notation: Notation): string {
    var front := CutLast(n, notation).0;
    if front == 0 then LastDigit(n, notation) else Digits(front, notation) + LastDigit(n, notation)
  }

  function Spelling(n: nat, notation: Notation): string {
    match notation
    case Decimal => Digits(n, notation)
    case PlusDecimal => "+" + Digits(n, notation)
    case Hexadecimal => "0x" + Digits(n, notation)
    case PlusHexadecimal => "0x+" + Digits(n, notation)
    case UpperHexadecimal => "0X" + Digits(n, notation)
    case Octal => "0" + Digits(n, notation)
  }

  predicate IsWritten(digits: string, notation: Notation, value: nat) {
    match notation
    case Decimal => IsNumber(digits, 10, value)
    case PlusDecimal => IsNumber(digits, 10, value)
    case Octal => IsNumber(digits, 8, value)
    case _ => IsNumber(digits, 16, value)
  }

  /** One more digit. */
  lemma WrittenOn(digits: string, notation: Notation, n: nat)
    requires IsWritten(digits, notation, CutLast(n, notation).0)
    ensures IsWritten(digits + LastDigit(n, notation), notation, n)
  {
    var longer := digits + LastDigit(n, notation);
    assert longer[..|digits|] == digits;
  }

  lemma WrittenAlone(notation: Notation, n: nat)
    requires CutLast(n, notation).0 == 0
    ensures IsWritten(LastDigit(n, notation), notation, n)
  {
    var digit := LastDigit(n, notation);
    assert digit[..0] == "";
    assert Value("", 8) == Value("", 10) == Value("", 16) == 0;
  }

  lemma {:induction false} DigitsAreNumber(n: nat, notation: Notation)
    ensures IsWritten(Digits(n, notation), notation, n)
  {
    var front := CutLast(n, notation).0;
    if front == 0 {
      WrittenAlone(notation, n);
    } else {
      DigitsAreNumber(front, notation);
      WrittenOn(Digits(front, notation), notation, n);
    }
  }

  lemma {:induction false} DigitsAreClean(n: nat, notation: Notation)
    ensures '.' !in Digits(n, notation) && '+' !in Digits(n, notation)
    ensures Digits(n, notation) != "" && (n > 0 ==> Digits(n, notation)[0] != '0')
  {
    if CutLast(n, notation).0 != 0 {
      DigitsAreClean(CutLast(n, notation).0, notation);
    }
  }

  lemma {:induction false} LeadingZero(s: string)
    requires IsNumeral(s, 8)
    ensures IsNumeral("0" + s, 8) && Value("0" + s, 8) == Value(s, 8)
  {
    var n := |s| - 1;
    assert ("0" + s)[..n + 1] == "0" + s[..n] && ("0" + s)[n + 1] == s[n];
    if n == 0 {
      assert s[..n] == "" && "0" + s[..n] == "0" && "0"[..0] == "";
      assert Value("0", 8) == Value("", 8) == 0;
    } else {
      LeadingZero(s[..n]);
    }
  }

  /** Each notation spells the number. */
  lemma SpellingSpells(n: nat, notation: Notation)
    ensures Spells(Spelling(n, notation), n) && '.' !in Spelling(n, notation)
  {
    var digits := Digits(n, notation);
    DigitsAreNumber(n, notation);
    DigitsAreClean(n, notation);
    match notation {
      case Decimal =>
      case PlusDecimal =>
        assert ("+" + digits)[1..] == digits;
      case Hexadecimal =>
        assert ("0x" + digits)[2..] == digits;
      case PlusHexadecimal =>
        assert ("0x+" + digits)[2..] == "+" + digits && ("+" + digits)[1..] == digits;
      case UpperHexadecimal =>
        assert ("0X" + digits)[2..] == digits;
      case Octal =>
        var part := "0" + digits;
        LeadingZero(digits);
        assert |part| > 1 && part[0] == '0' && IsNumber(part, 8, n);
    }
  }

  /** A number is parsed in every notation, exactly if it fits 32 bits. */
  lemma SpellingParses(n: nat, notation: Notation)
    ensures ParsePart(Spelling(n, notation)) == if n < 0x1_0000_0000 then Some(n) else None
  {
    SpellingSpells(n, notation);
    PartParsesWhatItSpells(Spelling(n, notation), n);
    if n >= WORD {
      NothingElseIsSpelled(Spelling(n, notation), n);
    }
  }

  /** A part spells one number only. */
  lemma NothingElseIsSpelled(part: string, n: nat)
    requires Spells(part, n) && n >= WORD
    ensures ParsePart(part) == None
  {
    if ParsePart(part).Some? {
      PartParsesWhatItSpells(part, ParsePart(part).value);
      OneReading(part, n, ParsePart(part).value);
    }
  }

  lemma OneReading(part: string, a: nat, b: nat)
    requires Spells(part, a) && Spells(part, b)
    ensures a == b
  {
    if "0x" <= part || "0X" <= part {
      assert part[0] == '0' && |part| > 1 && (part[1] == 'x' || part[1] == 'X');
      assert !IsNumeral(part, 8) && !IsNumeral(part, 10);
    } else if StartsWith(part, '+') {
      assert DigitValue(part[0]) == 36;
    }
  }

  /** The address in as many parts as there are notations, each part in its own. */
  function Spelled(address: nat, notations: seq<Notation>): (parts: seq<string>)
    requires 1 <= |notations| <= 4
    ensures |parts| == |notations|
  {
    var values := PartsOf(address, |notations|);
    seq(|notations|, i requires 0 <= i < |notations| => Spelling(values[i], notations[i]))
  }

  lemma PartsAreWords(address: nat, n: nat)
    requires address < WORD && 1 <= n <= 4
    ensures forall i :: 0 <= i < n ==> PartsOf(address, n)[i] < WORD
  {
    PartsOfIsExact(address, n);
  }

  /** Any address, in any number of parts and any notation for each, is parsed back. */
  lemma SpelledAddressParses(address: nat, notations: seq<Notation>)
    requires address < 0x1_0000_0000 && 1 <= |notations| <= 4
    ensures ParseInetAton(Join(Spelled(address, notations), '.')) == Some(address)
  {
    var parts, values := Spelled(address, notations), PartsOf(address, |notations|);
    PartsAreWords(address, |notations|);
    forall i | 0 <= i < |parts| ensures Spells(parts[i], values[i]) && '.' !in parts[i] {
      SpellingSpells(values[i], notations[i]);
    }
    SplitJoin(parts, '.');
    EverySpellingParses(address, |notations|, Join(parts, '.'));
  }

  lemma TwoDigits(n: nat, notation: Notation, front: nat, last: nat)
    requires CutLast(n, notation) == (front, last) && 0 < front && CutLast(front, notation) == (0, front)
    ensures Digits(n, notation)
            == [DigitChar(front, notation.UpperHexadecimal?)] + [DigitChar(last, notation.UpperHexadecimal?)]
  {
    assert Digits(front, notation) == LastDigit(front, notation);
  }

  /** 43 in each notation. */
  lemma OneNumberInEachNotation()
    ensures Spelling(43, Decimal) == "43" && Spelling(43, PlusDecimal) == "+43"
    ensures Spelling(43, Hexadecimal) == "0x2b" && Spelling(43, PlusHexadecimal) == "0x+2b"
    ensures Spelling(43, UpperHexadecimal) == "0X2B" && Spelling(43, Octal) == "053"
  {
    TwoDigits(43, Decimal, 4, 3);
    TwoDigits(43, PlusDecimal, 4, 3);
    TwoDigits(43, Hexadecimal, 2, 11);
    TwoDigits(43, PlusHexadecimal, 2, 11);
    TwoDigits(43, UpperHexadecimal, 2, 11);
    TwoDigits(43, Octal, 5, 3);
  }
}
