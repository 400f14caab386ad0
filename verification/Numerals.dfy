/** Texts as a person writes them: numerals in every base that strtoull and the scanner
    know, words in any letter case, and their order. */
module Numerals {
  import opened CString
  import opened Values
  import L = Lexer
  import Dump

  // ----- Writing a number down ------------------------------------------------

  /** The digit for a value, as capital or small letter when it needs one. */
  function Digit(d: nat, capital: bool): (c: byte)
    requires d < 16
    ensures c != NUL && DigitValue(c) == Some(d)
  {
    if capital then "0123456789ABCDEF"[d] else "0123456789abcdef"[d]
  }

  /** A number with its digits in a base, most significant first. */
  function Numeral(n: nat, base: nat, capital: bool): (r: cstring)
    requires base in {8, 10, 16}
    ensures r != []
  {
    if n < base then [Digit(n, capital)]
    else
      Split(n, base);
      Numeral(n / base, base, capital) + [Digit(n % base, capital)]
  }

  lemma NumeralEnds(n: nat, base: nat, capital: bool)
    requires base in {8, 10, 16}
    ensures n < base ==> Numeral(n, base, capital) == [Digit(n, capital)]
    ensures n >= base ==>
              Numeral(n, base, capital) == Numeral(n / base, base, capital) + [Digit(n % base, capital)]
              && 0 < n / base < n && n == (n / base) * base + n % base
  {
    hide Digit;
    if n >= base {
      Split(n, base);
    }
  }

  lemma Split(n: nat, base: nat)
    requires base in {8, 10, 16} && base <= n
    ensures 0 < n / base < n && n == (n / base) * base + n % base
  {
    if base == 8 {
      assert n == 8 * (n / 8) + n % 8;
    } else if base == 10 {
      assert n == 10 * (n / 10) + n % 10;
    } else {
      assert n == 16 * (n / 16) + n % 16;
    }
  }

  lemma {:induction false} NumeralDigits(n: nat, base: nat, capital: bool)
    requires base in {8, 10, 16}
    ensures forall i :: 0 <= i < |Numeral(n, base, capital)| ==> IsDigit(Numeral(n, base, capital)[i], base)
    ensures n > 0 ==> Numeral(n, base, capital)[0] != '0'
  {
    NumeralEnds(n, base, capital);
    assert DigitValue('0') == Some(0);
    hide Digit, DigitValue, Numeral;
    if n >= base {
      NumeralDigits(n / base, base, capital);
    }
  }

  /** The digits are read up to the first character that is none. */
  lemma {:induction false} NumeralIsRead(n: nat, base: nat, capital: bool, rest: seq<char>)
    requires base in {8, 10, 16} && (rest != [] ==> !IsDigit(rest[0], base))
    ensures DigitsValue(Numeral(n, base, capital) + rest, base, 0) == n
  {
    NumeralDigits(n, base, capital);
    NumeralValue(n, base, capital);
    DigitsConcat(Numeral(n, base, capital), rest, base, 0);
  }

  lemma {:induction false} NumeralValue(n: nat, base: nat, capital: bool)
    requires base in {8, 10, 16}
    ensures DigitsValue(Numeral(n, base, capital), base, 0) == n
  {
    NumeralEnds(n, base, capital);
    hide Digit, DigitValue, Numeral;
    if n >= base {
      NumeralDigits(n / base, base, capital);
      NumeralValue(n / base, base, capital);
      OneMore(Digit(n % base, capital), base, n / base);
      DigitsConcat(Numeral(n / base, base, capital), [Digit(n % base, capital)], base, 0);
    } else {
      OneMore(Digit(n, capital), base, 0);
    }
  }

  lemma OneMore(c: byte, base: nat, acc: nat)
    requires IsDigit(c, base)
    ensures DigitsValue([c], base, acc) == acc * base + DigitValue(c).value
  {
    hide DigitValue;
    assert [c][1..] == [];
    assert DigitsValue([c], base, acc) == DigitsValue([], base, acc * base + DigitValue(c).value);
  }

  /** %d writes the decimal numeral. */
  lemma {:induction false} DecimalIsNumeral(n: nat)
    ensures Decimal(n) == Numeral(n, 10, false)
  {
    if n >= 10 {
      DecimalIsNumeral(n / 10);
    }
  }

  // ----- Reading a number -----------------------------------------------------

  function Prefix(base: nat, capital: bool): cstring {
    if base == 16 then (if capital then "0X" else "0x") else if base == 8 then "0" else ""
  }

  /** The white space of the C standard. */
  predicate AllSpace(s: seq<char>) {
    forall i :: 0 <= i < |s| ==> s[i] in {' ', '\t', '\n', '\U{0B}', '\U{0C}', '\r'}
  }

  lemma {:induction false} SpaceIsSkipped(lead: seq<char>, s: seq<char>)
    requires AllSpace(lead) && s != [] && !AllSpace(s[..1])
    ensures SkipSpace(lead + s) == s
    decreases |lead|
  {
    if lead == [] {
      assert lead + s == s && s[..1][0] == s[0];
    } else {
      assert (lead + s)[1..] == lead[1..] + s;
      SpaceIsSkipped(lead[1..], s);
    }
  }

  lemma BaseIsFound(n: nat, base: nat, capital: bool, rest: seq<char>)
    requires base in {8, 10, 16} && (base == 10 ==> n > 0)
    ensures var digits := Numeral(n, base, capital) + rest;
            var (b, ds) := SplitBase(Prefix(base, capital) + digits);
            b == base && ds == if base == 8 then ['0'] + digits else digits
  {
    NumeralDigits(n, base, capital);
    hide Numeral, DigitValue;
    var digits := Numeral(n, base, capital) + rest;
    assert digits[0] == Numeral(n, base, capital)[0];
    assert DigitValue('x') == Some(33) && DigitValue('X') == Some(33);
    var number := Prefix(base, capital) + digits;
    assert base == 16 ==> number[2..] == digits && number[2] == digits[0];
    assert base == 8 ==> number[1] == digits[0];
    assert base == 10 ==> number == digits;
  }

  lemma ZeroInFront(s: seq<char>, base: nat)
    requires base in {8, 10, 16}
    ensures DigitsValue(['0'] + s, base, 0) == DigitsValue(s, base, 0)
  {
    assert DigitValue('0') == Some(0);
    hide DigitValue;
    assert (['0'] + s)[1..] == s;
  }

  /** strtoull takes white space, a sign, a numeral in any of the three bases in either
      letter case, and ignores what follows it. */
  lemma StrtoullReads(lead: cstring, sign: cstring, n: nat, base: nat, capital: bool, rest: cstring)
    requires AllSpace(lead) && sign in {"", "+", "-"}
    requires base in {8, 10, 16} && (base == 10 ==> n > 0) && (rest != [] ==> !IsDigit(rest[0], base))
    ensures Strtoull(lead + (sign + (Prefix(base, capital) + (Numeral(n, base, capital) + rest))))
         == if n >= ULL_RANGE then ULL_RANGE - 1 else if sign == "-" then (ULL_RANGE - n) % ULL_RANGE else n
  {
    hide *;
    var number: cstring := Prefix(base, capital) + (Numeral(n, base, capital) + rest);
    NumberStarts(n, base, capital, rest);
    NumberIsFound(n, base, capital, rest);
    SignStarts(sign, number);
    SpaceIsSkipped(lead, sign + number);
    StrtoullOf(lead + (sign + number), sign, number);
  }

  lemma NumberIsFound(n: nat, base: nat, capital: bool, rest: cstring)
    requires base in {8, 10, 16} && (base == 10 ==> n > 0) && (rest != [] ==> !IsDigit(rest[0], base))
    ensures var (b, digits) := SplitBase(Prefix(base, capital) + (Numeral(n, base, capital) + rest));
            DigitsValue(digits, b, 0) == n
  {
    BaseIsFound(n, base, capital, rest);
    NumeralIsRead(n, base, capital, rest);
    ZeroInFront(Numeral(n, base, capital) + rest, base);
    hide *;
  }

  lemma SignStarts(sign: cstring, number: cstring)
    requires sign in {"", "+", "-"} && number != [] && !AllSpace(number[..1])
    ensures sign + number != [] && !AllSpace((sign + number)[..1])
  {
    if sign == "" {
      assert sign + number == number;
    } else {
      assert (sign + number)[..1][0] == sign[0];
    }
  }

  lemma StrtoullOf(text: cstring, sign: cstring, number: cstring)
    requires SkipSpace(text) == sign + number && sign in {"", "+", "-"}
    requires number != [] && number[0] != '-' && number[0] != '+'
    ensures var (base, digits) := SplitBase(number);
            var m := DigitsValue(digits, base, 0);
            Strtoull(text) == if m >= ULL_RANGE then ULL_RANGE - 1
                              else if sign == "-" then (ULL_RANGE - m) % ULL_RANGE else m
  {
    hide SplitBase, DigitsValue, SkipSpace;
    assert sign != "" ==> (sign + number)[1..] == number && (sign + number)[0] == sign[0];
    assert sign == "" ==> sign + number == number;
  }

  /** A number starts with a digit. */
  lemma NumberStarts(n: nat, base: nat, capital: bool, rest: seq<char>)
    requires base in {8, 10, 16}
    ensures var number := Prefix(base, capital) + (Numeral(n, base, capital) + rest);
            number != [] && !AllSpace(number[..1]) && number[0] != '-' && number[0] != '+'
  {
    NumeralDigits(n, base, capital);
    hide Numeral;
    var number := Prefix(base, capital) + (Numeral(n, base, capital) + rest);
    assert IsDigit(number[0], base) by {
      assert base == 10 ==> number[0] == Numeral(n, base, capital)[0];
    }
    assert number[..1][0] == number[0];
  }

  // ----- Words ----------------------------------------------------------------

  /** Letters that differ in case only are those with the same value as a digit. */
  lemma SameLetter(c: char, d: char)
    ensures Lower(c) == Lower(d) <==> c == d || (DigitValue(c).Some? && DigitValue(c) == DigitValue(d))
  {
  }

  /** So texts that differ in letter case only are the same numeral. */
  lemma {:induction false} CaseKeepsNumber(s: seq<char>, t: seq<char>, base: nat, acc: nat)
    requires EqualIgnoringCase(s, t)
    ensures DigitsValue(s, base, acc) == DigitsValue(t, base, acc)
    decreases |s|
  {
    hide DigitValue, Lower;
    if s != [] {
      SameLetter(s[0], t[0]);
      if IsDigit(s[0], base) {
        CaseKeepsNumber(s[1..], t[1..], base, acc * base + DigitValue(s[0]).value);
      }
    }
  }

  /** The false texts: nothing, a zero, and `false` in any letter case. */
  lemma FalseTexts(s: cstring)
    ensures !ToBoolean(Str(s)) <==>
              s == "" || s == "0"
              || (|s| == 5 && s[0] in {'f', 'F'} && s[1] in {'a', 'A'} && s[2] in {'l', 'L'} && s[3] in {'s', 'S'}
                  && s[4] in {'e', 'E'})
  {
    var f := "false";
    assert |s| == 1 ==> (s == "0" <==> s[0] == '0');
  }

  /** True counts as one, and false as nothing. */
  lemma TruthNumbers()
    ensures ToNumber(Bool(true)) == 1 && ToNumber(Bool(false)) == 0
    ensures ToText(Bool(true)) == "true" && ToText(Bool(false)) == "false" && ToText(Num(-42)) == "-42"
  {
    assert Decimal(42) == Decimal(4) + ['2'] && Decimal(4) == ['4'];
  }

  // ----- Tokens ---------------------------------------------------------------

  /** Names are made of letters, digits, underscores and dots. */
  lemma WordCharacters(c: char)
    ensures L.IsWordChar(c) <==> c == '_' || c == '.' || DigitValue(c).Some?
  {
  }

  /** A literal is its number, as far as an int goes, and -1 beyond 64 bits. */
  predicate IsLiteral(n: nat, t: L.Token) {
    && t.Number? && IsInt(t.n)
    && (n < INT_LIMIT ==> t.n == n)
    && (if n < ULL_RANGE then t.n % INT_RANGE == n % INT_RANGE else t.n == -1)
  }

  lemma LiteralIs(n: nat)
    ensures IsLiteral(n, L.Number(L.Saturated(n)))
  {
    LowBits(n);
    hide ToInt;
    assert ULL_RANGE - 1 == INT_RANGE * (INT_RANGE - 1) + (INT_RANGE - 1);
    LowBits(ULL_RANGE - 1);
  }

  lemma LowBits(n: nat)
    ensures ToInt(n) % INT_RANGE == n % INT_RANGE
    ensures n % INT_RANGE == INT_RANGE - 1 ==> ToInt(n) == -1
  {
    var low := n % INT_RANGE;
    assert low % INT_RANGE == low && (low - INT_RANGE) % INT_RANGE == low;
  }

  /** Hexadecimal literals, in any letter case. */
  lemma HexLiteral(n: nat, capital: bool, rest: cstring)
    requires Dump.Breaks(rest)
    ensures var t := L.Number(L.Saturated(n));
            IsLiteral(n, t) && L.Lex(("0x" + Numeral(n, 16, capital)) + rest) == [t] + L.Lex(rest)
  {
    LiteralIs(n);
    var t := "0x" + Numeral(n, 16, capital);
    NumeralDigits(n, 16, capital);
    NumeralIsRead(n, 16, capital, []);
    assert Numeral(n, 16, capital) + [] == Numeral(n, 16, capital) == t[2..];
    hide Numeral, DigitsValue, L.Saturated, IsLiteral;
    assert forall i :: 2 <= i < |t| ==> t[i] == Numeral(n, 16, capital)[i - 2];
    HexWord(t);
    hide L.Lex;
    Dump.LexWord(t, rest);
  }

  /** Decimal literals. */
  lemma DecimalLiteral(n: nat, rest: cstring)
    requires Dump.Breaks(rest)
    ensures var t := L.Number(L.Saturated(n));
            IsLiteral(n, t) && L.Lex(Numeral(n, 10, false) + rest) == [t] + L.Lex(rest)
  {
    LiteralIs(n);
    var t := Numeral(n, 10, false);
    NumeralDigits(n, 10, false);
    NumeralIsRead(n, 10, false, []);
    assert t + [] == t;
    hide Numeral, DigitsValue, L.Saturated, IsLiteral;
    DecimalWord(t);
    hide L.Lex;
    Dump.LexWord(t, rest);
  }

  lemma DecimalWord(t: cstring)
    requires t != [] && forall i :: 0 <= i < |t| ==> IsDigit(t[i], 10)
    ensures L.IsWord(t) && L.WordRule(t) == L.DecNumber
    ensures L.TokenOf(L.DecNumber, t) == [L.Number(L.Saturated(DigitsValue(t, 10, 0)))]
  {
    DecimalCharacters(t);
    hide DigitsValue, DigitValue, L.IsWordChar, L.Saturated;
  }

  lemma DecimalCharacters(t: seq<char>)
    requires t != [] && forall i :: 0 <= i < |t| ==> IsDigit(t[i], 10)
    ensures t[0] != 't' && t[0] != 'f' && (|t| >= 2 ==> t[1] != 'x')
    ensures forall i :: 0 <= i < |t| ==> L.IsWordChar(t[i])
  {
    forall i | 0 <= i < |t|
      ensures '0' <= t[i] <= '9' && L.IsWordChar(t[i])
    {
      assert IsDigit(t[i], 10);
    }
  }

  lemma HexWord(t: cstring)
    requires |t| >= 3 && t[0] == '0' && t[1] == 'x' && forall i :: 2 <= i < |t| ==> IsDigit(t[i], 16)
    ensures L.IsWord(t) && L.WordRule(t) == L.HexNumber
    ensures L.TokenOf(L.HexNumber, t) == [L.Number(L.Saturated(DigitsValue(t[2..], 16, 0)))]
  {
    hide DigitsValue;
  }
}
