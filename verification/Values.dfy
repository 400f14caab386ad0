/** What src/script.c makes of a value when it wants a string, a number or a
    truth value, and why none of it is lost in the environment block. */
module Values {
  import opened CString

  /** A value a script variable can hold. */
  datatype Value = Str(s: cstring) | Num(n: int) | Bool(b: bool)

  const INT_LIMIT: int := 0x8000_0000
  const INT_RANGE: int := 0x1_0000_0000
  const ULL_RANGE: int := 0x1_0000_0000_0000_0000

  predicate IsInt(n: int) {
    -INT_LIMIT <= n < INT_LIMIT
  }

  /** The C int with the low 32 bits of a number. */
  function ToInt(n: int): (r: int)
    ensures IsInt(r)
    ensures IsInt(n) ==> r == n
  {
    var low := n % INT_RANGE;
    if low < INT_LIMIT then low else low - INT_RANGE
  }

  // ----- "%d" -----------------------------------------------------------------

  function DigitChar(d: nat): (c: byte)
    requires d < 10
    ensures '0' <= c <= '9'
  {
    ('0' as int + d) as char
  }

  function Decimal(n: nat): (r: cstring)
    ensures r != [] && forall i :: 0 <= i < |r| ==> '0' <= r[i] <= '9'
  {
    if n < 10 then [DigitChar(n)] else Decimal(n / 10) + [DigitChar(n % 10)]
  }

  function Format(n: int): cstring {
    if n < 0 then ['-'] + Decimal(-n) else Decimal(n)
  }

  // ----- strtoull -------------------------------------------------------------

  predicate IsSpace(c: char) {
    c == ' ' || '\t' <= c <= '\r'
  }

  function SkipSpace(s: seq<char>): seq<char> {
    if s != [] && IsSpace(s[0]) then SkipSpace(s[1..]) else s
  }

  /** The value of a digit in any base up to 36. */
  function DigitValue(c: char): Option<nat> {
    if '0' <= c <= '9' then Some(c as int - '0' as int)
    else if 'a' <= c <= 'z' then Some(c as int - 'a' as int + 10)
    else if 'A' <= c <= 'Z' then Some(c as int - 'A' as int + 10)
    else None
  }

  predicate IsDigit(c: char, base: nat) {
    DigitValue(c).Some? && DigitValue(c).value < base
  }

  /** All leading digits, most significant first. */
  function DigitsValue(s: seq<char>, base: nat, acc: nat): nat
    decreases |s|
  {
    if s == [] || !IsDigit(s[0], base) then acc
    else DigitsValue(s[1..], base, acc * base + DigitValue(s[0]).value)
  }

  /** The base that strtoull(.., 0) reads off a prefix, and the digits after it. */
  function SplitBase(s: seq<char>): (nat, seq<char>) {
    if |s| >= 3 && s[0] == '0' && (s[1] == 'x' || s[1] == 'X') && IsDigit(s[2], 16) then (16, s[2..])
    else if s != [] && s[0] == '0' then (8, s)
    else (10, s)
  }

  /** strtoull(s, NULL, 0): it saturates, and a sign negates modulo 2^64. */
  function Strtoull(text: cstring): (r: nat)
    ensures r < ULL_RANGE
  {
    var s := SkipSpace(text);
    var negative := s != [] && s[0] == '-';
    var signed := s != [] && (s[0] == '-' || s[0] == '+');
    var (base, digits) := SplitBase(if signed then s[1..] else s);
    var magnitude := DigitsValue(digits, base, 0);
    if magnitude >= ULL_RANGE then ULL_RANGE - 1
    else if negative then (ULL_RANGE - magnitude) % ULL_RANGE
    else magnitude
  }

  // ----- Conversions ----------------------------------------------------------

  function ToBoolean(v: Value): bool {
    match v
    case Str(s) => s != "" && !EqualIgnoringCase(s, "0") && !EqualIgnoringCase(s, "false")
    case Num(n) => n != 0
    case Bool(b) => b
  }

  function ToNumber(v: Value): (n: int)
    ensures v.Num? && IsInt(v.n) ==> IsInt(n)
  {
    match v
    case Str(s) => ToInt(Strtoull(s))
    case Num(n) => n
    case Bool(b) => if b then 1 else 0
  }

  function ToText(v: Value): cstring {
    match v
    case Str(s) => s
    case Num(n) => Format(n)
    case Bool(b) => if b then "true" else "false"
  }

  // ----- What a string keeps of a value ---------------------------------------

  lemma {:induction false} DigitsConcat(u: seq<char>, v: seq<char>, base: nat, acc: nat)
    requires forall i :: 0 <= i < |u| ==> IsDigit(u[i], base)
    ensures DigitsValue(u + v, base, acc) == DigitsValue(v, base, DigitsValue(u, base, acc))
    decreases |u|
  {
    if u == [] {
      assert u + v == v;
    } else {
      assert (u + v)[1..] == u[1..] + v;
      DigitsConcat(u[1..], v, base, acc * base + DigitValue(u[0]).value);
    }
  }

  lemma {:induction false} DecimalValue(n: nat)
    ensures DigitsValue(Decimal(n), 10, 0) == n
  {
    if n >= 10 {
      DecimalValue(n / 10);
      DigitsConcat(Decimal(n / 10), [DigitChar(n % 10)], 10, 0);
    }
  }

  lemma {:induction false} DecimalStart(n: nat)
    ensures Decimal(n)[0] == '0' ==> n == 0
  {
    if n >= 10 {
      DecimalStart(n / 10);
    }
  }

  lemma ParseDecimal(m: nat)
    ensures var (base, digits) := SplitBase(Decimal(m)); DigitsValue(digits, base, 0) == m
  {
    DecimalStart(m);
    if m == 0 {
      ZeroDigit();
    } else {
      DecimalValue(m);
    }
  }

  lemma ZeroDigit()
    ensures Decimal(0) == "0" && DigitsValue("0", 8, 0) == 0
  {
  }

  lemma StrtoullDecimal(m: nat)
    requires m < INT_RANGE
    ensures Strtoull(Decimal(m)) == m
    ensures m > 0 ==> Strtoull(['-'] + Decimal(m)) == ULL_RANGE - m
  {
    hide DigitsValue, SplitBase, Decimal;
    var text := ['-'] + Decimal(m);
    ParseDecimal(m);
    assert SkipSpace(Decimal(m)) == Decimal(m) && SkipSpace(text) == text;
    assert text[1..] == Decimal(m);
  }

  /** A number printed with %d reads back as itself, negative or not. */
  lemma NumberSurvives(n: int)
    requires IsInt(n)
    ensures ToNumber(Str(Format(n))) == n
  {
    hide Strtoull, Decimal;
    StrtoullDecimal(if n < 0 then -n else n);
  }

  /** Text has the truth value of what it was made from. */
  lemma TruthSurvives(v: Value)
    ensures ToBoolean(Str(ToText(v))) == ToBoolean(v)
  {
    if v.Num? {
      var m, text := if v.n < 0 then -v.n else v.n, Format(v.n);
      DecimalStart(m);
      assert text[0] == '-' || '0' <= text[0] <= '9';
      assert Lower(text[0]) != Lower("false"[0]);
      assert v.n != 0 ==> Lower(text[0]) != Lower("0"[0]);
    }
  }

  /** Only numbers keep their number: the text of a true boolean counts as 0. */
  lemma NumberOfText(v: Value)
    requires v.Num? ==> IsInt(v.n)
    ensures ToNumber(Str(ToText(v))) == ToNumber(v) <==> v != Bool(true)
  {
    match v
    case Str(s) =>
    case Num(n) => NumberSurvives(n);
    case Bool(b) =>
      var text := ToText(v);
      assert SkipSpace(text) == text && SplitBase(text) == (10, text);
      assert !IsDigit(text[0], 10);
      assert DigitsValue(text, 10, 0) == 0;
  }
}
