/** Scripts written token by token, and that the scanner finds those tokens again. */
module Spelling {
  import opened CString
  import opened Values
  import opened Lexer
  import opened Numerals
  import Dump

  /** What may stand between two tokens. */
  datatype Gap = Space | Tab | LineEnd | Semicolon | Remark(text: cstring)

  /** A token with a gap behind it, or another gap.  `hex` is for numbers: how to write
      them, and with which letters. */
  datatype Piece = Token(token: Token, hex: bool, capital: bool, gap: Gap) | More(gap: Gap)

  const SYMBOLS: seq<cstring> := [
    "{", "}", "(", ")", "&&", "||", "==", "!=", "<=", ">=", ">", "<", "!", "=", "->", "+", "-", ","
  ]

  function GapText(g: Gap): (r: cstring)
    ensures r != []
  {
    match g
    case Space => " "
    case Tab => "\t"
    case LineEnd => "\n"
    case Semicolon => ";"
    case Remark(text) => "#" + text + "\n"
  }

  function Spell(t: Token, hex: bool, capital: bool): cstring {
    match t
    case Name(text) => text
    case Number(n) => if n < 0 then "" else if hex then "0x" + Numeral(n, 16, capital) else Numeral(n, 10, false)
    case Text(text) => ['"'] + text + ['"']
    case Truth(b) => if b then "true" else "false"
    case Symbol(text) => text
  }

  /** Tokens that can be written down. */
  predicate CanSpell(t: Token) {
    match t
    case Name(text) => Dump.IsName(text)
    case Number(n) => 0 <= n < INT_LIMIT
    case Text(text) => forall i :: 0 <= i < |text| ==> text[i] != '"' && text[i] != '\n'
    case Truth(_) => true
    case Symbol(text) => text in SYMBOLS
  }

  predicate IsPiece(p: Piece) {
    (p.Token? ==> CanSpell(p.token)) && (p.gap.Remark? ==> '\n' !in p.gap.text)
  }

  function PieceText(p: Piece): cstring {
    if p.Token? then Spell(p.token, p.hex, p.capital) + GapText(p.gap) else GapText(p.gap)
  }

  function Written(ps: seq<Piece>): cstring {
    if ps == [] then [] else PieceText(ps[0]) + Written(ps[1..])
  }

  function TokensOf(ps: seq<Piece>): seq<Token> {
    if ps == [] then [] else (if ps[0].Token? then [ps[0].token] else []) + TokensOf(ps[1..])
  }

  // ----- Gaps -----------------------------------------------------------------

  lemma LexBlank(c: byte, rest: cstring)
    requires c in {' ', '\t'}
    ensures Lex([c] + rest) == Lex(rest)
  {
    var s := [c] + rest;
    var n := BlankLength(s);
    assert s[1..] == rest && n == 1 + BlankLength(rest);
    assert TokenOf(Blank, s[..n]) == [];
    assert Scan(s) == Some((Blank, n));
    assert s[n..] == rest[n - 1..];
    if n > 1 {
      assert Scan(rest) == Some((Blank, n - 1)) && TokenOf(Blank, rest[..n - 1]) == [];
    } else {
      assert rest[0..] == rest;
    }
  }

  lemma LexRemark(text: cstring, rest: cstring)
    requires '\n' !in text
    ensures Lex(("#" + text + "\n") + rest) == Lex(rest)
  {
    var s := ("#" + text + "\n") + rest;
    var n := LineLength(s);
    assert forall i :: 0 <= i < |text| ==> s[i + 1] == text[i];
    assert s[|text| + 1] == '\n' && n == |text| + 1;
    assert Scan(s) == Some((Comment, n)) && TokenOf(Comment, s[..n]) == [];
    assert s[n..] == ['\n'] + rest;
    Dump.LexNewLine(rest);
  }

  lemma LexSemicolon(rest: cstring)
    ensures Lex(";" + rest) == Lex(rest)
  {
    var s := ";" + rest;
    if |s| >= 2 {
      assert s[..2][0] == ';';
      assert s[..2] !in FIXED;
    }
    assert s[..1] == ";" && ";" in FIXED;
    assert Scan(s) == Some((Fixed([s[0]]), 1));
    assert s[1..] == rest && TokenOf(Fixed([s[0]]), s[..1]) == [];
  }

  lemma LexGap(g: Gap, rest: cstring)
    requires g.Remark? ==> '\n' !in g.text
    ensures Lex(GapText(g) + rest) == Lex(rest)
  {
    hide Lex;
    match g
    case Space => LexBlank(' ', rest);
    case Tab => LexBlank('\t', rest);
    case LineEnd => Dump.LexNewLine(rest);
    case Semicolon => LexSemicolon(rest);
    case Remark(text) => LexRemark(text, rest);
  }

  /** A gap ends words and operators. */
  lemma GapStarts(g: Gap, rest: cstring)
    ensures var s := GapText(g) + rest; s != [] && s[0] in {' ', '\t', '\n', ';', '#'} && Dump.Breaks(s)
  {
  }

  // ----- Tokens ---------------------------------------------------------------

  lemma LexSymbol(t: cstring, rest: cstring)
    requires t in SYMBOLS && rest != [] && rest[0] in {' ', '\t', '\n', ';', '#'}
    ensures Lex(t + rest) == [Symbol(t)] + Lex(rest)
  {
    SymbolScan(t, rest);
    assert t != ";";
    hide Scan, FIXED, SYMBOLS;
    var s := t + rest;
    assert s[..|t|] == t && s[|t|..] == rest;
  }

  lemma SymbolScan(t: cstring, rest: cstring)
    requires t in SYMBOLS && rest != [] && rest[0] in {' ', '\t', '\n', ';', '#'}
    ensures t != [] && Scan(t + rest) == Some((Fixed(t), |t|))
  {
    var s := t + rest;
    SymbolsAreFixed(t);
    FixedTexts(t);
    assert s[0] == t[0] && s[..|t|] == t;
    if |t| == 1 {
      GapInNoPair(t[0], rest[0]);
      assert s[..2] == [t[0], rest[0]] && t == [t[0]];
    } else {
      assert t == [t[0], t[1]];
    }
    hide FIXED, SYMBOLS;
  }

  lemma SymbolsAreFixed(t: cstring)
    requires t in SYMBOLS
    ensures t in FIXED && t != ";"
  {
  }

  lemma GapInNoPair(a: byte, b: byte)
    requires b in {' ', '\t', '\n', ';', '#'}
    ensures [a, b] !in FIXED
  {
    assert [a, b][1] == b;
  }

  lemma LexToken(t: Token, hex: bool, capital: bool, rest: cstring)
    requires CanSpell(t) && rest != [] && rest[0] in {' ', '\t', '\n', ';', '#'} && Dump.Breaks(rest)
    ensures Lex(Spell(t, hex, capital) + rest) == [t] + Lex(rest)
  {
    hide Lex, Numeral, SYMBOLS, FIXED;
    match t
    case Name(text) => Dump.LexWord(text, rest);
    case Number(n) =>
      if hex {
        HexLiteral(n, capital, rest);
      } else {
        DecimalIsNumeral(n);
        Dump.LexDecimal(n, rest);
      }
    case Text(text) => Dump.LexQuoted(text, rest);
    case Truth(b) => Dump.LexWord(if b then "true" else "false", rest);
    case Symbol(text) => LexSymbol(text, rest);
  }

  lemma LexPiece(p: Piece, rest: cstring)
    requires IsPiece(p)
    ensures Lex(PieceText(p) + rest) == (if p.Token? then [p.token] else []) + Lex(rest)
  {
    hide Lex, Spell, GapText, CanSpell, Dump.Breaks;
    LexGap(p.gap, rest);
    if p.Token? {
      GapStarts(p.gap, rest);
      LexToken(p.token, p.hex, p.capital, GapText(p.gap) + rest);
      assert PieceText(p) + rest == Spell(p.token, p.hex, p.capital) + (GapText(p.gap) + rest);
    }
  }

  /** Whatever tokens are written, with whatever gaps between them, are scanned again. */
  lemma {:induction false} WrittenIsScanned(ps: seq<Piece>)
    requires forall i :: 0 <= i < |ps| ==> IsPiece(ps[i])
    ensures Lex(Written(ps)) == TokensOf(ps)
    decreases |ps|
  {
    hide Lex, PieceText, IsPiece;
    if ps == [] {
      NothingIsScanned();
    } else {
      WrittenIsScanned(ps[1..]);
      LexPiece(ps[0], Written(ps[1..]));
    }
  }

  lemma NothingIsScanned()
    ensures Lex([]) == []
  {
  }
}
