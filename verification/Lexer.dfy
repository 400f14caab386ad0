/** The tokens of src/lexer.l: its rules as patterns, a scanner, and the proof that
    the scanner takes the longest match and, among equals, the earliest rule. */
module Lexer {
  import opened CString
  import opened Values

  datatype Token =
    | Name(text: cstring)
    | Number(n: int)
    | Text(text: cstring)
    | Truth(b: bool)
    | Symbol(text: cstring)

  /** The rules, in the order of the file.  All fixed texts but `true` and `false`
      are `Fixed`. */
  datatype Rule =
    | Blank | Comment | TrueWord | FalseWord
    | Fixed(text: cstring)
    | Quoted | HexNumber | DecNumber | Identifier | NewLine

  const FIXED: set<cstring> := {
    "{", "}", "(", ")", "&&", "||", "==", "!=", "<=", ">=", ">", "<", "!", "=", "->", ";", "+", "-", ","
  }

  /** Position in the file, as far as it decides between rules. */
  function Rank(r: Rule): nat {
    match r
    case Blank => 0
    case Comment => 1
    case TrueWord => 2
    case FalseWord => 3
    case Fixed(_) => 4
    case Quoted => 5
    case HexNumber => 6
    case DecNumber => 7
    case Identifier => 8
    case NewLine => 9
  }

  predicate IsWordChar(c: char) {
    c == '_' || c == '.' || 'a' <= c <= 'z' || 'A' <= c <= 'Z' || '0' <= c <= '9'
  }

  predicate IsBlank(c: char) {
    c == ' ' || c == '\t'
  }

  predicate IsWord(t: seq<char>) {
    t != [] && forall i :: 0 <= i < |t| ==> IsWordChar(t[i])
  }

  predicate IsDec(t: seq<char>) {
    t != [] && forall i :: 0 <= i < |t| ==> IsDigit(t[i], 10)
  }

  predicate IsHex(t: seq<char>) {
    |t| >= 3 && t[0] == '0' && t[1] == 'x' && forall i :: 2 <= i < |t| ==> IsDigit(t[i], 16)
  }

  predicate IsQuoted(t: seq<char>) {
    |t| >= 2 && t[0] == '"' && t[|t| - 1] == '"' && forall i :: 0 < i < |t| - 1 ==> t[i] != '"' && t[i] != '\n'
  }

  /** The pattern of a rule. */
  predicate Matches(r: Rule, t: seq<char>) {
    match r
    case Blank => t != [] && forall i :: 0 <= i < |t| ==> IsBlank(t[i])
    case Comment => t != [] && t[0] == '#' && forall i :: 0 <= i < |t| ==> t[i] != '\n'
    case TrueWord => t == "true"
    case FalseWord => t == "false"
    case Fixed(text) => text in FIXED && t == text
    case Quoted => IsQuoted(t)
    case HexNumber => IsHex(t)
    case DecNumber => IsDec(t)
    case Identifier => IsWord(t)
    case NewLine => t == "\n"
  }

  /** A rule that matches `m` characters comes after one that matches `n`. */
  predicate Yields(q: Rule, m: nat, r: Rule, n: nat) {
    m < n || (m == n && (Rank(q) > Rank(r) || q == r))
  }

  /** No rule matches a longer prefix, and no earlier one as long a prefix. */
  ghost predicate IsBest(s: seq<char>, r: Rule, n: nat) {
    && n <= |s| && Matches(r, s[..n])
    && forall q, m :: 0 <= m <= |s| && Matches(q, s[..m]) ==> Yields(q, m, r, n)
  }

  // ----- The scanner ----------------------------------------------------------

  function WordLength(s: seq<char>): (n: nat)
    ensures n <= |s| && forall i :: 0 <= i < n ==> IsWordChar(s[i])
    ensures n < |s| ==> !IsWordChar(s[n])
  {
    if s == [] || !IsWordChar(s[0]) then 0 else 1 + WordLength(s[1..])
  }

  function BlankLength(s: seq<char>): (n: nat)
    ensures n <= |s| && forall i :: 0 <= i < n ==> IsBlank(s[i])
    ensures n < |s| ==> !IsBlank(s[n])
  {
    if s == [] || !IsBlank(s[0]) then 0 else 1 + BlankLength(s[1..])
  }

  function LineLength(s: seq<char>): (n: nat)
    ensures n <= |s| && forall i :: 0 <= i < n ==> s[i] != '\n'
    ensures n < |s| ==> s[n] == '\n'
  {
    if s == [] || s[0] == '\n' then 0 else 1 + LineLength(s[1..])
  }

  /** Characters up to a quote, a new line or the end. */
  function PlainLength(s: seq<char>): (n: nat)
    ensures n <= |s| && forall i :: 0 <= i < n ==> s[i] != '"' && s[i] != '\n'
    ensures n < |s| ==> s[n] == '"' || s[n] == '\n'
  {
    if s == [] || s[0] == '"' || s[0] == '\n' then 0 else 1 + PlainLength(s[1..])
  }

  function WordRule(t: seq<char>): Rule {
    if t == "true" then TrueWord
    else if t == "false" then FalseWord
    else if IsHex(t) then HexNumber
    else if IsDec(t) then DecNumber
    else Identifier
  }

  /** The rule that applies and how much it takes, or nothing, in which case the
      scanner echoes one character. */
  function Scan(s: seq<char>): (r: Option<(Rule, nat)>)
    ensures r.Some? ==> 0 < r.value.1 <= |s|
  {
    if s == [] then None
    else if IsWordChar(s[0]) then Some((WordRule(s[..WordLength(s)]), WordLength(s)))
    else if IsBlank(s[0]) then Some((Blank, BlankLength(s)))
    else if s[0] == '#' then Some((Comment, LineLength(s)))
    else if s[0] == '\n' then Some((NewLine, 1))
    else if s[0] == '"' then
      var n := PlainLength(s[1..]);
      if n + 1 < |s| && s[n + 1] == '"' then Some((Quoted, n + 2)) else None
    else if |s| >= 2 && s[..2] in FIXED then Some((Fixed([s[0], s[1]]), 2))
    else if s[..1] in FIXED then Some((Fixed([s[0]]), 1))
    else None
  }

  // ----- The scanner follows the rules ----------------------------------------

  lemma FixedTexts(t: seq<char>)
    ensures t in FIXED ==> 1 <= |t| <= 2
    ensures t in FIXED ==> !IsWordChar(t[0]) && !IsBlank(t[0]) && t[0] != '#' && t[0] != '\n' && t[0] != '"'
  {
  }

  /** What the first character of a match says about the rule. */
  lemma MatchStarts(q: Rule, t: seq<char>)
    requires Matches(q, t)
    ensures t != []
    ensures IsWordChar(t[0]) <==> q in {TrueWord, FalseWord, HexNumber, DecNumber, Identifier}
    ensures IsBlank(t[0]) <==> q == Blank
    ensures t[0] == '#' <==> q == Comment
    ensures t[0] == '\n' <==> q == NewLine
    ensures t[0] == '"' <==> q == Quoted
  {
    if q.Fixed? {
      FixedTexts(q.text);
    }
  }

  lemma WordMatch(q: Rule, t: seq<char>)
    requires Matches(q, t) && IsWordChar(t[0])
    ensures IsWord(t) && (Rank(q) > Rank(WordRule(t)) || q == WordRule(t))
  {
    MatchStarts(q, t);
  }

  lemma WordScan(s: seq<char>)
    requires s != [] && IsWordChar(s[0])
    ensures IsBest(s, WordRule(s[..WordLength(s)]), WordLength(s))
  {
    hide Matches, WordRule, Yields;
    var n := WordLength(s);
    assert IsWord(s[..n]);
    WordRuleMatches(s[..n]);
    var r := WordRule(s[..n]);
    forall q, m | 0 <= m <= |s| && Matches(q, s[..m])
      ensures Yields(q, m, r, n)
    {
      WordBeats(s, q, m);
    }
  }

  lemma WordBeats(s: seq<char>, q: Rule, m: nat)
    requires s != [] && IsWordChar(s[0]) && m <= |s| && Matches(q, s[..m])
    ensures var n := WordLength(s);
            Yields(q, m, WordRule(s[..n]), n)
  {
    hide WordRule, Rank, Matches;
    var n := WordLength(s);
    MatchStarts(q, s[..m]);
    WordMatch(q, s[..m]);
  }

  lemma WordRuleMatches(t: seq<char>)
    requires IsWord(t)
    ensures Matches(WordRule(t), t)
  {
  }

  lemma QuotedScan(s: seq<char>)
    requires s != [] && s[0] == '"'
    ensures match Scan(s)
            case Some((r, n)) => r == Quoted && IsBest(s, r, n)
            case None => forall m :: 0 <= m <= |s| ==> !IsQuoted(s[..m])
  {
    var n := PlainLength(s[1..]);
    assert forall i :: 0 <= i < n ==> s[1..][i] == s[i + 1];
    forall m | 0 <= m <= |s| && IsQuoted(s[..m])
      ensures m == n + 2
    {
      assert s[..m][m - 1] == s[m - 1];
      assert n + 1 < m ==> s[..m][n + 1] == s[n + 1];
    }
    forall q, m | 0 <= m <= |s| && Matches(q, s[..m])
      ensures q == Quoted && m == n + 2
    {
      MatchStarts(q, s[..m]);
    }
    if n + 1 < |s| && s[n + 1] == '"' {
      assert IsQuoted(s[..n + 2]);
    }
  }

  lemma FixedScan(s: seq<char>)
    requires s != [] && !IsWordChar(s[0]) && !IsBlank(s[0]) && s[0] !in {'#', '\n', '"'}
    ensures match Scan(s)
            case Some((r, n)) => r.Fixed? && IsBest(s, r, n)
            case None => forall m :: 0 <= m <= |s| ==> s[..m] !in FIXED
  {
    forall q, m | 0 <= m <= |s| && Matches(q, s[..m])
      ensures q.Fixed? && q.text == s[..m] && 1 <= m <= 2 && s[..m] in FIXED
    {
      MatchStarts(q, s[..m]);
      FixedTexts(q.text);
    }
    match Scan(s)
    case Some((r, n)) =>
      assert s[..n] == r.text;
      forall q, m | 0 <= m <= |s| && Matches(q, s[..m])
        ensures Yields(q, m, r, n)
      {
      }
      assert IsBest(s, r, n);
    case None =>
      forall m | 0 <= m <= |s|
        ensures s[..m] !in FIXED
      {
        FixedTexts(s[..m]);
      }
  }

  /** The scanner takes the longest match, and the earliest rule among equals; it
      gives up only where no rule matches anything. */
  lemma ScanIsBest(s: seq<char>)
    requires s != []
    ensures match Scan(s)
            case Some((r, n)) => IsBest(s, r, n)
            case None => forall q, m :: 0 <= m <= |s| ==> !Matches(q, s[..m])
  {
    if IsWordChar(s[0]) {
      WordScan(s);
    } else if s[0] == '"' {
      QuotedScan(s);
      forall q, m | 0 <= m <= |s| && Matches(q, s[..m])
        ensures q == Quoted
      {
        MatchStarts(q, s[..m]);
      }
    } else if IsBlank(s[0]) || s[0] == '#' || s[0] == '\n' {
      LineScan(s);
    } else {
      FixedScan(s);
      forall q, m | 0 <= m <= |s| && Matches(q, s[..m])
        ensures q.Fixed? && s[..m] in FIXED
      {
        MatchStarts(q, s[..m]);
      }
    }
  }

  lemma LineScan(s: seq<char>)
    requires s != [] && (IsBlank(s[0]) || s[0] == '#' || s[0] == '\n')
    ensures Scan(s).Some? && IsBest(s, Scan(s).value.0, Scan(s).value.1)
  {
    var (r, n) := Scan(s).value;
    forall q, m | 0 <= m <= |s| && Matches(q, s[..m])
      ensures q == r && m <= n
    {
      MatchStarts(q, s[..m]);
    }
  }

  // ----- Tokens ---------------------------------------------------------------

  /** strtoul saturates; the result becomes an int. */
  function Saturated(n: nat): int {
    ToInt(if n < ULL_RANGE then n else ULL_RANGE - 1)
  }

  function TokenOf(r: Rule, t: cstring): seq<Token> {
    match r
    case TrueWord => [Truth(true)]
    case FalseWord => [Truth(false)]
    case Fixed(text) => if text == ";" then [] else [Symbol(text)]
    case Quoted => if |t| >= 2 then [Text(t[1..|t| - 1])] else []
    case HexNumber => [Number(Saturated(DigitsValue(if |t| >= 2 then t[2..] else t, 16, 0)))]
    case DecNumber => [Number(Saturated(DigitsValue(t, 10, 0)))]
    case Identifier => [Name(t)]
    case _ => []
  }

  function Lex(s: cstring): seq<Token>
    decreases |s|
  {
    if s == [] then []
    else
      match Scan(s)
      case None => Lex(s[1..])
      case Some((r, n)) => TokenOf(r, s[..n]) + Lex(s[n..])
  }
}
