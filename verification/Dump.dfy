/** What vars() prints is a program that sets the same variables again. */
module Dump {
  import opened CString
  import opened Values
  import opened Lexer
  import S = Script
  import T = Staged
  import StagedTheorems

  // ----- Printing -------------------------------------------------------------

  /** inspect, on the values that variables hold. */
  function Inspect(v: Value): cstring {
    match v
    case Str(s) => ['"'] + s + ['"']
    case Num(n) => Format(n)
    case Bool(b) => if b then "true" else "false"
  }

  type Variable = (cstring, Value)

  function Line(v: Variable): cstring {
    v.0 + ['='] + Inspect(v.1) + ['\n']
  }

  /** The output of vars(). */
  function Print(vars: seq<Variable>): cstring {
    if vars == [] then [] else Line(vars[0]) + Print(vars[1..])
  }

  /** A name that the scanner takes for an identifier. */
  predicate IsName(t: cstring) {
    IsWord(t) && WordRule(t) == Identifier
  }

  predicate IsPrintable(v: Value) {
    match v
    case Str(s) => forall i :: 0 <= i < |s| ==> s[i] != '"' && s[i] != '\n'
    case Num(n) => -INT_LIMIT < n < INT_LIMIT
    case Bool(_) => true
  }

  predicate Dumpable(vars: seq<Variable>) {
    forall i :: 0 <= i < |vars| ==> IsName(vars[i].0) && IsPrintable(vars[i].1)
  }

  // ----- Scanning it again ----------------------------------------------------

  function ValueTokens(v: Value): seq<Token> {
    match v
    case Str(s) => [Text(s)]
    case Num(n) => if n < 0 then [Symbol("-"), Number(-n)] else [Number(n)]
    case Bool(b) => [Truth(b)]
  }

  function LineTokens(v: Variable): seq<Token> {
    [Name(v.0), Symbol("=")] + ValueTokens(v.1)
  }

  function Tokens(vars: seq<Variable>): seq<Token> {
    if vars == [] then [] else LineTokens(vars[0]) + Tokens(vars[1..])
  }

  /** The text goes on with something that is not part of a word. */
  predicate Breaks(rest: cstring) {
    rest == [] || !IsWordChar(rest[0])
  }

  lemma LexWord(t: cstring, rest: cstring)
    requires IsWord(t) && Breaks(rest)
    ensures Lex(t + rest) == TokenOf(WordRule(t), t) + Lex(rest)
  {
    hide WordRule, TokenOf;
    var s := t + rest;
    assert s[0] == t[0];
    var n := WordLength(s);
    assert forall i :: 0 <= i < |t| ==> s[i] == t[i];
    assert rest != [] ==> s[|t|] == rest[0];
    assert n == |t|;
    assert s[..n] == t && s[n..] == rest;
  }

  lemma FixedPairs(t: cstring)
    requires |t| == 2
    ensures t in FIXED && t[0] == '=' ==> t[1] == '='
    ensures t in FIXED && t[0] == '-' ==> t[1] == '>'
  {
  }

  /** One of the operators `=` and `-`, when it is not the start of a longer one. */
  lemma LexOperator(c: byte, rest: cstring)
    requires c == '=' || c == '-'
    requires rest != [] && rest[0] != '>' && rest[0] != '='
    ensures Lex([c] + rest) == [Symbol([c])] + Lex(rest)
  {
    var s: cstring := [c] + rest;
    ScanOperator(c, rest);
    hide Scan;
    assert s[..1] == [c] && s[1..] == rest;
    assert TokenOf(Fixed([c]), s[..1]) == [Symbol([c])];
  }

  lemma ScanOperator(c: byte, rest: cstring)
    requires c == '=' || c == '-'
    requires rest != [] && rest[0] != '>' && rest[0] != '='
    ensures Scan([c] + rest) == Some((Fixed([c]), 1))
  {
    assert "=" in FIXED && "-" in FIXED;
    var s: cstring := [c] + rest;
    var two := s[..2];
    assert two[0] == c && two[1] == rest[0];
    FixedPairs(two);
    hide FIXED;
    assert s[..1] == [c];
  }

  lemma LexNewLine(rest: cstring)
    ensures Lex(['\n'] + rest) == Lex(rest)
  {
    var s := ['\n'] + rest;
    assert Scan(s) == Some((NewLine, 1)) && s[1..] == rest;
    assert TokenOf(NewLine, s[..1]) == [];
  }

  lemma LexQuoted(text: cstring, rest: cstring)
    requires IsPrintable(Str(text))
    ensures Lex(['"'] + text + ['"'] + rest) == [Text(text)] + Lex(rest)
  {
    var s := ['"'] + text + ['"'] + rest;
    var n := PlainLength(s[1..]);
    assert forall i :: 0 <= i < |text| ==> s[1..][i] == text[i];
    assert s[1..][|text|] == '"';
    assert n == |text|;
    assert s[n + 1] == '"' && Scan(s) == Some((Quoted, n + 2));
    assert s[..n + 2][1..n + 1] == text && s[n + 2..] == rest;
  }

  lemma LexDecimal(m: nat, rest: cstring)
    requires m < INT_LIMIT && Breaks(rest)
    ensures Lex(Decimal(m) + rest) == [Number(m)] + Lex(rest)
  {
    var t := Decimal(m);
    assert forall i :: 0 <= i < |t| ==> IsDigit(t[i], 10) && IsWordChar(t[i]);
    assert WordRule(t) == DecNumber by {
      assert t[0] != 't' && t[0] != 'f';
      assert |t| >= 2 ==> t[1] != 'x';
    }
    DecimalValue(m);
    hide Lex, Decimal, DigitsValue;
    LexWord(t, rest);
  }

  lemma LexValue(v: Value, rest: cstring)
    requires IsPrintable(v)
    ensures Lex(Inspect(v) + (['\n'] + rest)) == ValueTokens(v) + Lex(rest)
  {
    hide Lex, Decimal;
    var after := ['\n'] + rest;
    LexNewLine(rest);
    match v
    case Str(s) =>
      LexQuoted(s, after);
    case Num(n) =>
      if n < 0 {
        LexDecimal(-n, after);
        DigitsFirst(-n, after);
        LexOperator('-', Decimal(-n) + after);
        assert Format(n) + after == ['-'] + (Decimal(-n) + after);
        assert [Symbol("-")] + ([Number(-n)] + Lex(rest)) == ValueTokens(v) + Lex(rest);
      } else {
        LexDecimal(n, after);
      }
    case Bool(b) =>
      LexWord(Inspect(v), after);
  }

  lemma DigitsFirst(m: nat, rest: cstring)
    ensures (Decimal(m) + rest)[0] != '>' && (Decimal(m) + rest)[0] != '='
  {
  }

  lemma ValueStarts(v: Value, rest: cstring)
    ensures Inspect(v) + rest != [] && (Inspect(v) + rest)[0] !in {'=', '>'}
  {
    if v.Num? {
      DigitsFirst(if v.n < 0 then -v.n else v.n, rest);
    }
  }

  lemma LexLine(v: Variable, rest: cstring)
    requires IsName(v.0) && IsPrintable(v.1)
    ensures Lex(Line(v) + rest) == LineTokens(v) + Lex(rest)
  {
    hide Lex, Inspect, ValueTokens;
    var value := Inspect(v.1) + (['\n'] + rest);
    assert Line(v) + rest == v.0 + (['='] + value);
    LexWord(v.0, ['='] + value);
    ValueStarts(v.1, ['\n'] + rest);
    LexOperator('=', value);
    LexValue(v.1, rest);
    assert [Name(v.0)] + ([Symbol("=")] + (ValueTokens(v.1) + Lex(rest))) == LineTokens(v) + Lex(rest);
  }

  /** The text scans into one assignment a variable. */
  lemma {:induction false} PrintScans(vars: seq<Variable>)
    requires Dumpable(vars)
    ensures Lex(Print(vars)) == Tokens(vars)
    decreases |vars|
  {
    if vars != [] {
      hide Line, LineTokens;
      LexLine(vars[0], Print(vars[1..]));
      PrintScans(vars[1..]);
    }
  }

  // ----- Parsing and running it -----------------------------------------------

  /** A term of the output: a literal, or a negated number. */
  function ParseTerm(ts: seq<Token>): (r: Option<(S.Term, nat)>)
    ensures r.Some? ==> r.value.1 <= |ts|
  {
    if ts == [] then None
    else
      match ts[0]
      case Text(s) => Some((S.Lit(Str(s)), 1))
      case Number(n) => Some((S.Lit(Num(n)), 1))
      case Truth(b) => Some((S.Lit(Bool(b)), 1))
      case Symbol(text) =>
        if text == "-" && |ts| >= 2 && ts[1].Number? then Some((S.Neg(S.Lit(Num(ts[1].n))), 2)) else None
      case Name(_) => None
  }

  /** Statements of the form `name = term`, each up to the next name. */
  function Parse(ts: seq<Token>): Option<seq<T.Stmt>>
    decreases |ts|
  {
    if ts == [] then Some([])
    else if |ts| < 3 || !ts[0].Name? || ts[1] != Symbol("=") then None
    else
      match ParseTerm(ts[2..])
      case None => None
      case Some((t, k)) =>
        var rest := ts[2 + k..];
        if rest != [] && !rest[0].Name? then None
        else
          match Parse(rest)
          case None => None
          case Some(more) => Some([T.Do(S.Fun(S.Assign, [S.Ident(ts[0].text), t]))] + more)
  }

  function TermOf(v: Value): S.Term {
    if v.Num? && v.n < 0 then S.Neg(S.Lit(Num(-v.n))) else S.Lit(v)
  }

  function Assignment(v: Variable): T.Stmt {
    T.Do(S.Fun(S.Assign, [S.Ident(v.0), TermOf(v.1)]))
  }

  function Program(vars: seq<Variable>): seq<T.Stmt> {
    if vars == [] then [] else [Assignment(vars[0])] + Program(vars[1..])
  }

  lemma ParseValue(v: Value, rest: seq<Token>)
    ensures ParseTerm(ValueTokens(v) + rest) == Some((TermOf(v), |ValueTokens(v)|))
  {
  }

  lemma {:induction false} TokensParse(vars: seq<Variable>)
    ensures Parse(Tokens(vars)) == Some(Program(vars))
    decreases |vars|
  {
    if vars != [] {
      var ts, v, rest := Tokens(vars), vars[0], Tokens(vars[1..]);
      assert ts[2..] == ValueTokens(v.1) + rest;
      ParseValue(v.1, rest);
      var k := |ValueTokens(v.1)|;
      assert ts[2 + k..] == rest;
      TokensParse(vars[1..]);
      assert rest != [] ==> rest[0].Name?;
    }
  }

  /** The store with some variables. */
  function Stored(vars: seq<Variable>, store: map<cstring, Option<S.Term>>): map<cstring, Option<S.Term>> {
    if vars == [] then store
    else Stored(vars[1..], store[vars[0].0 := Some(S.Lit(vars[0].1))])
  }

  lemma RunAssignment(v: Variable, st: S.State)
    requires IsPrintable(v.1) && st.status == S.Running
    ensures T.DirectStmt(Assignment(v), st) == S.SetVariable(st, v.0, Some(S.Lit(v.1)))
  {
    var t := TermOf(v.1);
    assert T.Eval(t, st) == (v.1, st);
    hide T.Eval;
  }

  lemma AssignmentIsPlain(v: Variable)
    ensures T.CleanStmt(Assignment(v)) && T.SettledStmt(Assignment(v))
    ensures StagedTheorems.StmtDepth(Assignment(v)) == 3
  {
    var t := TermOf(v.1);
    var ps := [S.Ident(v.0), t];
    assert T.PureNegs(t) && T.ValueTerm(t);
    assert t.Neg? ==> T.Depth(t) == T.Depth(t.operand) && t.operand.Lit?;
    assert T.Depth(t) == 1;
    assert ps[1..] == [t] && [t][1..] == [];
    assert T.DepthAll([t]) == 1;
    assert T.DepthAll(ps) == 1;
  }

  lemma {:induction false} RunProgram(vars: seq<Variable>, st: S.State)
    requires Dumpable(vars) && st.status == S.Running
    ensures T.DirectRun(Program(vars), st) == st.(store := Stored(vars, st.store))
    decreases |vars|
  {
    if vars != [] {
      hide T.DirectStmt, Assignment;
      RunAssignment(vars[0], st);
      var p := Program(vars);
      assert p[0] == Assignment(vars[0]) && p[1..] == Program(vars[1..]);
      RunProgram(vars[1..], S.SetVariable(st, vars[0].0, Some(S.Lit(vars[0].1))));
    }
  }

  lemma {:induction false} ProgramIsPlain(vars: seq<Variable>)
    ensures T.Clean(Program(vars))
    ensures forall i :: 0 <= i < |Program(vars)| ==> T.SettledStmt(Program(vars)[i])
    ensures StagedTheorems.ProgramDepth(Program(vars)) == 3 * |vars|
  {
    if vars != [] {
      hide T.CleanStmt, T.SettledStmt, StagedTheorems.StmtDepth, Assignment;
      AssignmentIsPlain(vars[0]);
      ProgramIsPlain(vars[1..]);
      assert Program(vars)[1..] == Program(vars[1..]);
    }
  }

  predicate UniqueNames(vars: seq<Variable>) {
    forall i, j :: 0 <= i < j < |vars| ==> vars[i].0 != vars[j].0
  }

  lemma {:induction false} StoredHas(vars: seq<Variable>, store: map<cstring, Option<S.Term>>)
    requires UniqueNames(vars)
    ensures Stored(vars, store).Keys == store.Keys + (set i | 0 <= i < |vars| :: vars[i].0)
    ensures forall i :: 0 <= i < |vars| ==> Stored(vars, store)[vars[i].0] == Some(S.Lit(vars[i].1))
    ensures forall n :: n in store && (forall i :: 0 <= i < |vars| ==> vars[i].0 != n)
                ==> Stored(vars, store)[n] == store[n]
    decreases |vars|
  {
    if vars != [] {
      StoredHas(vars[1..], store[vars[0].0 := Some(S.Lit(vars[0].1))]);
    }
  }

  /** Feeding the output of vars() to a machine without variables gives it exactly
      the variables that were printed, with their values, and does nothing else. */
  lemma DumpRestores(vars: seq<Variable>, st: S.State, fuel: nat)
    requires Dumpable(vars) && UniqueNames(vars)
    requires st.status == S.Running && st.store == map[] && fuel >= 3 * |vars|
    ensures Parse(Lex(Print(vars))).Some?
    ensures var t := T.StagedRun(Parse(Lex(Print(vars))).value, st, fuel);
            t == st.(store := t.store)
            && t.store.Keys == (set i | 0 <= i < |vars| :: vars[i].0)
            && forall i :: 0 <= i < |vars| ==> t.store[vars[i].0] == Some(S.Lit(vars[i].1))
  {
    assert T.Sound(st);
    hide Print, Lex, Tokens, Program, Stored, T.Sound, Dumpable;
    PrintScans(vars);
    TokensParse(vars);
    ProgramIsPlain(vars);
    StagedTheorems.StagingKeepsMeaning(Program(vars), st, fuel);
    RunProgram(vars, st);
    StoredHas(vars, map[]);
  }
}
