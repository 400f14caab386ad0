/** The table of built-in functions in src/script.c, and how a call finds its handler. */
module FunctionTable {
  import opened CString
  import opened Script
  import opened TermBuild

  /** A handler that the machine has, or one that only prints a report. */
  datatype Handler = Does(fn: Fn) | Reports

  datatype Row = Row(name: cstring, arity: nat, handler: Handler)

  const TABLE: seq<Row> := OPERATORS + FIRST + SECOND + LAST

  const OPERATORS: seq<Row> := [Row("=", 2, Does(Assign)), Row("+", 2, Does(Add)), Row("-", 2, Does(Subtract))]
  const FIRST: seq<Row> := [
    Row("blkid", 0, Reports), Row("cmd", 1, Does(Cmd)), Row("env", 0, Reports),
    Row("fwup_revert", 0, Does(FwupRevert)), Row("getenv", 1, Does(Getenv)), Row("help", 0, Reports)
  ]
  const SECOND: seq<Row> := [
    Row("loadenv", 0, Does(Loadenv)), Row("ls", 0, Reports), Row("poweroff", 0, Does(Poweroff)),
    Row("print", 1, Does(Print)), Row("readfile", 1, Does(Readfile))
  ]
  const LAST: seq<Row> := [
    Row("reboot", 0, Does(Reboot)), Row("saveenv", 0, Does(Saveenv)), Row("setenv", 2, Does(Setenv)),
    Row("sleep", 0, Does(Sleep)), Row("vars", 0, Does(Vars))
  ]

  /** The first row with the name that is content with the number of parameters. */
  function Lookup(rows: seq<Row>, name: cstring, arity: nat): Option<Handler> {
    if rows == [] then None
    else if rows[0].name == name && arity >= rows[0].arity then Some(rows[0].handler)
    else Lookup(rows[1..], name, arity)
  }

  /** lookup_function */
  method LookupFunction(name: cstring, arity: nat) returns (handler: Option<Handler>)
    ensures handler == Lookup(TABLE, name, arity)
  {
    hide TABLE;
    var entry := 0;
    assert TABLE[0..] == TABLE;
    while entry < |TABLE|
      invariant 0 <= entry <= |TABLE| && Lookup(TABLE, name, arity) == Lookup(TABLE[entry..], name, arity)
    {
      assert TABLE[entry..][1..] == TABLE[entry + 1..];
      if TABLE[entry].name == name && arity >= TABLE[entry].arity {
        return Some(TABLE[entry].handler);
      }
      entry := entry + 1;
    }
    return None;
  }

  /** What the table asks of a call: one parameter less of sleep() than its handler reads. */
  function TableArity(fn: Fn): nat {
    if fn == Sleep then 0 else Arity(fn)
  }

  lemma {:induction false} LookupIn(rows: seq<Row>, name: cstring, arity: nat)
    ensures Lookup(rows, name, arity).None? ==>
              forall i :: 0 <= i < |rows| ==> rows[i].name != name || arity < rows[i].arity
    ensures Lookup(rows, name, arity).Some? ==>
              exists i :: 0 <= i < |rows| && rows[i].name == name && arity >= rows[i].arity
                          && Lookup(rows, name, arity) == Some(rows[i].handler)
    decreases |rows|
  {
    if rows != [] {
      LookupIn(rows[1..], name, arity);
      assert forall i :: 0 < i < |rows| ==> rows[i] == rows[1..][i - 1];
      if Lookup(rows, name, arity).Some? && !(rows[0].name == name && arity >= rows[0].arity) {
        var i :| 0 <= i < |rows[1..]| && rows[1..][i].name == name && arity >= rows[1..][i].arity
                 && Lookup(rows[1..], name, arity) == Some(rows[1..][i].handler);
        assert rows[i + 1] == rows[1..][i];
      }
    }
  }

  /** The row of a built-in has its name and its arity. */
  predicate IsRow(r: Row) {
    match r.handler
    case Does(fn) => r.name == NameOf(fn) && r.arity == TableArity(fn)
    case Reports => r.name in {"blkid", "env", "help", "ls"}
  }

  lemma RowsAre()
    ensures forall i :: 0 <= i < |TABLE| ==> IsRow(TABLE[i])
  {
    OperatorRows();
    FirstRows();
    SecondRows();
    LastRows();
    hide IsRow, OPERATORS, FIRST, SECOND, LAST;
  }

  lemma OperatorRows()
    ensures forall i :: 0 <= i < |OPERATORS| ==> IsRow(OPERATORS[i])
  {
  }

  lemma FirstRows()
    ensures forall i :: 0 <= i < |FIRST| ==> IsRow(FIRST[i])
  {
  }

  lemma SecondRows()
    ensures forall i :: 0 <= i < |SECOND| ==> IsRow(SECOND[i])
  {
  }

  lemma LastRows()
    ensures forall i :: 0 <= i < |LAST| ==> IsRow(LAST[i])
  {
  }

  /** Where a built-in stands in the table. */
  function Place(fn: Fn): nat {
    match fn
    case Assign => 0
    case Add => 1
    case Subtract => 2
    case Cmd => 4
    case FwupRevert => 6
    case Getenv => 7
    case Loadenv => 9
    case Poweroff => 11
    case Print => 12
    case Readfile => 13
    case Reboot => 14
    case Saveenv => 15
    case Setenv => 16
    case Sleep => 17
    case Vars => 18
  }

  lemma PlaceIs(fn: Fn)
    ensures |TABLE| == 19 && TABLE[Place(fn)].handler == Does(fn)
  {
  }

  /** What tells the names apart. */
  function Letters(name: cstring): (nat, char) {
    (|name|, if |name| > 0 then name[0] else ' ')
  }

  lemma LettersOf(fn: Fn)
    ensures var (n, a) := Letters(NameOf(fn));
            match fn
            case Assign => (n, a) == (1, '=')
            case Add => (n, a) == (1, '+')
            case Subtract => (n, a) == (1, '-')
            case Print => (n, a) == (5, 'p')
            case Vars => (n, a) == (4, 'v')
            case Sleep => (n, a) == (5, 's')
            case Reboot => (n, a) == (6, 'r')
            case Poweroff => (n, a) == (8, 'p')
            case Getenv => (n, a) == (6, 'g')
            case Setenv => (n, a) == (6, 's')
            case Loadenv => (n, a) == (7, 'l')
            case Saveenv => (n, a) == (7, 's')
            case Cmd => (n, a) == (3, 'c')
            case Readfile => (n, a) == (8, 'r')
            case FwupRevert => n == 11
  {
  }

  lemma NamesTell(fn: Fn, other: Fn)
    ensures NameOf(fn) == NameOf(other) ==> fn == other
    ensures NameOf(fn) !in {"blkid", "env", "help", "ls"}
  {
    LettersOf(fn);
    LettersOf(other);
    assert Letters("blkid").0 == 5 && Letters("blkid").1 == 'b' && Letters("env").0 == 3 && Letters("env").1 == 'e';
    assert Letters("help").0 == 4 && Letters("help").1 == 'h' && Letters("ls").0 == 2;
    hide NameOf;
  }

  /** A name finds a built-in exactly when it is its name and there are parameters enough
      for the table. */
  lemma LookupIsExact(name: cstring, arity: nat, fn: Fn)
    ensures Lookup(TABLE, name, arity) == Some(Does(fn)) <==> name == NameOf(fn) && arity >= TableArity(fn)
  {
    LookupIn(TABLE, name, arity);
    RowsAre();
    PlaceIs(fn);
    hide TABLE, NameOf, Lookup, TableArity, Arity;
    if name == NameOf(fn) && arity >= TableArity(fn) {
      assert TABLE[Place(fn)].handler.Does?;
      var i :| 0 <= i < |TABLE| && TABLE[i].name == name && arity >= TABLE[i].arity
               && Lookup(TABLE, name, arity) == Some(TABLE[i].handler);
      NamesTell(fn, if TABLE[i].handler.Does? then TABLE[i].handler.fn else fn);
    }
  }

  /** When exactly a call that the table accepts has too few parameters for its handler,
      which then follows NULL: `sleep()` without one. */
  lemma OnlySleepFails(fn: Fn, ps: seq<Term>, st: State, fuel: nat)
    requires Lookup(TABLE, NameOf(fn), |ps|) == Some(Does(fn)) && st.status == Running && fuel >= 1
    ensures |ps| < Arity(fn) <==> fn == Sleep && ps == []
    ensures fn == Sleep && ps == [] ==> Resolve(Some(Fun(fn, ps)), st, fuel).1.status == Crashed
  {
    LookupIsExact(NameOf(fn), |ps|, fn);
    hide Lookup, TABLE, NameOf;
    assert Resolve(Some(Fun(fn, ps)), st, fuel) == RunFunction(fn, ps, st, fuel);
  }
}
