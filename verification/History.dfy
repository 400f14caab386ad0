/** The line history of src/linenoise.c: an array of lines that forgets the oldest
    ones, and the proof that it is a window on what was entered. */
module History {
  import opened CString

  // ----- What the history should be -------------------------------------------

  /** A stream of lines with adjacent duplicates collapsed. */
  function Dedup(lines: seq<cstring>): (r: seq<cstring>)
    ensures lines != [] ==> r != [] && r[|r| - 1] == lines[|lines| - 1]
  {
    if lines == [] then []
    else
      var front, last := Dedup(lines[..|lines| - 1]), lines[|lines| - 1];
      if front != [] && front[|front| - 1] == last then front else front + [last]
  }

  /** The last `n` lines, or all of them. */
  function LastOf(lines: seq<cstring>, n: nat): (r: seq<cstring>)
    ensures |r| == if n <= |lines| then n else |lines|
  {
    if n <= |lines| then lines[|lines| - n..] else lines
  }

  /** linenoiseHistoryAdd */
  function Added(lines: seq<cstring>, most: nat, line: cstring): seq<cstring> {
    if most == 0 || (lines != [] && lines[|lines| - 1] == line) then lines
    else if |lines| == most then lines[1..] + [line]
    else lines + [line]
  }

  lemma CopiedEnd<T>(all: seq<T>, copied: seq<T>, from: nat)
    requires from + |copied| == |all| && forall i :: 0 <= i < |copied| ==> copied[i] == all[from + i]
    ensures copied == all[from..]
  {
  }

  class LineHistory {
    var items: array?<cstring>
    var len: nat
    var maxLen: nat

    ghost predicate Valid()
      reads this, items
    {
      if items == null then len == 0 else items.Length == maxLen && len <= maxLen
    }

    /** The entries, oldest first. */
    ghost function Lines(): (r: seq<cstring>)
      requires Valid()
      reads this, items
      ensures |r| == len
    {
      if items == null then [] else items[..len]
    }

    constructor ()
      ensures Valid() && Lines() == [] && maxLen == 100
    {
      items, len, maxLen := null, 0, 100;
    }

    method Add(line: cstring) returns (added: bool)
      requires Valid()
      modifies this`items, this`len, items
      ensures Valid() && Lines() == Added(old(Lines()), maxLen, line)
      ensures added <==> maxLen > 0 && (old(Lines()) == [] || old(Lines())[old(len) - 1] != line)
      ensures items == old(items) || fresh(items)
    {
      if maxLen == 0 {
        return false;
      }
      if items == null {
        items := new cstring[maxLen](i => "");
      }
      if len > 0 && items[len - 1] == line {
        return false;
      }
      ghost var before := items[..len];
      if len == maxLen {
        forall i | 0 <= i < maxLen - 1 {
          items[i] := items[i + 1];
        }
        len := len - 1;
        assert items[..len] == before[1..];
      }
      ghost var kept := items[..len];
      items[len] := line;
      len := len + 1;
      assert items[..len] == kept + [line];
      return true;
    }

    method SetMaxLen(n: int) returns (ok: bool)
      requires Valid()
      modifies this
      ensures ok <==> n >= 1
      ensures Valid() && Lines() == (if ok then LastOf(old(Lines()), n) else old(Lines()))
      ensures maxLen == if ok then n else old(maxLen)
      ensures items == old(items) || fresh(items)
    {
      if n < 1 {
        return false;
      }
      if items != null {
        var toCopy := if n < len then n else len;
        var resized := new cstring[n](i => "");
        var from := len - toCopy;
        forall i | 0 <= i < toCopy {
          resized[i] := items[from + i];
        }
        CopiedEnd(items[..len], resized[..toCopy], from);
        items := resized;
      }
      maxLen := n;
      if len > maxLen {
        len := maxLen;
      }
      return true;
    }
  }

  // ----- A window on the stream -----------------------------------------------

  datatype Change = Enter(line: cstring) | Resize(n: nat)

  /** Lines and limit after some changes; a limit of 0 is refused. */
  function After(changes: seq<Change>, most: nat): (r: (seq<cstring>, nat))
    requires most > 0
    ensures r.1 > 0
  {
    if changes == [] then ([], most)
    else
      var (lines, limit) := After(changes[..|changes| - 1], most);
      match changes[|changes| - 1]
      case Enter(line) => (Added(lines, limit, line), limit)
      case Resize(n) => if n == 0 then (lines, limit) else (LastOf(lines, n), n)
  }

  function Entered(changes: seq<Change>): seq<cstring> {
    if changes == [] then []
    else
      var front := Entered(changes[..|changes| - 1]);
      match changes[|changes| - 1]
      case Enter(line) => front + [line]
      case Resize(_) => front
  }

  /** A history is the newest part of a stream. */
  predicate IsWindow(lines: seq<cstring>, stream: seq<cstring>) {
    && |lines| <= |stream| && lines == stream[|stream| - |lines|..]
    && (stream != [] ==> lines != [])
  }

  /** The window moves on when the line is a new one. */
  lemma WindowMoves(lines: seq<cstring>, d: seq<cstring>, most: nat, line: cstring)
    requires most > 0 && |lines| <= most && IsWindow(lines, d) && (d != [] ==> d[|d| - 1] != line)
    ensures IsWindow(Added(lines, most, line), d + [line])
    ensures |Added(lines, most, line)| <= most
  {
    WindowIs(lines, d);
    hide IsWindow, Added;
    SuffixGrows(d, lines, line);
    AddedIs(lines, most, line);
    var start := |d| - |lines|;
    SuffixIsWindow(d + [line], if |lines| == most then start + 1 else start);
  }

  lemma WindowIs(lines: seq<cstring>, stream: seq<cstring>)
    requires IsWindow(lines, stream)
    ensures |lines| <= |stream| && lines == stream[|stream| - |lines|..] && (stream != [] ==> lines != [])
  {
  }

  lemma SuffixIsWindow(stream: seq<cstring>, from: nat)
    requires from < |stream|
    ensures IsWindow(stream[from..], stream)
  {
  }

  lemma AddedIs(lines: seq<cstring>, most: nat, line: cstring)
    requires most > 0 && (lines != [] ==> lines[|lines| - 1] != line)
    ensures Added(lines, most, line) == (if |lines| == most then lines[1..] else lines) + [line]
  {
  }

  lemma SuffixGrows<T>(d: seq<T>, lines: seq<T>, x: T)
    requires |lines| <= |d| && lines == d[|d| - |lines|..]
    ensures (d + [x])[|d| - |lines|..] == lines + [x]
    ensures lines != [] ==> (d + [x])[|d| - |lines| + 1..] == lines[1..] + [x]
    ensures (d + [x])[|d|..] == [x]
    ensures lines != [] ==> lines[|lines| - 1] == d[|d| - 1]
  {
  }

  lemma LastOfIsWindow(lines: seq<cstring>, stream: seq<cstring>, n: nat)
    requires n > 0 && IsWindow(lines, stream)
    ensures IsWindow(LastOf(lines, n), stream)
  {
  }

  lemma EmptyWindow()
    ensures IsWindow([], Dedup([]))
  {
  }

  /** Whatever is entered and however the limit changes in between, the history is
      the newest part of what was entered, without adjacent duplicates. */
  lemma {:induction false} HistoryIsWindow(changes: seq<Change>, most: nat)
    requires most > 0
    ensures var (lines, limit) := After(changes, most);
            IsWindow(lines, Dedup(Entered(changes))) && |lines| <= limit
    decreases |changes|
  {
    hide Dedup, Added, LastOf, IsWindow;
    if changes == [] {
      EmptyWindow();
    } else {
      var front := changes[..|changes| - 1];
      var (lines, limit) := After(front, most);
      HistoryIsWindow(front, most);
      match changes[|changes| - 1]
      case Enter(line) =>
        DedupAppend(Entered(front), line);
        var d := Dedup(Entered(front));
        if d != [] && d[|d| - 1] == line {
          WindowIs(lines, d);
          Repeated(lines, limit, line);
        } else {
          WindowMoves(lines, d, limit, line);
        }
      case Resize(n) =>
        if n > 0 {
          LastOfIsWindow(lines, Dedup(Entered(front)), n);
        }
    }
  }

  lemma AddedIsLast(d: seq<cstring>, most: nat, line: cstring)
    requires most > 0
    ensures Added(LastOf(d, most), most, line)
         == LastOf(if d != [] && d[|d| - 1] == line then d else d + [line], most)
  {
    var lines := LastOf(d, most);
    LastOfIs(d, most);
    LastOfIs(d + [line], most);
    hide Added, LastOf;
    SuffixGrows(d, lines, line);
    if d != [] && d[|d| - 1] == line {
      Repeated(lines, most, line);
    } else {
      AddedIs(lines, most, line);
    }
  }

  lemma LastOfIs(lines: seq<cstring>, n: nat)
    ensures |lines| <= n ==> LastOf(lines, n) == lines == lines[0..]
    ensures |lines| >= n ==> LastOf(lines, n) == lines[|lines| - n..]
  {
  }

  lemma Repeated(lines: seq<cstring>, most: nat, line: cstring)
    requires lines != [] && lines[|lines| - 1] == line
    ensures Added(lines, most, line) == lines
  {
  }

  lemma DedupAppend(stream: seq<cstring>, line: cstring)
    ensures var d := Dedup(stream);
            Dedup(stream + [line]) == if d != [] && d[|d| - 1] == line then d else d + [line]
  {
    LastAdded(stream, line);
    var more := stream + [line];
    var front := Dedup(more[..|more| - 1]);
    assert Dedup(more) == if front != [] && front[|front| - 1] == line then front else front + [line];
  }

  lemma LastAdded<T>(s: seq<T>, x: T)
    ensures (s + [x])[..|s|] == s && (s + [x])[|s|] == x
  {
  }

  /** With a fixed limit it is exactly the last lines up to the limit. */
  lemma {:induction false} FixedLimitKeepsLast(changes: seq<Change>, most: nat)
    requires most > 0 && forall i :: 0 <= i < |changes| ==> changes[i].Enter?
    ensures After(changes, most) == (LastOf(Dedup(Entered(changes)), most), most)
    decreases |changes|
  {
    hide Dedup, LastOf, Added;
    if changes == [] {
      NothingEntered(most);
    } else {
      var front := changes[..|changes| - 1];
      var line := changes[|changes| - 1].line;
      FixedLimitKeepsLast(front, most);
      DedupAppend(Entered(front), line);
      AddedIsLast(Dedup(Entered(front)), most, line);
    }
  }

  lemma NothingEntered(most: nat)
    ensures LastOf(Dedup([]), most) == []
  {
  }
}
