/** The line editor of src/linenoise.c: a buffer with a cursor that is changed in
    place, against a line split at the cursor. */
module LineEdit {
  import opened CString
  import opened History

  // ----- The line as the user sees it -----------------------------------------

  /** A line under edit: the text on both sides of the cursor, the history, and how
      far back in it the line is. */
  datatype Edit = Edit(left: cstring, right: cstring, lines: seq<cstring>, index: nat)

  datatype Key =
    | Char(c: byte)
    | Backspace | Delete | ControlD | Transpose
    | Left | Right | Home | End
    | KillLine | KillEnd | DeleteWord | ClearScreen
    | Previous | Next
    | Enter | Interrupt
    | Ignored

  /** Editing goes on, or the call returns: with the line, or without one. */
  datatype Outcome = Going(edit: Edit) | Line(text: cstring, lines: seq<cstring>) | NoLine(lines: seq<cstring>)

  predicate IsEditing(e: Edit, capacity: nat) {
    |e.left| + |e.right| <= capacity && e.index < |e.lines|
  }

  function CurrentText(e: Edit): cstring {
    e.left + e.right
  }

  /** Drop blanks from the end, then what is not blank. */
  function WithoutWord(s: cstring): (r: cstring)
    ensures r <= s
  {
    WithoutLetters(WithoutBlanks(s))
  }

  function WithoutBlanks(s: cstring): (r: cstring)
    ensures r <= s
    decreases |s|
  {
    if s != [] && s[|s| - 1] == ' ' then WithoutBlanks(s[..|s| - 1]) else s
  }

  function WithoutLetters(s: cstring): (r: cstring)
    ensures r <= s
    decreases |s|
  {
    if s != [] && s[|s| - 1] != ' ' then WithoutLetters(s[..|s| - 1]) else s
  }

  function Recalled(entry: cstring, capacity: nat): (r: cstring)
    requires capacity > 0
    ensures |r| < capacity
  {
    if |entry| < capacity then entry else entry[..capacity - 1]
  }

  /** Up (`back`) and Down: the line goes into its place in the history first. */
  function Moved(e: Edit, capacity: nat, back: bool): Edit
    requires capacity > 0 && e.index < |e.lines|
  {
    if |e.lines| <= 1 then e
    else
      var lines := e.lines[|e.lines| - 1 - e.index := CurrentText(e)];
      var index := if back then e.index + 1 else e.index - 1;
      if index < 0 then e.(lines := lines)
      else if index >= |lines| then e.(lines := lines)
      else Edit(Recalled(lines[|lines| - 1 - index], capacity), [], lines, index)
  }

  function Popped(lines: seq<cstring>): seq<cstring>
    requires lines != []
  {
    lines[..|lines| - 1]
  }

  function DeleteRight(e: Edit): Edit {
    if e.right == [] then e else e.(right := e.right[1..])
  }

  /** What a key does. */
  function Press(e: Edit, capacity: nat, k: Key): Outcome
    requires capacity > 0 && IsEditing(e, capacity) && k != Char('\0')
  {
    match k
    case Char(c) =>
      Going(if |e.left| + |e.right| < capacity then e.(left := e.left + [c]) else e)
    case Backspace => Going(if e.left == [] then e else e.(left := e.left[..|e.left| - 1]))
    case Delete => Going(DeleteRight(e))
    case ControlD => if CurrentText(e) == [] then NoLine(Popped(e.lines)) else Going(DeleteRight(e))
    case Transpose =>
      if e.left == [] || e.right == [] then Going(e)
      else
        var l, a, b, r := e.left[..|e.left| - 1], e.left[|e.left| - 1], e.right[0], e.right[1..];
        Going(if r == [] then e.(left := l + [b], right := [a]) else e.(left := l + [b, a], right := r))
    case Left =>
      Going(if e.left == [] then e else e.(left := e.left[..|e.left| - 1], right := [e.left[|e.left| - 1]] + e.right))
    case Right => Going(if e.right == [] then e else e.(left := e.left + [e.right[0]], right := e.right[1..]))
    case Home => Going(e.(left := [], right := CurrentText(e)))
    case End => Going(e.(left := CurrentText(e), right := []))
    case KillLine => Going(e.(left := [], right := []))
    case KillEnd => Going(e.(right := []))
    case DeleteWord => Going(e.(left := WithoutWord(e.left)))
    case ClearScreen => Going(e)
    case Previous => Going(Moved(e, capacity, true))
    case Next => Going(Moved(e, capacity, false))
    case Enter => Line(CurrentText(e), Popped(e.lines))
    case Interrupt => NoLine(e.lines)
    case Ignored => Going(e)
  }

  /** Every key keeps the line within the buffer and the index within the history. */
  lemma PressKeepsEditing(e: Edit, capacity: nat, k: Key)
    requires capacity > 0 && IsEditing(e, capacity) && k != Char('\0')
    ensures Press(e, capacity, k).Going? ==> IsEditing(Press(e, capacity, k).edit, capacity)
    ensures Press(e, capacity, k).Going? ==> |Press(e, capacity, k).edit.lines| == |e.lines|
  {
  }

  // ----- What undoes what -----------------------------------------------------

  lemma BackspaceUndoesChar(e: Edit, capacity: nat, c: byte)
    requires capacity > 0 && IsEditing(e, capacity) && c != '\0' && |e.left| + |e.right| < capacity
    ensures Press(Press(e, capacity, Char(c)).edit, capacity, Backspace) == Going(e)
  {
    assert (e.left + [c])[..|e.left|] == e.left;
  }

  lemma RightUndoesLeft(e: Edit, capacity: nat)
    requires capacity > 0 && IsEditing(e, capacity) && e.left != []
    ensures Press(Press(e, capacity, Left).edit, capacity, Right) == Going(e)
  {
    var n := |e.left| - 1;
    assert e.left[..n] + [e.left[n]] == e.left;
    assert ([e.left[n]] + e.right)[1..] == e.right;
  }

  /** Control-T exchanges the characters on both sides of the cursor. */
  lemma TransposeSwaps(e: Edit, capacity: nat)
    requires capacity > 0 && IsEditing(e, capacity) && e.left != [] && e.right != []
    ensures var at := |e.left|;
            var t, n := CurrentText(e), Press(e, capacity, Transpose).edit;
            CurrentText(n) == t[..at - 1] + [t[at], t[at - 1]] + t[at + 1..]
            && |n.left| == if at + 1 < |t| then at + 1 else at
  {
  }

  /** Control-W takes the blanks before the cursor and then the word before them. */
  lemma WordIsGone(e: Edit, capacity: nat) returns (word: cstring, blanks: cstring)
    requires capacity > 0 && IsEditing(e, capacity)
    ensures var n := Press(e, capacity, DeleteWord).edit;
            && e.left == n.left + word + blanks && n.right == e.right
            && ' ' !in word && (forall c :: c in blanks ==> c == ' ') && (word == [] ==> n.left == [])
            && (n.left != [] ==> n.left[|n.left| - 1] == ' ')
  {
    blanks := BlanksGone(e.left);
    word := LettersGone(WithoutBlanks(e.left));
  }

  lemma {:induction false} BlanksGone(s: cstring) returns (blanks: cstring)
    ensures s == WithoutBlanks(s) + blanks && forall c :: c in blanks ==> c == ' '
    ensures WithoutBlanks(s) != [] ==> WithoutBlanks(s)[|WithoutBlanks(s)| - 1] != ' '
    decreases |s|
  {
    if s != [] && s[|s| - 1] == ' ' {
      var front := BlanksGone(s[..|s| - 1]);
      blanks := front + [' '];
      assert s == s[..|s| - 1] + [' '];
    } else {
      blanks := [];
    }
  }

  lemma {:induction false} LettersGone(s: cstring) returns (word: cstring)
    ensures s == WithoutLetters(s) + word && ' ' !in word
    ensures WithoutLetters(s) != [] ==> WithoutLetters(s)[|WithoutLetters(s)| - 1] == ' '
    ensures s != [] && s[|s| - 1] != ' ' ==> word != []
    decreases |s|
  {
    if s != [] && s[|s| - 1] != ' ' {
      var front := LettersGone(s[..|s| - 1]);
      word := front + [s[|s| - 1]];
      assert s == s[..|s| - 1] + [s[|s| - 1]];
    } else {
      word := [];
    }
  }

  /** Control-U and Control-K leave nothing, and nothing behind the cursor. */
  lemma KillsLeave(e: Edit, capacity: nat)
    requires capacity > 0 && IsEditing(e, capacity)
    ensures CurrentText(Press(e, capacity, KillLine).edit) == ""
    ensures CurrentText(Press(e, capacity, KillEnd).edit) == e.left
    ensures CurrentText(Press(e, capacity, Delete).edit) == e.left + if e.right == [] then [] else e.right[1..]
    ensures Press(e, capacity, Home).edit.left == "" && Press(e, capacity, End).edit.right == ""
  {
  }

  /** Moving never changes the text. */
  lemma MovesKeepText(e: Edit, capacity: nat, k: Key)
    requires capacity > 0 && IsEditing(e, capacity) && k in {Left, Right, Home, End, ClearScreen}
    ensures CurrentText(Press(e, capacity, k).edit) == CurrentText(e)
  {
    if k == Left && e.left != [] {
      var n := |e.left| - 1;
      assert e.left == e.left[..n] + [e.left[n]];
    }
    if k == Right && e.right != [] {
      assert e.right == [e.right[0]] + e.right[1..];
    }
  }

  /** Up shows the next older line and Down the next newer one, as far as there are any,
      with the cursor at the end; the line that was shown keeps its changes. */
  lemma UpIsOlder(e: Edit, capacity: nat)
    requires capacity > 0 && IsEditing(e, capacity) && |e.lines| > 1
    ensures var at := |e.lines| - 1 - e.index;
            var up, down := Press(e, capacity, Previous).edit, Press(e, capacity, Next).edit;
            && up.lines == down.lines == e.lines[at := CurrentText(e)]
            && (if at > 0 then CurrentText(up) == Recalled(e.lines[at - 1], capacity) && up.right == ""
                else CurrentText(up) == CurrentText(e))
            && (if at + 1 < |e.lines| then CurrentText(down) == Recalled(e.lines[at + 1], capacity) && down.right == ""
                else CurrentText(down) == CurrentText(e))
  {
  }

  /** Up and then Down gives the line back, unless it filled the buffer: then its
      last character is lost. */
  lemma DownUndoesUp(e: Edit, capacity: nat)
    requires capacity > 0 && IsEditing(e, capacity) && e.index + 1 < |e.lines|
    ensures var up := Press(e, capacity, Previous).edit;
            IsEditing(up, capacity) && |up.left| < capacity
            && var back := Press(up, capacity, Next).edit;
               back.index == e.index
               && (CurrentText(back) == CurrentText(e) <==> |CurrentText(e)| < capacity)
  {
    var up := Press(e, capacity, Previous).edit;
    var at := |e.lines| - 1 - e.index;
    assert up.lines[at] == CurrentText(e);
    var back := Press(up, capacity, Next).edit;
    assert CurrentText(back) == Recalled(CurrentText(e), capacity);
  }

  // ----- Whole calls ----------------------------------------------------------

  /** The key that a run of input bytes starts with and how many bytes it takes;
      None when the input ends inside an escape sequence. */
  function NextKey(input: seq<byte>): (r: Option<(Key, nat)>)
    requires input != []
    ensures r.Some? ==> 1 <= r.value.1 <= |input| && (NUL !in input ==> r.value.0 != Char(NUL))
  {
    match input[0]
    case '\U{0D}' => Some((Key.Enter, 1))
    case '\U{03}' => Some((Interrupt, 1))
    case '\U{7F}' => Some((Backspace, 1))
    case '\U{08}' => Some((Backspace, 1))
    case '\U{04}' => Some((ControlD, 1))
    case '\U{14}' => Some((Transpose, 1))
    case '\U{02}' => Some((Left, 1))
    case '\U{06}' => Some((Right, 1))
    case '\U{10}' => Some((Previous, 1))
    case '\U{0E}' => Some((Next, 1))
    case '\U{15}' => Some((KillLine, 1))
    case '\U{0B}' => Some((KillEnd, 1))
    case '\U{01}' => Some((Home, 1))
    case '\U{05}' => Some((End, 1))
    case '\U{0C}' => Some((ClearScreen, 1))
    case '\U{17}' => Some((DeleteWord, 1))
    case '\U{1B}' =>
      if |input| < 3 then None
      else if input[1] == '[' && '0' <= input[2] <= '9' then
        if |input| < 4 then None
        else Some((if input[2] == '3' && input[3] == '~' then Delete else Ignored, 4))
      else Some((EscapeKey(input[1], input[2]), 3))
    case c => Some((Char(c), 1))
  }

  function EscapeKey(a: byte, b: byte): (k: Key)
    ensures !k.Char?
  {
    if a == '[' then
      match b
      case 'A' => Previous
      case 'B' => Next
      case 'C' => Right
      case 'D' => Left
      case 'H' => Home
      case 'F' => End
      case _ => Ignored
    else if a == 'O' then
      match b
      case 'H' => Home
      case 'F' => End
      case _ => Ignored
    else Ignored
  }

  const ESC: seq<byte> := ['\U{1B}']

  /** What terminals send for the keys that do something, Control with a letter being
      the place of the letter in the alphabet. */
  function KeyTexts(k: Key): set<seq<byte>> {
    match k
    case Backspace => {['\U{7F}'], Control('h')}
    case Delete => {ESC + "[3~"}
    case ControlD => {Control('d')}
    case Transpose => {Control('t')}
    case Left => {Control('b'), ESC + "[D"}
    case Right => {Control('f'), ESC + "[C"}
    case Home => {Control('a'), ESC + "[H", ESC + "OH"}
    case End => {Control('e'), ESC + "[F", ESC + "OF"}
    case KillLine => {Control('u')}
    case KillEnd => {Control('k')}
    case DeleteWord => {Control('w')}
    case ClearScreen => {Control('l')}
    case Previous => {Control('p'), ESC + "[A"}
    case Next => {Control('n'), ESC + "[B"}
    case Enter => {Control('m')}
    case Interrupt => {Control('c')}
    case Ignored => {}
    case Char(_) => {}
  }

  function Control(letter: byte): seq<byte>
    requires 'a' <= letter <= 'z'
  {
    [(letter as int - 'a' as int + 1) as char]
  }

  /** Every key is read as what it is, and what is read as a key is one of its texts. */
  lemma KeysAreRead(k: Key, t: seq<byte>, rest: seq<byte>)
    requires t in KeyTexts(k)
    ensures NextKey(t + rest) == Some((k, |t|))
  {
    assert (t + rest)[0] == t[0];
    assert |t| >= 3 ==> (t + rest)[1] == t[1] && (t + rest)[2] == t[2];
    assert |t| >= 4 ==> (t + rest)[3] == t[3];
  }

  lemma KeysAreSent(input: seq<byte>)
    requires input != [] && NextKey(input).Some?
    requires !NextKey(input).value.0.Char? && NextKey(input).value.0 != Ignored
    ensures var (k, n) := NextKey(input).value; input[..n] in KeyTexts(k)
  {
    var (k, n) := NextKey(input).value;
    if n == 1 {
      assert input[..n] == [input[0]];
    } else if n == 3 {
      assert input[..n] == ESC + [input[1], input[2]];
    } else {
      assert input[..n] == ESC + [input[1], input[2], input[3]];
    }
  }

  /** Everything else from a keyboard stands for itself. */
  lemma CharactersAreRead(c: byte, rest: seq<byte>)
    requires ' ' <= c && c != '\U{7F}'
    ensures NextKey([c] + rest) == Some((Char(c), 1))
  {
    assert ([c] + rest)[0] == c;
  }

  /** Input that does not end inside an escape sequence. */
  predicate Whole(input: seq<byte>) {
    input == [] || (NextKey(input).Some? && Whole(input[NextKey(input).value.1..]))
  }

  function KeysOf(input: seq<byte>): (keys: seq<Key>)
    requires Whole(input)
    ensures NUL !in input ==> Char(NUL) !in keys
  {
    if input == [] then []
    else
      var (k, n) := NextKey(input).value;
      [k] + KeysOf(input[n..])
  }

  /** Keys pressed one after the other; none counts once the call has returned. */
  function Typed(e: Edit, capacity: nat, keys: seq<Key>): Outcome
    requires capacity > 0 && IsEditing(e, capacity) && Char(NUL) !in keys
    decreases |keys|
  {
    if keys == [] then Going(e)
    else
      var r := Press(e, capacity, keys[0]);
      if !r.Going? then r else Typed(r.edit, capacity, keys[1..])
  }

  lemma {:induction false} TypedKeepsEditing(e: Edit, capacity: nat, keys: seq<Key>)
    requires capacity > 0 && IsEditing(e, capacity) && Char(NUL) !in keys
    ensures var r := Typed(e, capacity, keys);
            match r
            case Going(last) => IsEditing(last, capacity) && |last.lines| == |e.lines|
            case Line(text, lines) => |text| <= capacity && |lines| == |e.lines| - 1
            case NoLine(lines) => |e.lines| - 1 <= |lines| <= |e.lines|
    decreases |keys|
  {
    if keys != [] {
      PressKeepsEditing(e, capacity, keys[0]);
      var r := Press(e, capacity, keys[0]);
      if r.Going? {
        TypedKeepsEditing(r.edit, capacity, keys[1..]);
      }
    }
  }

  /** No control key. */
  predicate Plain(c: byte) {
    c != NUL && NextKey([c]) == Some((Char(c), 1))
  }

  /** One key of the input, then the rest. */
  lemma TypedStep(e: Edit, capacity: nat, input: seq<byte>)
    requires capacity > 0 && IsEditing(e, capacity) && NUL !in input && input != [] && Whole(input)
    ensures NextKey(input).Some?
    ensures var (k, n) := NextKey(input).value;
            var r := Press(e, capacity, k);
            && Whole(input[n..])
            && (r.Going? ==> IsEditing(r.edit, capacity))
            && Typed(e, capacity, KeysOf(input))
               == if r.Going? then Typed(r.edit, capacity, KeysOf(input[n..])) else r
  {
    var (k, n) := NextKey(input).value;
    PressKeepsEditing(e, capacity, k);
    var keys := KeysOf(input);
    assert keys[0] == k && keys[1..] == KeysOf(input[n..]);
    hide Press, NextKey;
  }

  lemma TypedNothing(e: Edit, capacity: nat, input: seq<byte>)
    requires capacity > 0 && IsEditing(e, capacity) && input == []
    ensures Whole(input) && Typed(e, capacity, KeysOf(input)) == Going(e)
  {
  }

  /** A line typed with plain characters and Enter comes back as it was typed, up to
      what the buffer holds. */
  lemma {:induction false} PlainLineComesBack(e: Edit, capacity: nat, text: cstring)
    requires capacity > 0 && IsEditing(e, capacity) && e.right == []
    requires forall c :: c in text ==> Plain(c)
    ensures var input := text + ['\U{0D}'];
            var room := capacity - |e.left|;
            Whole(input)
            && Typed(e, capacity, KeysOf(input))
               == Line(e.left + (if |text| <= room then text else text[..room]), Popped(e.lines))
    decreases |text|
  {
    var input := text + ['\U{0D}'];
    var rest := input[1..];
    if text == [] {
      assert Whole(rest);
      TypedStep(e, capacity, input);
      assert CurrentText(e) == e.left + text;
    } else {
      var c := text[0];
      NextIsPlain(input);
      var next := Press(e, capacity, Char(c)).edit;
      assert rest == text[1..] + ['\U{0D}'];
      var room := capacity - |e.left|;
      PlainLineComesBack(next, capacity, text[1..]);
      TypedStep(e, capacity, input);
      hide Press, NextKey, Whole, KeysOf, Typed;
      TextBack(e.left, text, room);
    }
  }

  lemma TextBack(left: cstring, text: cstring, room: nat)
    requires text != []
    ensures room > 0 && |text| <= room ==> left + [text[0]] + text[1..] == left + text
    ensures 0 < room < |text| ==> left + [text[0]] + text[1..][..room - 1] == left + text[..room]
    ensures text[..0] == text[1..][..0] == []
  {
  }

  lemma NextIsPlain(input: seq<byte>)
    requires input != [] && Plain(input[0])
    ensures NextKey(input) == Some((Char(input[0]), 1))
  {
  }

  /** Without moving in it, entering a line leaves the history as it was, unless it
      was full (then its oldest line is gone) or ended in an empty line (then that one
      is gone). */
  lemma EnterRestoresHistory(lines: seq<cstring>, most: nat)
    requires most > 0 && |lines| <= most
    ensures Added(lines, most, []) != []
    ensures Popped(Added(lines, most, [])) == lines
            <==> |lines| < most && (lines == [] || lines[|lines| - 1] != [])
    ensures |lines| == most && lines[most - 1] != [] ==> Popped(Added(lines, most, [])) == lines[1..]
  {
    var added := Added(lines, most, []);
    if lines != [] && lines[|lines| - 1] == [] {
      assert |Popped(added)| < |lines|;
    } else if |lines| == most {
      assert Popped(added) == lines[1..];
    } else {
      assert Popped(added) == lines;
    }
  }

  /** Control-C leaves the working entry behind: the history is as it was before the
      call if and only if it ended in an empty line already.  A second time in a row
      nothing more is left. */
  lemma InterruptRestoresHistory(e: Edit, capacity: nat, lines: seq<cstring>, most: nat)
    requires capacity > 0 && IsEditing(e, capacity)
    requires most > 0 && |lines| <= most && e.lines == Added(lines, most, [])
    ensures Press(e, capacity, Interrupt) == NoLine(lines) <==> lines != [] && lines[|lines| - 1] == []
    ensures Added(e.lines, most, []) == e.lines
  {
    if lines == [] || lines[|lines| - 1] != [] {
      assert e.lines[|e.lines| - 1] == [];
    }
  }

  // ----- The buffer -----------------------------------------------------------

  /** The contents of a buffer after a memmove. */
  function Shifted(b: seq<byte>, dst: nat, src: nat, n: nat): (r: seq<byte>)
    requires dst + n <= |b| && src + n <= |b|
    ensures |r| == |b|
  {
    b[..dst] + b[src..src + n] + b[dst + n..]
  }

  method MemMove(a: array<byte>, dst: nat, src: nat, n: nat)
    requires dst + n <= a.Length && src + n <= a.Length
    modifies a
    ensures a[..] == Shifted(old(a[..]), dst, src, n)
  {
    ghost var b: seq<byte> := a[..];
    forall i | 0 <= i < n {
      a[dst + i] := a[src + i];
    }
    assert forall j :: 0 <= j < a.Length ==> a[..][j] == if dst <= j < dst + n then b[src + (j - dst)] else b[j];
  }

  /** The length of the string in a buffer that has its first NUL at `end`. */
  method StrLen(a: array<byte>, ghost end: nat) returns (n: nat)
    requires end < a.Length && a[end] == NUL && NUL !in a[..end]
    ensures n == end
  {
    n := 0;
    while a[n] != NUL
      invariant n <= end
      decreases end - n
    {
      assert n < end;
      n := n + 1;
    }
  }

  /** The loops of linenoiseEditDeletePrevWord: back over blanks, or over the rest. */
  method SkipBack(a: array<byte>, from: nat, blanks: bool) returns (to: nat)
    requires from <= a.Length && NUL !in a[..from]
    ensures to <= from && NUL !in a[..to]
    ensures a[..to] == if blanks then WithoutBlanks(a[..from]) else WithoutLetters(a[..from])
  {
    to := from;
    while to > 0 && (a[to - 1] == ' ') == blanks
      invariant to <= from && NUL !in a[..to]
      invariant blanks ==> WithoutBlanks(a[..from]) == WithoutBlanks(a[..to])
      invariant !blanks ==> WithoutLetters(a[..from]) == WithoutLetters(a[..to])
    {
      assert a[..to][..to - 1] == a[..to - 1];
      to := to - 1;
    }
  }

  /** A buffer shows two texts one after the other. */
  ghost predicate Shows(b: seq<byte>, left: cstring, right: cstring) {
    && |left| + |right| <= |b|
    && (forall i :: 0 <= i < |left| ==> b[i] == left[i])
    && (forall i :: |left| <= i < |left| + |right| ==> b[i] == right[i - |left|])
  }

  lemma ShowsTexts(b: seq<byte>, left: cstring, right: cstring)
    requires Shows(b, left, right)
    ensures var n := |left| + |right|;
            b[..|left|] == left && b[|left|..n] == right && NUL !in b[..n]
  {
    var n := |left| + |right|;
    forall i | 0 <= i < n
      ensures b[i] != NUL
    {
      if i < |left| {
        assert left[i] != NUL;
      } else {
        assert right[i - |left|] != NUL;
      }
    }
  }

  /** Both texts of a buffer that shows them. */
  lemma TextsShow(b: seq<byte>, pos: nat, len: nat)
    requires pos <= len <= |b| && NUL !in b[..len]
    ensures NUL !in b[..pos] && NUL !in b[pos..len] && Shows(b, b[..pos], b[pos..len])
  {
    assert b[..pos] == b[..len][..pos] && b[pos..len] == b[..len][pos..];
  }

  lemma ShiftUp(b: seq<byte>, left: cstring, right: cstring, c: byte)
    requires Shows(b, left, right) && |left| + |right| + 1 < |b| && c != NUL
    ensures var n := |left| + |right|;
            Shows(Shifted(b, |left| + 1, |left|, |right|)[|left| := c][n + 1 := NUL], left + [c], right)
    ensures right == [] ==> Shows(b[|left| := c][|left| + 1 := NUL], left + [c], right)
  {
  }

  lemma ShiftDown(b: seq<byte>, left: cstring, mid: cstring, right: cstring)
    requires Shows(b, left + mid, right) && |left| + |mid| + |right| < |b|
    ensures var n := |left| + |right|;
            var moved := Shifted(b, |left|, |left| + |mid|, |right|);
            Shows(moved, left, right) && Shows(moved[n := NUL], left, right)
  {
  }

  /** The same when the NUL behind the text moves along. */
  lemma ShiftDownAll(b: seq<byte>, left: cstring, mid: cstring, right: cstring)
    requires Shows(b, left + mid, right) && |left| + |mid| + |right| < |b|
    ensures var moved := Shifted(b, |left|, |left| + |mid|, |right| + 1);
            Shows(moved, left, right) && moved[|left| + |right|] == b[|left| + |mid| + |right|]
  {
  }

  lemma ShowsSwapped(b: seq<byte>, after: seq<byte>, left: cstring, right: cstring)
    requires Shows(b, left, right) && left != [] && right != []
    requires var n := |left|;
             |after| == |b| && after[n - 1] == b[n] && after[n] == b[n - 1]
             && forall i :: 0 <= i < |b| && i != n && i != n - 1 ==> after[i] == b[i]
    ensures var l, c, d, r := left[..|left| - 1], left[|left| - 1], right[0], right[1..];
            c != NUL && d != NUL && Shows(after, l + [d, c], r) && (r == [] ==> Shows(after, l + [d], [c]))
  {
  }

  lemma ShownInArray(a: array<byte>, left: cstring, right: cstring)
    requires |left| + |right| <= a.Length
    ensures var n := |left| + |right|;
            a[..][..|left|] == a[..|left|] && a[..][|left|..n] == a[|left|..n] && a[..][..n] == a[..n]
  {
  }

  lemma ShowsRegrouped(b: seq<byte>, left: cstring, mid: cstring, right: cstring)
    ensures Shows(b, left + mid, right) <==> Shows(b, left, mid + right)
  {
  }

  /** struct linenoiseState, as far as it is not about the terminal. */
  class Session {
    const buf: array<byte>
    const buflen: nat
    const history: LineHistory
    var pos: nat
    var len: nat
    var historyIndex: nat

    ghost predicate Valid()
      reads this, buf, history, history.items
    {
      && buflen > 0 && buf.Length == buflen + 1 && pos <= len <= buflen
      && buf[len] == NUL && NUL !in buf[..len]
      && history.Valid() && historyIndex < history.len
    }

    ghost function Abs(): Edit
      requires Valid()
      reads this, buf, history, history.items
    {
      Edit(buf[..pos], buf[pos..len], history.Lines(), historyIndex)
    }

    lemma Showing(left: cstring, right: cstring)
      requires buflen > 0 && buf.Length == buflen + 1 && history.Valid() && historyIndex < history.len
      requires pos == |left| && len == |left| + |right| <= buflen && buf[len] == NUL && Shows(buf[..], left, right)
      ensures Valid() && Abs() == Edit(left, right, history.Lines(), historyIndex)
    {
      hide Shows;
      ShowsTexts(buf[..], left, right);
      ShownInArray(buf, left, right);
    }

    /** linenoiseEdit up to its loop: the line starts empty, as the newest entry. */
    constructor (buf: array<byte>, history: LineHistory)
      requires buf.Length >= 2 && history.Valid() && history.maxLen > 0
      modifies buf, history, history.items
      ensures Valid() && this.buf == buf && this.history == history && buflen == buf.Length - 1
      ensures Abs() == Edit([], [], Added(old(history.Lines()), history.maxLen, []), 0)
    {
      this.buf, this.history, this.buflen := buf, history, buf.Length - 1;
      pos, len, historyIndex := 0, 0, 0;
      new;
      buf[0] := NUL;
      var _ := history.Add([]);
    }

    /** linenoiseEditInsert */
    method Insert(c: byte)
      requires Valid() && c != NUL
      modifies this`pos, this`len, buf
      ensures Valid() && Going(Abs()) == old(Press(Abs(), buflen, Char(c)))
    {
      hide Shows, Shifted, Moved, WithoutWord, DeleteRight, Popped;
      if len < buflen {
        ghost var b: seq<byte>, left: cstring, right: cstring := buf[..], buf[..pos], buf[pos..len];
        TextsShow(b, pos, len);
        ShiftUp(b, left, right, c);
        if len == pos {
          buf[pos] := c;
          pos := pos + 1;
          len := len + 1;
          buf[len] := NUL;
          ghost var step: seq<byte> := b[|left| := c];
          assert buf[..] == step[|left| + 1 := NUL];
        } else {
          MemMove(buf, pos + 1, pos, len - pos);
          ghost var moved: seq<byte> := buf[..];
          buf[pos] := c;
          len := len + 1;
          pos := pos + 1;
          buf[len] := NUL;
          ghost var step: seq<byte> := moved[|left| := c];
          assert buf[..] == step[len := NUL];
        }
        Showing(left + [c], right);
      }
    }

    method MoveLeft()
      requires Valid()
      modifies this`pos
      ensures Valid() && Going(Abs()) == old(Press(Abs(), buflen, Left))
    {
      if pos > 0 {
        pos := pos - 1;
        assert buf[..pos + 1][..pos] == buf[..pos];
        assert buf[pos..len] == [buf[pos]] + buf[pos + 1..len];
      }
    }

    method MoveRight()
      requires Valid()
      modifies this`pos
      ensures Valid() && Going(Abs()) == old(Press(Abs(), buflen, Right))
    {
      if pos != len {
        pos := pos + 1;
        assert buf[..pos] == buf[..pos - 1] + [buf[pos - 1]];
        assert buf[pos - 1..len][1..] == buf[pos..len];
      }
    }

    method MoveHome()
      requires Valid()
      modifies this`pos
      ensures Valid() && Going(Abs()) == old(Press(Abs(), buflen, Home))
    {
      assert buf[..len] == buf[..pos] + buf[pos..len];
      assert buf[0..len] == buf[..len];
      if pos != 0 {
        pos := 0;
      }
    }

    method MoveEnd()
      requires Valid()
      modifies this`pos
      ensures Valid() && Going(Abs()) == old(Press(Abs(), buflen, End))
    {
      assert buf[..len] == buf[..pos] + buf[pos..len];
      if pos != len {
        pos := len;
      }
    }

    /** linenoiseEditDelete */
    method DeleteAtCursor()
      requires Valid()
      modifies this`len, buf
      ensures Valid() && Going(Abs()) == old(Press(Abs(), buflen, Delete))
    {
      hide Shows, Shifted;
      if len > 0 && pos < len {
        ghost var b: seq<byte>, left: cstring, right: cstring := buf[..], buf[..pos], buf[pos..len];
        TextsShow(b, pos, len);
        assert right == right[..1] + right[1..];
        ShowsRegrouped(b, left, right[..1], right[1..]);
        ShiftDown(b, left, right[..1], right[1..]);
        MemMove(buf, pos, pos + 1, len - pos - 1);
        ghost var moved: seq<byte> := buf[..];
        len := len - 1;
        buf[len] := NUL;
        assert buf[..] == moved[len := NUL];
        Showing(left, right[1..]);
      }
    }

    /** linenoiseEditBackspace */
    method DeleteBeforeCursor()
      requires Valid()
      modifies this`pos, this`len, buf
      ensures Valid() && Going(Abs()) == old(Press(Abs(), buflen, Backspace))
    {
      hide Shows, Shifted;
      if pos > 0 && len > 0 {
        ghost var b: seq<byte>, left: cstring, right: cstring := buf[..], buf[..pos], buf[pos..len];
        TextsShow(b, pos, len);
        assert left == left[..pos - 1] + left[pos - 1..];
        ShiftDown(b, left[..pos - 1], left[pos - 1..], right);
        MemMove(buf, pos - 1, pos, len - pos);
        ghost var moved: seq<byte> := buf[..];
        pos := pos - 1;
        len := len - 1;
        buf[len] := NUL;
        assert buf[..] == moved[len := NUL];
        Showing(left[..pos], right);
      }
    }

    /** linenoiseEditDeletePrevWord */
    method DeletePrevWord()
      requires Valid()
      modifies this`pos, this`len, buf
      ensures Valid() && Going(Abs()) == old(Press(Abs(), buflen, DeleteWord))
    {
      hide WithoutBlanks, WithoutLetters, Shows, Shifted, Moved, DeleteRight, Popped;
      var to := SkipBack(buf, pos, true);
      to := SkipBack(buf, to, false);
      ghost var left: cstring := buf[..pos];
      assert left[..to] == buf[..to];
      CloseGap(to);
    }

    /** What follows those loops: the text from `to` to the cursor goes. */
    method CloseGap(to: nat)
      requires Valid() && to <= pos && NUL !in buf[..to]
      modifies this`pos, this`len, buf
      ensures Valid() && Abs() == old(Abs().(left := buf[..to]))
    {
      hide Shows, Shifted;
      var oldPos := pos;
      ghost var b: seq<byte>, left: cstring, right: cstring := buf[..], buf[..pos], buf[pos..len];
      ghost var kept: cstring, word: cstring := buf[..to], left[to..];
      TextsShow(b, pos, len);
      assert left == kept + word;
      ShiftDownAll(b, kept, word, right);
      pos := to;
      var diff := oldPos - pos;
      MemMove(buf, pos, oldPos, len - oldPos + 1);
      len := len - diff;
      Showing(kept, right);
    }

    /** Control-T in linenoiseEdit */
    method Swap()
      requires Valid()
      modifies this`pos, buf
      ensures Valid() && Going(Abs()) == old(Press(Abs(), buflen, Transpose))
    {
      hide Moved, WithoutWord, DeleteRight, Popped;
      if pos > 0 && pos < len {
        ghost var b: seq<byte>, left: cstring, right: cstring := buf[..], buf[..pos], buf[pos..len];
        TextsShow(b, pos, len);
        var aux := buf[pos - 1];
        buf[pos - 1] := buf[pos];
        buf[pos] := aux;
        ShowsSwapped(b, buf[..], left, right);
        hide Shows;
        ghost var l, c, d, r := left[..pos - 1], left[pos - 1], right[0], right[1..];
        if pos != len - 1 {
          pos := pos + 1;
          Showing(l + [d, c], r);
        } else {
          Showing(l + [d], [c]);
        }
      }
    }

    method KillWholeLine()
      requires Valid()
      modifies this`pos, this`len, buf
      ensures Valid() && Going(Abs()) == old(Press(Abs(), buflen, KillLine))
    {
      buf[0] := NUL;
      pos, len := 0, 0;
    }

    method KillToEnd()
      requires Valid()
      modifies this`len, buf
      ensures Valid() && Going(Abs()) == old(Press(Abs(), buflen, KillEnd))
    {
      ghost var left := buf[..pos];
      assert NUL !in buf[..len] && left == buf[..len][..pos];
      buf[pos] := NUL;
      len := pos;
      assert buf[..len] == left;
    }

    /** strncpy of an entry of the history into the buffer, and its length */
    method Show(entry: cstring)
      requires Valid()
      modifies this`pos, this`len, buf
      ensures Valid() && buf[..pos] == Recalled(entry, buflen) && pos == len
    {
      forall i | 0 <= i < buflen {
        buf[i] := if i < |entry| then entry[i] else NUL;
      }
      buf[buflen - 1] := NUL;
      ghost var shown := Recalled(entry, buflen);
      assert buf[..|shown|] == shown && buf[|shown|] == NUL;
      len := StrLen(buf, |shown|);
      pos := len;
    }

    /** linenoiseEditHistoryNext */
    method HistoryMove(back: bool)
      requires Valid()
      modifies this`pos, this`len, this`historyIndex, buf, history.items
      ensures Valid() && Abs() == old(Moved(Abs(), buflen, back))
    {
      if history.len > 1 {
        ghost var before := Abs();
        assert buf[..len] == CurrentText(before);
        var n := StrLen(buf, len);
        var at := history.len - 1 - historyIndex;
        history.items[at] := buf[..n];
        assert history.Lines() == before.lines[at := CurrentText(before)];
        var index := if back then historyIndex + 1 else historyIndex - 1;
        if index < 0 {
          historyIndex := 0;
          return;
        } else if index >= history.len {
          historyIndex := history.len - 1;
          return;
        }
        historyIndex := index;
        Show(history.items[history.len - 1 - index]);
      }
    }

    /** The key switch of linenoiseEdit: `done` when it returns, and then `result`
        is the length of the line or -1. */
    method PressKey(k: Key) returns (done: bool, result: int)
      requires Valid() && k != Char(NUL)
      modifies this`pos, this`len, this`historyIndex, buf, history`len, history.items
      ensures Shown(old(Press(Abs(), buflen, k)), done, result)
    {
      done, result := false, -1;
      match k
      case Char(c) => Insert(c);
      case Backspace => DeleteBeforeCursor();
      case Delete => DeleteAtCursor();
      case ControlD =>
        assert CurrentText(Abs()) == buf[..len];
        if len > 0 {
          DeleteAtCursor();
        } else {
          history.len := history.len - 1;
          assert history.Lines() == Popped(old(history.Lines()));
          done := true;
        }
      case Transpose => Swap();
      case Left => MoveLeft();
      case Right => MoveRight();
      case Home => MoveHome();
      case End => MoveEnd();
      case KillLine => KillWholeLine();
      case KillEnd => KillToEnd();
      case DeleteWord => DeletePrevWord();
      case ClearScreen =>
      case Previous => HistoryMove(true);
      case Next => HistoryMove(false);
      case Enter =>
        assert CurrentText(Abs()) == buf[..len];
        history.len := history.len - 1;
        assert history.Lines() == Popped(old(history.Lines()));
        done, result := true, len;
      case Interrupt => done := true;
      case Ignored =>
    }

    /** What a caller sees of an outcome. */
    ghost predicate Shown(r: Outcome, done: bool, result: int)
      reads this, buf, history, history.items
    {
      match r
      case Going(e) => !done && Valid() && Abs() == e
      case Line(text, lines) =>
        done && result == |text| <= buf.Length && buf[..result] == text && history.Valid() && history.Lines() == lines
      case NoLine(lines) => done && result == -1 && history.Valid() && history.Lines() == lines
    }

    /** The loop of linenoiseEdit, to the end of the line or of the input. */
    method EditLine(input: seq<byte>) returns (result: int)
      requires Valid() && Whole(input) && NUL !in input
      modifies this`pos, this`len, this`historyIndex, buf, history`len, history.items
      ensures match old(Typed(Abs(), buflen, KeysOf(input)))
              case Going(e) => Valid() && Abs() == e && result == |CurrentText(e)| && buf[..result] == CurrentText(e)
              case r => Shown(r, true, result)
    {
      hide Press, Whole, KeysOf, Typed, NextKey;
      ghost var start := Abs();
      var i := 0;
      assert input[0..] == input;
      while i < |input|
        invariant 0 <= i <= |input| && Valid() && Whole(input[i..])
        invariant Typed(start, buflen, KeysOf(input)) == Typed(Abs(), buflen, KeysOf(input[i..]))
        invariant history.items == old(history.items)
      {
        ghost var now, left := Abs(), input[i..];
        TypedStep(now, buflen, left);
        var (k, n) := NextKey(input[i..]).value;
        assert left[n..] == input[i + n..];
        var done, r := PressKey(k);
        if done {
          return r;
        }
        i := i + n;
      }
      TypedNothing(Abs(), buflen, input[i..]);
      assert CurrentText(Abs()) == buf[..len];
      result := len;
    }
  }
}
