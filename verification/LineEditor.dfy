/** The input line of the client's screen: text, cursor and the column it is drawn at. */
module LineEditor {
  import opened Octets

  // Characters and the codes of the special keys share one number space.
  const ENTER := 10
  const BACKSPACE := 8
  const DELETE := 127
  const KEY_DOWN := 258
  const KEY_UP := 259
  const KEY_LEFT := 260
  const KEY_RIGHT := 261
  const KEY_HOME := 262
  const KEY_BACKSPACE := 263
  const KEY_DC := 330
  const KEY_END := 360

  const RESERVED := {
    BACKSPACE, DELETE, KEY_DOWN, KEY_UP, KEY_LEFT, KEY_RIGHT, KEY_HOME, KEY_BACKSPACE, KEY_DC, KEY_END}

  // One poll of the keyboard; a list of polls ends where the screen is found to be stopped.
  datatype Poll = NoKey | Key(ch: int)

  // The line as two stacks that meet at the cursor.
  datatype Zipper = Zipper(left: seq<int>, right: seq<int>) {
    function Text(): seq<int> {
      left + right
    }

    function Press(ch: int, printable: int -> bool): Zipper {
      if ch in {KEY_BACKSPACE, DELETE, BACKSPACE} then
        if left == [] then this else Zipper(left[..|left| - 1], right)
      else if ch == KEY_LEFT then
        if left == [] then this else Zipper(left[..|left| - 1], [left[|left| - 1]] + right)
      else if ch == KEY_RIGHT then
        if right == [] then this else Zipper(left + [right[0]], right[1..])
      else if ch == KEY_UP || ch == KEY_DOWN then this
      else if ch == KEY_DC then
        if right == [] then this else Zipper(left, right[1..])
      else if ch == KEY_HOME then Zipper([], left + right)
      else if ch == KEY_END then Zipper(left + right, [])
      else if printable(ch) then Zipper(left + [ch], right)
      else this
    }
  }

  // Where the line stands after these polls, none of which is Enter.
  function Typed(polls: seq<Poll>, printable: int -> bool): Zipper {
    if polls == [] then Zipper([], [])
    else
      var before := Typed(polls[..|polls| - 1], printable);
      match polls[|polls| - 1]
      case NoKey => before
      case Key(ch) => before.Press(ch, printable)
  }

  // The polls up to the first Enter.
  function UpToEnter(polls: seq<Poll>): seq<Poll> {
    if polls == [] || polls[0] == Key(ENTER) then [] else [polls[0]] + UpToEnter(polls[1..])
  }

  // How wide a text is on the screen; characters without a width take none.
  function Width(text: seq<int>, wcwidth: int -> int): nat {
    if text == [] then 0
    else
      var w := wcwidth(text[|text| - 1]);
      Width(text[..|text| - 1], wcwidth) + if w > 0 then w else 0
  }

  // The column of the cursor: behind the frame, the prompt and what is left of the cursor.
  method RedrawInputLine(promptLength: nat, input: seq<int>, cursorPos: nat, wcwidth: int -> int)
    returns (column: nat)
    ensures column == 1 + promptLength + Width(input[..Min(cursorPos, |input|)], wcwidth)
  {
    var startX := 1 + promptLength;
    var visualCursorOffset := 0;
    var i := 0;
    while i < cursorPos && i < |input|
      invariant i <= Min(cursorPos, |input|)
      invariant visualCursorOffset == Width(input[..i], wcwidth)
    {
      assert input[..i + 1][..i] == input[..i];
      var w := wcwidth(input[i]);
      if w > 0 {
        visualCursorOffset := visualCursorOffset + w;
      }
      i := i + 1;
    }
    column := startX + visualCursorOffset;
  }

  lemma {:induction false} UpToEnterAt(polls: seq<Poll>, i: nat)
    requires i <= |polls| && forall j :: 0 <= j < i ==> polls[j] != Key(ENTER)
    requires i == |polls| || polls[i] == Key(ENTER)
    ensures UpToEnter(polls) == polls[..i]
    decreases i
  {
    if i > 0 {
      UpToEnterAt(polls[1..], i - 1);
      assert polls[..i] == [polls[0]] + polls[1..][..i - 1];
    }
  }

  // The switch on one key: changes the text at the cursor as the zipper changes.
  method HandleKey(ghost z: Zipper, input: seq<int>, cursorPos: nat, ch: int, printable: int -> bool)
    returns (input': seq<int>, cursorPos': nat)
    requires input == z.Text() && cursorPos == |z.left|
    ensures input' == z.Press(ch, printable).Text() && cursorPos' == |z.Press(ch, printable).left|
  {
    ghost var w := z.Press(ch, printable);
    assert input[..cursorPos] == z.left && input[cursorPos..] == z.right;
    input', cursorPos' := input, cursorPos;
    if ch == KEY_BACKSPACE || ch == DELETE || ch == BACKSPACE {
      if cursorPos > 0 {
        input' := input[..cursorPos - 1] + input[cursorPos..];
        cursorPos' := cursorPos - 1;
        assert input' == w.Text();
      }
    } else if ch == KEY_LEFT {
      if cursorPos > 0 {
        cursorPos' := cursorPos - 1;
        assert input' == w.Text();
      }
    } else if ch == KEY_RIGHT {
      if cursorPos < |input| {
        cursorPos' := cursorPos + 1;
        assert input' == w.Text();
      }
    } else if ch == KEY_UP || ch == KEY_DOWN {
    } else if ch == KEY_DC {
      if cursorPos < |input| {
        input' := input[..cursorPos] + input[cursorPos + 1..];
        assert input' == w.Text();
      }
    } else if ch == KEY_HOME {
      cursorPos' := 0;
      assert input' == w.Text();
    } else if ch == KEY_END {
      cursorPos' := |input|;
      assert input' == w.Text();
    } else if printable(ch) {
      input' := input[..cursorPos] + [ch] + input[cursorPos..];
      cursorPos' := cursorPos + 1;
      assert input' == w.Text();
    }
  }

  /**
   Edits the line in place until Enter or until the screen stops. The text and the cursor are
   those of the zipper at every key, so no insertion or deletion is out of range, and the
   cursor is always drawn behind the zipper's left part. `entered` tells which of the two ended
   it; the program does not know.
   */
  method PromptInput(
    running: bool, polls: seq<Poll>, promptLength: nat, printable: int -> bool, wcwidth: int -> int)
    returns (result: Option<seq<int>>, column: nat, ghost entered: bool)
    requires !printable(ENTER)
    ensures !running ==> result == None
    ensures entered <==> running && Key(ENTER) in polls
    ensures running ==>
              var z := Typed(UpToEnter(polls), printable);
              result == Some(z.Text()) && column == 1 + promptLength + Width(z.left, wcwidth)
  {
    entered := false;
    if !running {
      return None, 0, entered;
    }
    var input: seq<int> := [];
    var cursorPos: nat := 0;
    column := RedrawInputLine(promptLength, input, cursorPos, wcwidth);
    ghost var z := Zipper([], []);
    var i := 0;
    while i < |polls|
      invariant 0 <= i <= |polls| && !entered
      invariant forall j :: 0 <= j < i ==> polls[j] != Key(ENTER)
      invariant z == Typed(polls[..i], printable)
      invariant input == z.Text() && cursorPos == |z.left|
      invariant column == 1 + promptLength + Width(z.left, wcwidth)
    {
      if polls[i] == Key(ENTER) {
        entered := true;
        break;
      }
      assert polls[..i + 1][..i] == polls[..i];
      if polls[i].NoKey? {
        i := i + 1;
        continue;
      }
      var ch := polls[i].ch;
      input, cursorPos := HandleKey(z, input, cursorPos, ch, printable);
      z := z.Press(ch, printable);
      assert input[..cursorPos] == z.left;
      column := RedrawInputLine(promptLength, input, cursorPos, wcwidth);
      i := i + 1;
    }
    UpToEnterAt(polls, i);
    return Some(input), column, entered;
  }

  // A line that is still being typed when the screen stops is returned as if Enter had ended it.
  lemma UnfinishedLooksEntered(polls: seq<Poll>, more: seq<Poll>, printable: int -> bool)
    requires Key(ENTER) !in polls
    ensures UpToEnter(polls) == polls == UpToEnter(polls + [Key(ENTER)] + more)
    ensures Typed(UpToEnter(polls), printable) == Typed(UpToEnter(polls + [Key(ENTER)] + more), printable)
  {
    UpToEnterAt(polls, |polls|);
    var all := polls + [Key(ENTER)] + more;
    UpToEnterAt(all, |polls|);
    assert all[..|polls|] == polls;
  }

  // ------------------------------------------------------------ where keys act

  // Where the cursor is in the text.
  function Cursor(z: Zipper): nat {
    |z.left|
  }

  lemma TypedOne(polls: seq<Poll>, poll: Poll, printable: int -> bool)
    ensures Typed(polls + [poll], printable) ==
            if poll.NoKey? then Typed(polls, printable) else Typed(polls, printable).Press(poll.ch, printable)
  {
    assert (polls + [poll])[..|polls|] == polls;
  }

  // What each key does to the text and the cursor, by its number.
  lemma KeyActsAt(polls: seq<Poll>, ch: int, printable: int -> bool)
    ensures var z, w := Typed(polls, printable), Typed(polls + [Key(ch)], printable);
            var t, k, u, c := z.Text(), Cursor(z), w.Text(), Cursor(w);
            && k <= |t|
            && (ch in {8, 127, 263} ==> if k > 0 then u == t[..k - 1] + t[k..] && c == k - 1 else u == t && c == k)
            && (ch == 330 ==> c == k && u == if k < |t| then t[..k] + t[k + 1..] else t)
            && (ch == 260 ==> u == t && c == if k > 0 then k - 1 else 0)
            && (ch == 261 ==> u == t && c == if k < |t| then k + 1 else k)
            && (ch == 262 ==> u == t && c == 0)
            && (ch == 360 ==> u == t && c == |t|)
            && (ch in {258, 259} ==> u == t && c == k)
            && (ch !in {8, 127, 258, 259, 260, 261, 262, 263, 330, 360} ==>
                  if printable(ch) then u == t[..k] + [ch] + t[k..] && c == k + 1 else u == t && c == k)
  {
    TypedOne(polls, Key(ch), printable);
    PressActsAt(Typed(polls, printable), ch, printable);
  }

  lemma PressActsAt(z: Zipper, ch: int, printable: int -> bool)
    ensures var w := z.Press(ch, printable);
            var t, k, u, c := z.Text(), Cursor(z), w.Text(), Cursor(w);
            && k <= |t|
            && (ch in {8, 127, 263} ==> if k > 0 then u == t[..k - 1] + t[k..] && c == k - 1 else u == t && c == k)
            && (ch == 330 ==> c == k && u == if k < |t| then t[..k] + t[k + 1..] else t)
            && (ch == 260 ==> u == t && c == if k > 0 then k - 1 else 0)
            && (ch == 261 ==> u == t && c == if k < |t| then k + 1 else k)
            && (ch == 262 ==> u == t && c == 0)
            && (ch == 360 ==> u == t && c == |t|)
            && (ch in {258, 259} ==> u == t && c == k)
            && (ch !in {8, 127, 258, 259, 260, 261, 262, 263, 330, 360} ==>
                  if printable(ch) then u == t[..k] + [ch] + t[k..] && c == k + 1 else u == t && c == k)
  {
    if ch in {260, 261, 262, 360, 258, 259} {
      MoveActsAt(z, ch, printable);
    } else {
      EditActsAt(z, ch, printable);
    }
    hide Zipper.Press;
  }

  lemma MoveActsAt(z: Zipper, ch: int, printable: int -> bool)
    requires ch in {260, 261, 262, 360, 258, 259}
    ensures var w := z.Press(ch, printable);
            && w.Text() == z.Text()
            && Cursor(w) == match ch
                            case 260 => if Cursor(z) > 0 then Cursor(z) - 1 else 0
                            case 261 => if Cursor(z) < |z.Text()| then Cursor(z) + 1 else Cursor(z)
                            case 262 => 0
                            case 360 => |z.Text()|
                            case _ => Cursor(z)
  {
    assert z.left != [] ==> z.left == z.left[..|z.left| - 1] + [z.left[|z.left| - 1]];
    assert z.right != [] ==> z.right == [z.right[0]] + z.right[1..];
  }

  lemma EditActsAt(z: Zipper, ch: int, printable: int -> bool)
    requires ch !in {260, 261, 262, 360, 258, 259}
    ensures var w := z.Press(ch, printable);
            var t, k, u, c := z.Text(), Cursor(z), w.Text(), Cursor(w);
            && (ch in {8, 127, 263} ==> if k > 0 then u == t[..k - 1] + t[k..] && c == k - 1 else u == t && c == k)
            && (ch == 330 ==> c == k && u == if k < |t| then t[..k] + t[k + 1..] else t)
            && (ch !in {8, 127, 263, 330} ==>
                  if printable(ch) then u == t[..k] + [ch] + t[k..] && c == k + 1 else u == t && c == k)
  {
    var t := z.left + z.right;
    assert t[..|z.left|] == z.left && t[|z.left|..] == z.right;
    assert z.left != [] ==> t[..|z.left| - 1] == z.left[..|z.left| - 1];
    assert z.right != [] ==> t[|z.left| + 1..] == z.right[1..];
  }

  function Times(ch: int, n: nat): seq<Poll> {
    seq(n, _ => Key(ch))
  }

  lemma TimesMore(polls: seq<Poll>, ch: int, n: nat)
    requires n > 0
    ensures polls + Times(ch, n) == (polls + Times(ch, n - 1)) + [Key(ch)]
  {
  }

  // n times Left moves the cursor n characters to the left, as far as the text goes.
  lemma {:induction false} LeftMoves(polls: seq<Poll>, n: nat, printable: int -> bool)
    ensures var z, w := Typed(polls, printable), Typed(polls + Times(260, n), printable);
            w.Text() == z.Text() && Cursor(w) == if n <= Cursor(z) then Cursor(z) - n else 0
  {
    hide Typed, Zipper.Text, Cursor;
    if n == 0 {
      assert polls + Times(260, 0) == polls;
    } else {
      LeftMoves(polls, n - 1, printable);
      TimesMore(polls, 260, n);
      KeyActsAt(polls + Times(260, n - 1), 260, printable);
    }
  }

  // And n times Right.
  lemma {:induction false} RightMoves(polls: seq<Poll>, n: nat, printable: int -> bool)
    ensures var z, w := Typed(polls, printable), Typed(polls + Times(261, n), printable);
            w.Text() == z.Text() && Cursor(w) == Min(|z.Text()|, Cursor(z) + n)
  {
    hide Typed, Zipper.Text, Cursor;
    if n == 0 {
      assert polls + Times(261, 0) == polls;
      CursorInText(polls, printable);
    } else {
      RightMoves(polls, n - 1, printable);
      TimesMore(polls, 261, n);
      KeyActsAt(polls + Times(261, n - 1), 261, printable);
    }
  }

  lemma CursorInText(polls: seq<Poll>, printable: int -> bool)
    ensures Cursor(Typed(polls, printable)) <= |Typed(polls, printable).Text()|
  {
  }

  // A character with a number of its own.
  predicate Ordinary(ch: int, printable: int -> bool) {
    printable(ch) && ch !in {8, 127, 258, 259, 260, 261, 262, 263, 330, 360}
  }

  lemma PlainText(text: seq<int>, printable: int -> bool)
    requires forall i :: 0 <= i < |text| ==> Ordinary(text[i], printable)
    ensures Typed(Keys(text), printable).Text() == text && Cursor(Typed(Keys(text), printable)) == |text|
  {
    TypedPlain(text, printable);
    assert text + [] == text;
  }

  // A character typed after a text and n times Left stands n characters before the end, or at the
  // start if there are not so many.
  lemma LandsAfterLefts(text: seq<int>, n: nat, ch: int, printable: int -> bool)
    requires Ordinary(ch, printable) && forall i :: 0 <= i < |text| ==> Ordinary(text[i], printable)
    ensures var k := if n <= |text| then |text| - n else 0;
            Typed(Keys(text) + Times(260, n) + [Key(ch)], printable).Text() == text[..k] + [ch] + text[k..]
  {
    hide Typed, Zipper.Text, Cursor;
    PlainText(text, printable);
    LeftMoves(Keys(text), n, printable);
    KeyActsAt(Keys(text) + Times(260, n), ch, printable);
  }

  // After Home and n times Right it stands n characters behind the start, or at the end.
  lemma LandsAfterHome(text: seq<int>, n: nat, ch: int, printable: int -> bool)
    requires Ordinary(ch, printable) && forall i :: 0 <= i < |text| ==> Ordinary(text[i], printable)
    ensures var k := Min(|text|, n);
            Typed(Keys(text) + [Key(262)] + Times(261, n) + [Key(ch)], printable).Text() == text[..k] + [ch] + text[k..]
  {
    hide Typed, Zipper.Text, Cursor;
    var home := Keys(text) + [Key(262)];
    PlainText(text, printable);
    KeyActsAt(Keys(text), 262, printable);
    RightMoves(home, n, printable);
    KeyActsAt(home + Times(261, n), ch, printable);
  }

  // After End it is the last one, wherever the cursor was.
  lemma LandsAfterEnd(polls: seq<Poll>, ch: int, printable: int -> bool)
    requires Ordinary(ch, printable)
    ensures Typed(polls + [Key(360)] + [Key(ch)], printable).Text() == Typed(polls, printable).Text() + [ch]
  {
    hide Typed, Zipper.Text, Cursor;
    KeyActsAt(polls, 360, printable);
    KeyActsAt(polls + [Key(360)], ch, printable);
    var t := Typed(polls, printable).Text();
    assert t[..|t|] == t;
  }

  // Delete after n times Left takes out the character n before the end, Backspace the one before it.
  lemma DeletesAfterLefts(text: seq<int>, n: nat, printable: int -> bool)
    requires 0 < n < |text| && forall i :: 0 <= i < |text| ==> Ordinary(text[i], printable)
    ensures var k := |text| - n;
            && Typed(Keys(text) + Times(260, n) + [Key(330)], printable).Text() == text[..k] + text[k + 1..]
            && Typed(Keys(text) + Times(260, n) + [Key(263)], printable).Text() == text[..k - 1] + text[k..]
  {
    hide Typed, Zipper.Text, Cursor;
    PlainText(text, printable);
    LeftMoves(Keys(text), n, printable);
    KeyActsAt(Keys(text) + Times(260, n), 330, printable);
    KeyActsAt(Keys(text) + Times(260, n), 263, printable);
  }

  // A poll without a key does nothing.
  lemma IdlePollsDoNothing(polls: seq<Poll>, printable: int -> bool)
    ensures Typed(polls + [NoKey], printable) == Typed(polls, printable)
  {
    TypedOne(polls, NoKey, printable);
  }

  // ------------------------------------------------------------ widths

  // The width of a text is that of its characters together, and one without a width takes none.
  lemma {:induction false} WidthAddsUp(a: seq<int>, b: seq<int>, wcwidth: int -> int)
    ensures Width(a + b, wcwidth) == Width(a, wcwidth) + Width(b, wcwidth)
    decreases |b|
  {
    if b == [] {
      assert a + b == a;
    } else {
      assert (a + b)[..|a + b| - 1] == a + b[..|b| - 1];
      WidthAddsUp(a, b[..|b| - 1], wcwidth);
    }
  }

  lemma WidthOfOne(ch: int, wcwidth: int -> int)
    ensures Width([ch], wcwidth) == if wcwidth(ch) < 0 then 0 else wcwidth(ch)
    ensures Width([], wcwidth) == 0
  {
    assert [ch][..0] == [];
  }

  // ------------------------------------------------------------ typing a text

  function Keys(text: seq<int>): seq<Poll> {
    seq(|text|, i requires 0 <= i < |text| => Key(text[i]))
  }

  lemma KeysInit(text: seq<int>)
    requires text != []
    ensures Keys(text)[..|text| - 1] == Keys(text[..|text| - 1])
  {
  }

  lemma PressLength(z: Zipper, ch: int, printable: int -> bool)
    ensures |z.Press(ch, printable).Text()| <= |z.Text()| + if ch in RESERVED then 0 else 1
  {
  }

  lemma {:induction false} TypedLength(text: seq<int>, printable: int -> bool)
    ensures |Typed(Keys(text), printable).Text()| <= |text|
    ensures (exists i :: 0 <= i < |text| && text[i] in RESERVED) ==>
              |Typed(Keys(text), printable).Text()| < |text|
    decreases |text|
  {
    hide Zipper.Press;
    if text != [] {
      var init := text[..|text| - 1];
      KeysInit(text);
      TypedLength(init, printable);
      var z := Typed(Keys(init), printable);
      var last := text[|text| - 1];
      PressLength(z, last, printable);
      if i :| 0 <= i < |text| && text[i] in RESERVED && last !in RESERVED {
        assert init[i] == text[i];
      }
    }
  }

  lemma {:induction false} TypedPlain(text: seq<int>, printable: int -> bool)
    requires forall i :: 0 <= i < |text| ==> printable(text[i]) && text[i] !in RESERVED
    ensures Typed(Keys(text), printable) == Zipper(text, [])
    decreases |text|
  {
    if text != [] {
      var init := text[..|text| - 1];
      KeysInit(text);
      TypedPlain(init, printable);
      assert init + [text[|text| - 1]] == text;
    }
  }

  // A printable text has no Enter in it, so all of it is taken.
  lemma AllKeysTaken(text: seq<int>, printable: int -> bool)
    requires !printable(ENTER) && forall i :: 0 <= i < |text| ==> printable(text[i])
    ensures UpToEnter(Keys(text) + [Key(ENTER)]) == Keys(text)
  {
    UpToEnterAt(Keys(text) + [Key(ENTER)], |text|);
  }

  // Typing a printable text and Enter yields that text exactly when no character of it has the
  // number of an editing key. A letter such as U+0107, which is 263, acts as Backspace.
  lemma TypingYieldsTextExactly(text: seq<int>, printable: int -> bool)
    requires !printable(ENTER) && forall i :: 0 <= i < |text| ==> printable(text[i])
    ensures Typed(UpToEnter(Keys(text) + [Key(ENTER)]), printable).Text() == text <==>
            forall i :: 0 <= i < |text| ==> text[i] !in RESERVED
  {
    AllKeysTaken(text, printable);
    TypedLength(text, printable);
    if forall i :: 0 <= i < |text| ==> text[i] !in RESERVED {
      TypedPlain(text, printable);
    }
  }

  lemma LetterActsAsBackspace(printable: int -> bool)
    requires !printable(ENTER) && printable(97) && printable(0x107)
    ensures Typed(UpToEnter(Keys([97, 0x107]) + [Key(ENTER)]), printable).Text() == []
  {
    AllKeysTaken([97, 0x107], printable);
    KeysInit([97, 0x107]);
    TypedPlain([97], printable);
    assert [97, 0x107][..1] == [97];
  }
}
