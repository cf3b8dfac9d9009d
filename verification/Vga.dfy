/**
  The VGA text writer of src/vga_buffer.rs: a 25 by 80 array changed in place, and the unbounded log of
  lines that it shows the end of.
*/
module Vga {
  const HEIGHT := 25
  const WIDTH := 80
  const NEWLINE := 10
  const SPACE := 32

  datatype ScreenChar = ScreenChar(ascii: nat, color: nat)

  type Row = r: seq<ScreenChar> | |r| == WIDTH witness seq(WIDTH, _ => ScreenChar(0, 0))
  type Rows = r: seq<Row> | |r| == HEIGHT witness seq(HEIGHT, _ => seq(WIDTH, _ => ScreenChar(0, 0)))

  datatype Display = Display(rows: Rows, column: nat)

  function BlankRow(color: nat): Row {
    seq(WIDTH, _ => ScreenChar(SPACE, color))
  }

  // ---------------------------------------------------------------- one byte at a time

  function Scroll(d: Display, color: nat): Display {
    Display(d.rows[1..] + [BlankRow(color)], 0)
  }

  function PutByte(d: Display, color: nat, b: nat): Display {
    if b == NEWLINE then Scroll(d, color) else
      var n := if d.column >= WIDTH then Scroll(d, color) else d;
      Display(n.rows[HEIGHT - 1 := n.rows[HEIGHT - 1][n.column := ScreenChar(b, color)]], n.column + 1)
  }

  function PutAll(d: Display, color: nat, bytes: seq<nat>): Display {
    if bytes == [] then d else PutByte(PutAll(d, color, bytes[..|bytes| - 1]), color, bytes[|bytes| - 1])
  }

  /** Writing two texts in turn is writing their concatenation. */
  lemma {:induction false} PutAllAppend(d: Display, color: nat, s: seq<nat>, t: seq<nat>)
    ensures PutAll(d, color, s + t) == PutAll(PutAll(d, color, s), color, t)
    decreases |t|
  {
    if t == [] {
      assert s + t == s;
    } else {
      assert (s + t)[..|s + t| - 1] == s + t[..|t| - 1] && (s + t)[|s + t| - 1] == t[|t| - 1];
      PutAllAppend(d, color, s, t[..|t| - 1]);
    }
  }

  // ---------------------------------------------------------------- a text as lines

  /** The length of the first line: up to a newline, the end, or 80 characters. */
  function LineLength(s: seq<nat>, room: nat := WIDTH): (n: nat)
    ensures n <= |s| && n <= room
    ensures forall i :: 0 <= i < n ==> s[i] != NEWLINE
    ensures n < |s| ==> n == room || s[n] == NEWLINE
    decreases s, room
  {
    if s == [] || room == 0 || s[0] == NEWLINE then 0 else 1 + LineLength(s[1..], room - 1)
  }

  /** The lines of a text: a newline ends a line; a line that is full breaks when another character follows. */
  function Lines(s: seq<nat>): (ls: seq<seq<nat>>)
    ensures |ls| >= 1 && forall i :: 0 <= i < |ls| ==> |ls[i]| <= WIDTH
    decreases |s|
  {
    var n := LineLength(s);
    if n == |s| then [s]
    else if s[n] == NEWLINE then [s[..n]] + Lines(s[n + 1..])
    else [s[..n]] + Lines(s[n..])
  }

  function Last<T>(s: seq<T>): T
    requires s != []
  {
    s[|s| - 1]
  }

  /** How the lines of a text change when one byte is appended. */
  function Extend(ls: seq<seq<nat>>, b: nat): seq<seq<nat>>
    requires ls != []
  {
    if b == NEWLINE then ls + [[]]
    else if |Last(ls)| == WIDTH then ls + [[b]]
    else ls[..|ls| - 1] + [Last(ls) + [b]]
  }

  lemma LineLengthUnique(s: seq<nat>, room: nat, n: nat)
    requires n <= |s| && n <= room && forall i :: 0 <= i < n ==> s[i] != NEWLINE
    requires n == |s| || n == room || s[n] == NEWLINE
    ensures LineLength(s, room) == n
  {
    var m := LineLength(s, room);
    assert m < |s| ==> m == room || s[m] == NEWLINE;
  }

  lemma ExtendLater(first: seq<nat>, ls: seq<seq<nat>>, b: nat)
    requires ls != []
    ensures Extend([first] + ls, b) == [first] + Extend(ls, b)
  {
    var all := [first] + ls;
    assert Last(all) == Last(ls) && all[..|all| - 1] == [first] + ls[..|ls| - 1];
  }

  lemma LinesOfOne(b: nat)
    ensures Lines([]) == [[]]
    ensures b != NEWLINE ==> Lines([b]) == [[b]]
  {
    LineLengthUnique([], WIDTH, 0);
    if b != NEWLINE { LineLengthUnique([b], WIDTH, 1); }
  }

  lemma {:induction false} LinesExtend(s: seq<nat>, b: nat)
    ensures Lines(s + [b]) == Extend(Lines(s), b)
    decreases |s|
  {
    var n, t := LineLength(s), s + [b];
    assert forall i :: 0 <= i < |s| ==> t[i] == s[i];
    if n < |s| {
      LineLengthUnique(t, WIDTH, n);
      assert t[..n] == s[..n];
      if s[n] == NEWLINE {
        assert t[n + 1..] == s[n + 1..] + [b];
        LinesExtend(s[n + 1..], b);
        ExtendLater(s[..n], Lines(s[n + 1..]), b);
      } else {
        assert t[n..] == s[n..] + [b];
        LinesExtend(s[n..], b);
        ExtendLater(s[..n], Lines(s[n..]), b);
      }
    } else {
      LastLineExtend(s, b);
    }
  }

  /** The text has a single line so far. */
  lemma LastLineExtend(s: seq<nat>, b: nat)
    requires LineLength(s) == |s|
    ensures Lines(s + [b]) == Extend([s], b)
  {
    hide LineLength, Lines;
    var t := s + [b];
    LinesOfOne(b);
    assert forall i | 0 <= i < |s| :: t[i] == s[i];
    if b == NEWLINE {
      LineLengthUnique(t, WIDTH, |s|);
      assert t[..|s|] == s && t[|s| + 1..] == [];
      LinesBreak(t, |s|, s, []);
    } else if |s| == WIDTH {
      LineLengthUnique(t, WIDTH, WIDTH);
      assert t[..|s|] == s && t[|s|..] == [b];
      LinesBreak(t, |s|, s, [b]);
    } else {
      LineLengthUnique(t, WIDTH, |t|);
      LinesSingle(t);
    }
  }

  lemma LinesSingle(t: seq<nat>)
    requires LineLength(t) == |t|
    ensures Lines(t) == [t]
  {
  }

  lemma LinesBreak(t: seq<nat>, n: nat, first: seq<nat>, rest: seq<nat>)
    requires LineLength(t) == n < |t| && first == t[..n]
    requires rest == if t[n] == NEWLINE then t[n + 1..] else t[n..]
    ensures Lines(t) == [first] + Lines(rest)
  {
  }

  // ---------------------------------------------------------------- the log and the screen

  /** A line drawn over a row. */
  function Draw(row: Row, line: seq<nat>, color: nat): Row
    requires |line| <= WIDTH
  {
    seq(WIDTH, c requires 0 <= c < WIDTH => if c < |line| then ScreenChar(line[c], color) else row[c])
  }

  /** Row `i` of the log: the first line is drawn over what the bottom row showed, later ones over blanks. */
  function LogRow(before: Rows, ls: seq<seq<nat>>, color: nat, i: nat): Row
    requires i < HEIGHT - 1 + |ls| && forall j :: 0 <= j < |ls| ==> |ls[j]| <= WIDTH
  {
    if i < HEIGHT - 1 then before[i]
    else Draw(if i == HEIGHT - 1 then before[HEIGHT - 1] else BlankRow(color), ls[i - (HEIGHT - 1)], color)
  }

  /** The last 25 rows of the log. */
  function LogEnd(before: Rows, ls: seq<seq<nat>>, color: nat): Rows
    requires ls != [] && forall j :: 0 <= j < |ls| ==> |ls[j]| <= WIDTH
  {
    var rows := seq(HEIGHT, r requires 0 <= r < HEIGHT => LogRow(before, ls, color, |ls| - 1 + r));
    assert forall i | 0 <= i < |rows| :: rows[i] == LogRow(before, ls, color, |ls| - 1 + i);
    rows
  }

  lemma LogEndAt(before: Rows, ls: seq<seq<nat>>, color: nat, r: nat)
    requires ls != [] && (forall j :: 0 <= j < |ls| ==> |ls[j]| <= WIDTH) && r < HEIGHT
    ensures LogEnd(before, ls, color)[r] == LogRow(before, ls, color, |ls| - 1 + r)
  {
  }

  lemma BottomRow(before: Rows, ls: seq<seq<nat>>, color: nat)
    requires ls != [] && forall j :: 0 <= j < |ls| ==> |ls[j]| <= WIDTH
    ensures LogEnd(before, ls, color)[HEIGHT - 1]
         == Draw(if |ls| == 1 then before[HEIGHT - 1] else BlankRow(color), Last(ls), color)
  {
    LogEndAt(before, ls, color, HEIGHT - 1);
  }

  function Shown(before: Rows, ls: seq<seq<nat>>, color: nat): Display
    requires ls != [] && forall j :: 0 <= j < |ls| ==> |ls[j]| <= WIDTH
  {
    Display(LogEnd(before, ls, color), |Last(ls)|)
  }

  lemma ShownNewLine(before: Rows, ls: seq<seq<nat>>, color: nat)
    requires ls != [] && forall j :: 0 <= j < |ls| ==> |ls[j]| <= WIDTH
    ensures Scroll(Shown(before, ls, color), color) == Shown(before, ls + [[]], color)
  {
    var more := ls + [[]];
    forall r | 0 <= r < HEIGHT
      ensures Scroll(Shown(before, ls, color), color).rows[r] == LogEnd(before, more, color)[r]
    {
      if r < HEIGHT - 1 {
        assert LogRow(before, more, color, |ls| + r) == LogRow(before, ls, color, |ls| + r);
      } else {
        assert LogRow(before, more, color, |ls| + r) == BlankRow(color);
      }
    }
    assert Scroll(Shown(before, ls, color), color).rows == LogEnd(before, more, color);
  }

  /** A character goes to the end of the last line, in the bottom row. */
  lemma ShownCharacter(before: Rows, ls: seq<seq<nat>>, color: nat, b: nat)
    requires ls != [] && (forall j :: 0 <= j < |ls| ==> |ls[j]| <= WIDTH) && |Last(ls)| < WIDTH && b != NEWLINE
    ensures PutByte(Shown(before, ls, color), color, b) == Shown(before, ls[..|ls| - 1] + [Last(ls) + [b]], color)
  {
    var more := ls[..|ls| - 1] + [Last(ls) + [b]];
    var d := Shown(before, ls, color);
    var e := PutByte(d, color, b);
    var bottom := HEIGHT - 1;
    var base := if |ls| == 1 then before[bottom] else BlankRow(color);
    assert e.rows == d.rows[bottom := d.rows[bottom][|Last(ls)| := ScreenChar(b, color)]];
    BottomRow(before, ls, color);
    BottomRow(before, more, color);
    DrawMore(base, Last(ls), color, b);
    forall r | 0 <= r < bottom ensures e.rows[r] == LogEnd(before, more, color)[r] {
      LogEndAt(before, ls, color, r);
      LogEndAt(before, more, color, r);
      assert LogRow(before, more, color, |ls| - 1 + r) == LogRow(before, ls, color, |ls| - 1 + r);
    }
    assert e.rows == LogEnd(before, more, color);
  }

  lemma DrawMore(row: Row, line: seq<nat>, color: nat, b: nat)
    requires |line| < WIDTH
    ensures Draw(row, line + [b], color) == Draw(row, line, color)[|line| := ScreenChar(b, color)]
  {
  }

  lemma ShownByte(before: Rows, ls: seq<seq<nat>>, color: nat, b: nat)
    requires ls != [] && forall j :: 0 <= j < |ls| ==> |ls[j]| <= WIDTH
    ensures PutByte(Shown(before, ls, color), color, b) == Shown(before, Extend(ls, b), color)
  {
    hide LogEnd;
    ShownNewLine(before, ls, color);
    if b != NEWLINE {
      if |Last(ls)| == WIDTH {
        var n := ls + [[]];
        ShownCharacter(before, n, color, b);
        assert n[..|n| - 1] == ls && Last(n) == [] && [] + [b] == [b];
      } else {
        ShownCharacter(before, ls, color, b);
      }
    }
  }

  /**
    For every sequence of bytes the screen is the last 25 rows of the log of its lines, and the column
    is the length of the last line.
  */
  lemma {:induction false} ScreenShowsLog(before: Rows, color: nat, bytes: seq<nat>)
    ensures PutAll(Display(before, 0), color, bytes) == Shown(before, Lines(bytes), color)
    decreases |bytes|
  {
    hide PutByte, Shown, Extend;
    if bytes == [] {
      assert Lines([]) == [[]] by { LinesOfOne(0); }
      NothingShown(before, color);
    } else {
      var s, b := bytes[..|bytes| - 1], bytes[|bytes| - 1];
      assert bytes == s + [b];
      ScreenShowsLog(before, color, s);
      LinesExtend(s, b);
      ShownByte(before, Lines(s), color, b);
    }
  }

  lemma NothingShown(before: Rows, color: nat)
    ensures Shown(before, [[]], color) == Display(before, 0)
  {
    forall r | 0 <= r < HEIGHT ensures LogEnd(before, [[]], color)[r] == before[r] {
      assert Draw(before[HEIGHT - 1], [], color) == before[HEIGHT - 1];
      assert LogEnd(before, [[]], color)[r] == LogRow(before, [[]], color, r);
    }
    assert LogEnd(before, [[]], color) == before;
  }

  // ---------------------------------------------------------------- the writer

  /** Bytes outside printable ASCII are written as a filled square. */
  function Printable(b: nat): nat {
    if 0x20 <= b <= 0x7e || b == NEWLINE then b else 0xfe
  }

  function PrintableAll(s: seq<nat>): seq<nat> {
    seq(|s|, i requires 0 <= i < |s| => Printable(s[i]))
  }

  /** What `write_string` shows: the lines of the text, with a square for each byte that is not printable ASCII. */
  lemma TextShown(before: Rows, color: nat, s: seq<nat>, text: seq<nat>)
    requires |text| == |s|
    requires forall i | 0 <= i < |s| :: text[i] == if s[i] == 10 || (32 <= s[i] && s[i] < 127) then s[i] else 254
    ensures PutAll(Display(before, 0), color, PrintableAll(s)) == Shown(before, Lines(text), color)
    ensures var d := Shown(before, Lines(text), color);
            |d.rows| == 25 && d.column <= 80 && forall r | 0 <= r < 25 :: |d.rows[r]| == 80
  {
    assert PrintableAll(s) == text;
    ScreenShowsLog(before, color, text);
  }

  class Writer {
    var column: nat
    const color: nat
    const chars: array2<ScreenChar>
    ghost var display: Display

    ghost predicate Valid()
      reads this, chars
    {
      && chars.Length0 == HEIGHT && chars.Length1 == WIDTH
      && column == display.column <= WIDTH
      && forall r, c | 0 <= r < HEIGHT && 0 <= c < WIDTH :: chars[r, c] == display.rows[r][c]
    }

    constructor (chars: array2<ScreenChar>, color: nat, ghost rows: Rows)
      requires chars.Length0 == HEIGHT && chars.Length1 == WIDTH
      requires forall r, c | 0 <= r < HEIGHT && 0 <= c < WIDTH :: chars[r, c] == rows[r][c]
      ensures Valid() && this.chars == chars && this.color == color && display == Display(rows, 0)
    {
      this.chars, this.color, column := chars, color, 0;
      display := Display(rows, 0);
    }

    method ClearRow(row: nat)
      requires chars.Length0 == HEIGHT && chars.Length1 == WIDTH && row < HEIGHT
      modifies chars
      ensures forall c | 0 <= c < WIDTH :: chars[row, c] == ScreenChar(SPACE, color)
      ensures forall r, c | 0 <= r < HEIGHT && 0 <= c < WIDTH && r != row :: chars[r, c] == old(chars[r, c])
    {
      var blank := ScreenChar(SPACE, color);
      for col := 0 to WIDTH
        invariant forall c | 0 <= c < col :: chars[row, c] == blank
        invariant forall r, c | 0 <= r < HEIGHT && 0 <= c < WIDTH && r != row :: chars[r, c] == old(chars[r, c])
      {
        chars[row, col] := blank;
      }
    }

    method NewLine()
      requires Valid()
      modifies this`column, this`display, chars
      ensures Valid() && display == Scroll(old(display), color)
    {
      for row := 1 to HEIGHT
        invariant display == old(display)
        invariant forall r, c | 0 <= r < row - 1 && 0 <= c < WIDTH :: chars[r, c] == old(chars[r + 1, c])
        invariant forall r, c | row <= r < HEIGHT && 0 <= c < WIDTH :: chars[r, c] == old(chars[r, c])
      {
        for col := 0 to WIDTH
          invariant display == old(display)
          invariant forall r, c | 0 <= r < row - 1 && 0 <= c < WIDTH :: chars[r, c] == old(chars[r + 1, c])
          invariant forall r, c | r == row - 1 && 0 <= c < col :: chars[r, c] == old(chars[r + 1, c])
          invariant forall r, c | row <= r < HEIGHT && 0 <= c < WIDTH :: chars[r, c] == old(chars[r, c])
        {
          var character := chars[row, col];
          chars[row - 1, col] := character;
        }
      }
      ClearRow(HEIGHT - 1);
      column := 0;
      display := Scroll(display, color);
    }

    method WriteByte(byte: nat)
      requires Valid()
      modifies this`column, this`display, chars
      ensures Valid() && display == PutByte(old(display), color, byte)
    {
      if byte == NEWLINE {
        NewLine();
      } else {
        if column >= WIDTH { NewLine(); }
        chars[HEIGHT - 1, column] := ScreenChar(byte, color);
        var row := display.rows[HEIGHT - 1][column := ScreenChar(byte, color)];
        display := Display(display.rows[HEIGHT - 1 := row], column + 1);
        column := column + 1;
      }
    }

    method WriteString(s: seq<nat>)
      requires Valid()
      modifies this`column, this`display, chars
      ensures Valid() && display == PutAll(old(display), color, PrintableAll(s))
    {
      hide PutByte;
      for i := 0 to |s|
        invariant Valid() && display == PutAll(old(display), color, PrintableAll(s)[..i])
      {
        assert PrintableAll(s)[..i + 1][..i] == PrintableAll(s)[..i];
        if 0x20 <= s[i] <= 0x7e || s[i] == NEWLINE { WriteByte(s[i]); } else { WriteByte(0xfe); }
      }
      assert PrintableAll(s)[..|s|] == PrintableAll(s);
    }
  }
}
