/**
 * The scrolling text screen: the rotating framebuffer of kernel/driver/vga.c under the text path of
 * kernel/driver/tty.c.
 */
module Screen {
  import opened Machine

  const WIDTH: int := 106
  const HEIGHT: int := 48

  /** A framebuffer word: a character in the low byte and its colour in the high byte. */
  type Cell = Word

  type Line = seq<Cell>

  const NEWLINE: int := 10

  predicate Printable(c: int) {
    32 <= c <= 126
  }

  function CellOf(c: int, color: Byte): Cell {
    c % 256 + color * 256
  }

  /** The character is in the low byte and the colour in the high one. */
  predicate ShowsChar(cell: Cell, c: int, color: Byte) {
    cell % 256 == c % 256 && cell / 256 == color
  }

  function Blanks(n: nat): (l: Line)
    ensures |l| == n && forall i :: 0 <= i < n ==> l[i] == 0
  {
    seq(n, _ => 0)
  }

  function BlankLine(): (l: Line)
    ensures |l| == WIDTH && forall i :: 0 <= i < WIDTH ==> l[i] == 0
  {
    Blanks(WIDTH)
  }

  function PutCell(l: Line, col: nat, v: Cell): (r: Line)
    requires col < |l|
  {
    l[..col] + [v] + l[col + 1..]
  }

  // ---- Reference: a growing page of lines ----

  /** All lines written so far, the last of them under the cursor. */
  datatype Page = Page(lines: seq<Line>, col: nat) {
    ghost predicate Valid() {
      lines != [] && col < WIDTH && forall l <- lines :: |l| == WIDTH
    }
  }

  function EmptyPage(): Page {
    Page([BlankLine()], 0)
  }

  function LineFeed(p: Page): Page {
    Page(p.lines + [BlankLine()], 0)
  }

  /** Typing one character: eager wrap at the right edge, control characters ignored. */
  function Type(p: Page, c: int, color: Byte): (r: Page)
    requires p.Valid()
    ensures r.Valid()
  {
    if c == NEWLINE then
      LineFeed(p)
    else if Printable(c) then
      var last := |p.lines| - 1;
      assert p.lines[last] in p.lines;
      var lines := p.lines[last := PutCell(p.lines[last], p.col, CellOf(c, color))];
      assert forall l <- lines :: l in p.lines || l == lines[last];
      if p.col + 1 == WIDTH then LineFeed(Page(lines, 0)) else Page(lines, p.col + 1)
    else
      p
  }

  function Layout(text: seq<int>, color: Byte): (p: Page)
    ensures p.Valid()
  {
    if text == [] then EmptyPage() else Type(Layout(text[..|text| - 1], color), text[|text| - 1], color)
  }

  /** What 48 rows show of a page: everything on a fresh screen, later the last lines. */
  ghost function Visible(lines: seq<Line>): (g: seq<Line>)
    ensures |g| == HEIGHT
  {
    if |lines| <= HEIGHT
    then lines + seq(HEIGHT - |lines|, _ => BlankLine())
    else lines[|lines| - HEIGHT..]
  }

  function CursorRow(p: Page): int {
    Min(|p.lines|, HEIGHT) - 1
  }

  // ---- The framebuffer ----

  /** `REAL_ROW`: the framebuffer line that shows screen row `row`. */
  function RealRow(row: nat, scrollBegin: nat): (r: nat)
    requires row < HEIGHT && scrollBegin < HEIGHT
    ensures r < HEIGHT && (r - row - scrollBegin) % HEIGHT == 0
  {
    if row + scrollBegin < HEIGHT then row + scrollBegin else row + scrollBegin - HEIGHT
  }

  ghost function FrameLine(fb: seq<Cell>, k: nat): (l: Line)
    requires |fb| == WIDTH * HEIGHT && k < HEIGHT
    ensures |l| == WIDTH
  {
    fb[k * WIDTH..k * WIDTH + WIDTH]
  }

  /** The 48 rows as the screen shows them. */
  ghost function Grid(fb: seq<Cell>, scrollBegin: nat): (g: seq<Line>)
    requires |fb| == WIDTH * HEIGHT && scrollBegin < HEIGHT
    ensures |g| == HEIGHT
  {
    seq(HEIGHT, r requires 0 <= r < HEIGHT => FrameLine(fb, RealRow(r, scrollBegin)))
  }

  lemma FrameLineUpdate(fb: seq<Cell>, k: nat, col: nat, v: Cell, j: nat)
    requires |fb| == WIDTH * HEIGHT && k < HEIGHT && col < WIDTH && j < HEIGHT
    ensures FrameLine(fb[k * WIDTH + col := v], j)
            == if j == k then PutCell(FrameLine(fb, k), col, v) else FrameLine(fb, j)
  {}

  /** Changing one framebuffer line changes exactly the row that shows it. */
  lemma GridAfterLine(fb: seq<Cell>, gb: seq<Cell>, scrollBegin: nat, row: nat)
    requires |fb| == |gb| == WIDTH * HEIGHT && row < HEIGHT && scrollBegin < HEIGHT
    requires forall j :: 0 <= j < HEIGHT && j != RealRow(row, scrollBegin) ==> FrameLine(gb, j) == FrameLine(fb, j)
    ensures Grid(gb, scrollBegin)
            == Grid(fb, scrollBegin)[row := FrameLine(gb, RealRow(row, scrollBegin))]
  {
    hide FrameLine;
    var g, h := Grid(gb, scrollBegin), Grid(fb, scrollBegin)[row := FrameLine(gb, RealRow(row, scrollBegin))];
    forall r | 0 <= r < HEIGHT
      ensures g[r] == h[r]
    {
    }
  }

  /** Moving the scroll origin by one rotates the rows. */
  lemma GridAfterRotation(fb: seq<Cell>, scrollBegin: nat)
    requires |fb| == WIDTH * HEIGHT && scrollBegin < HEIGHT
    ensures var next := if scrollBegin + 1 >= HEIGHT then 0 else scrollBegin + 1;
            Grid(fb, next) == Grid(fb, scrollBegin)[1..] + [Grid(fb, scrollBegin)[0]]
  {
    hide FrameLine;
    var next := if scrollBegin + 1 >= HEIGHT then 0 else scrollBegin + 1;
    var g, h := Grid(fb, next), Grid(fb, scrollBegin)[1..] + [Grid(fb, scrollBegin)[0]];
    forall r | 0 <= r < HEIGHT
      ensures g[r] == h[r]
    {
    }
  }

  // ---- The page seen through 48 rows ----

  lemma VisibleLineFeed(p: Page)
    requires p.lines != []
    ensures Visible(LineFeed(p).lines)
            == if |p.lines| < HEIGHT then Visible(p.lines) else Visible(p.lines)[1..] + [BlankLine()]
  {
    hide BlankLine;
    var v, w := Visible(p.lines), Visible(LineFeed(p).lines);
    var e := if |p.lines| < HEIGHT then v else v[1..] + [BlankLine()];
    forall r | 0 <= r < HEIGHT
      ensures w[r] == e[r]
    {
    }
  }

  lemma VisiblePut(p: Page, l: Line)
    requires p.lines != []
    ensures var last := |p.lines| - 1;
            && 0 <= CursorRow(p) < HEIGHT
            && Visible(p.lines)[CursorRow(p)] == p.lines[last]
            && Visible(p.lines[last := l]) == Visible(p.lines)[CursorRow(p) := l]
  {
    hide BlankLine;
    var q := p.(lines := p.lines[|p.lines| - 1 := l]);
    var v, w := Visible(q.lines), Visible(p.lines)[CursorRow(p) := l];
    forall r | 0 <= r < HEIGHT
      ensures v[r] == w[r]
    {
    }
  }

  /** The driver's static state: framebuffer, scroll origin, cursor and text colour. */
  class Tty {
    var fb: array<Cell>
    var scrollBegin: nat
    var row: nat
    var col: nat
    var color: Byte

    ghost predicate Valid()
      reads this
    {
      fb.Length == WIDTH * HEIGHT && scrollBegin < HEIGHT && row < HEIGHT && col < WIDTH
    }

    ghost function Rows(): (g: seq<Line>)
      requires Valid()
      reads this, fb
      ensures |g| == HEIGHT
    {
      Grid(fb[..], scrollBegin)
    }

    /** Screen and cursor present `p`. */
    ghost predicate Shows(p: Page)
      reads this, fb
    {
      && Valid() && p.Valid()
      && Rows() == Visible(p.lines)
      && row == CursorRow(p) && col == p.col
    }

    /** `tty_init_basic`: a cleared screen with the cursor at home. */
    constructor (color: Byte)
      ensures fresh(fb) && this.color == color && Shows(EmptyPage())
    {
      fb := new Cell[WIDTH * HEIGHT](_ => 0);
      scrollBegin, row, col := 0, 0, 0;
      this.color := color;
      new;
      forall r | 0 <= r < HEIGHT
        ensures Grid(fb[..], 0)[r] == BlankLine()
      {
        assert FrameLine(fb[..], r) == BlankLine();
      }
      assert Visible(EmptyPage().lines)[0] == BlankLine();
      assert Rows() == Visible(EmptyPage().lines);
    }

    /** `vga_put_char_at`. */
    method PutCharAt(c: int, r: nat, k: nat)
      requires Valid() && r < HEIGHT && k < WIDTH
      modifies fb
      ensures |old(Rows())[r]| == WIDTH
      ensures Rows() == old(Rows())[r := PutCell(old(Rows())[r], k, CellOf(c, color))]
      ensures |Rows()[r]| == WIDTH && ShowsChar(Rows()[r][k], c, color)
    {
      hide Grid, FrameLine;
      ghost var before := fb[..];
      var line := RealRow(r, scrollBegin);
      fb[line * WIDTH + k] := CellOf(c, color);
      assert fb[..] == before[line * WIDTH + k := CellOf(c, color)];
      forall j | 0 <= j < HEIGHT
        ensures FrameLine(fb[..], j)
                == if j == line then PutCell(FrameLine(before, line), k, CellOf(c, color)) else FrameLine(before, j)
      {
        FrameLineUpdate(before, line, k, CellOf(c, color), j);
      }
      GridAfterLine(before, fb[..], scrollBegin, r);
      GridAt(before, scrollBegin, r);
    }

    /** `vga_clear_line`. */
    method ClearLine(r: nat)
      requires Valid() && r < HEIGHT
      modifies fb
      ensures Rows() == old(Rows())[r := BlankLine()]
    {
      hide Grid;
      ghost var before := fb[..];
      var line := RealRow(r, scrollBegin);
      var i := 0;
      while i < WIDTH
        invariant 0 <= i <= WIDTH
        invariant forall x :: 0 <= x < fb.Length ==>
                    fb[x] == if line * WIDTH <= x < line * WIDTH + i then 0 else before[x]
      {
        fb[line * WIDTH + i] := 0;
        i := i + 1;
      }
      ghost var after := fb[..];
      assert FrameLine(after, line) == BlankLine();
      forall j | 0 <= j < HEIGHT && j != line
        ensures FrameLine(after, j) == FrameLine(before, j)
      {
      }
      GridAfterLine(before, after, scrollBegin, r);
    }

    /** `vga_fast_scroll` shows every row one higher and a blank bottom row. */
    method FastScroll()
      requires Valid()
      modifies this`scrollBegin, fb
      ensures Valid()
      ensures Rows() == old(Rows())[1..] + [BlankLine()]
    {
      hide Grid, BlankLine;
      GridAfterRotation(fb[..], scrollBegin);
      scrollBegin := if scrollBegin + 1 >= HEIGHT then 0 else scrollBegin + 1;
      ClearLine(HEIGHT - 1);
    }

    /** `tty_new_line`, which leaves the column alone. */
    method NewLine(ghost p: Page)
      requires Shows(p)
      modifies this`scrollBegin, this`row, fb
      ensures Valid() && Rows() == Visible(LineFeed(p).lines) && row == CursorRow(LineFeed(p))
    {
      hide Grid, BlankLine, Visible;
      VisibleLineFeed(p);
      row := row + 1;
      if row >= HEIGHT {
        row := HEIGHT - 1;
        FastScroll();
      }
    }

    /** `tty_putc` of anything but backspace and escape: the screen presents the page with `c` typed. */
    method Putc(c: int, ghost p: Page)
      requires Shows(p) && c != 8 && c != 27
      modifies this`scrollBegin, this`row, this`col, fb
      ensures Shows(Type(p, c, color))
    {
      hide Grid, BlankLine, Visible;
      if !Printable(c) {
        if c == NEWLINE {
          NewLine(p);
          col := 0;
        }
        return;
      }
      ghost var last := |p.lines| - 1;
      ghost var q := Page(p.lines[last := PutCell(p.lines[last], p.col, CellOf(c, color))], p.col);
      VisiblePut(p, q.lines[last]);
      PutCharAt(c, row, col);
      assert Rows() == Visible(q.lines);
      col := col + 1;
      if col >= WIDTH {
        col := 0;
        assert Shows(q.(col := 0));
        NewLine(q.(col := 0));
      }
    }

    /** Text written to a cleared screen shows its wrapped lines. */
    method Puts(text: seq<int>)
      requires Shows(EmptyPage()) && 8 !in text && 27 !in text
      modifies this`scrollBegin, this`row, this`col, fb
      ensures Shows(Layout(text, color))
      ensures Rows() == Visible(WrapAll(LinesOf(text), color))
      ensures ShowsText(Rows(), LinesOf(text), color)
      ensures var ls := LinesOf(text);
              row == Min(RowsBefore(ls, |ls|), 48) - 1 && col == |ls[|ls| - 1]| % 106
    {
      hide WrapAll, Grid, Visible, Type, ShowsText;
      LayoutIsWrappedLines(text, color);
      TextIsShown(LinesOf(text), color);
      var i := 0;
      assert text[..0] == [];
      while i < |text|
        invariant 0 <= i <= |text| && Shows(Layout(text[..i], color))
      {
        assert text[..i + 1][..i] == text[..i];
        assert text[i] in text;
        Putc(text[i], Layout(text[..i], color));
        i := i + 1;
      }
      assert text[..i] == text;
    }
  }

  lemma GridAt(fb: seq<Cell>, scrollBegin: nat, r: nat)
    requires |fb| == WIDTH * HEIGHT && scrollBegin < HEIGHT && r < HEIGHT
    ensures Grid(fb, scrollBegin)[r] == FrameLine(fb, RealRow(r, scrollBegin))
  {}

  // ---- What the page is: the text's lines, cut every 106 characters ----

  /** The printable characters between newlines. */
  function LinesOf(text: seq<int>): (ls: seq<seq<int>>)
    ensures ls != []
  {
    if text == [] then
      [[]]
    else
      var rest := LinesOf(text[1..]);
      if text[0] == NEWLINE then [[]] + rest
      else if Printable(text[0]) then [[text[0]] + rest[0]] + rest[1..]
      else rest
  }

  function Cells(l: seq<int>, color: Byte): (r: Line)
    ensures |r| == |l| && forall i :: 0 <= i < |l| ==> r[i] == CellOf(l[i], color)
  {
    seq(|l|, i requires 0 <= i < |l| => CellOf(l[i], color))
  }

  /** One line cut into rows; a line that fills its last row is followed by an empty one. */
  function WrapLine(l: seq<int>, color: Byte): (rows: seq<Line>)
    ensures rows != [] && |rows[|rows| - 1]| == WIDTH
  {
    if |l| < WIDTH then
      [Cells(l, color) + Blanks(WIDTH - |l|)]
    else
      [Cells(l[..WIDTH], color)] + WrapLine(l[WIDTH..], color)
  }

  function WrapAll(ls: seq<seq<int>>, color: Byte): seq<Line> {
    if ls == [] then [] else WrapLine(ls[0], color) + WrapAll(ls[1..], color)
  }

  lemma {:induction false} LinesOfSnoc(text: seq<int>, c: int)
    ensures var ls, n := LinesOf(text), |LinesOf(text)| - 1;
            LinesOf(text + [c])
            == if c == NEWLINE then ls + [[]]
               else if Printable(c) then ls[n := ls[n] + [c]]
               else ls
  {
    if text == [] {
      var u := text + [c];
      assert u[1..] == [] && u[0] == c && LinesOf([]) == [[]];
      assert [c] + [] == [c] && [] + [c] == [c];
    } else {
      LinesOfSnoc(text[1..], c);
      var u := text + [c];
      assert u[1..] == text[1..] + [c] && u[0] == text[0];
      var rest := LinesOf(text[1..]);
      if |rest| == 1 {
        assert [text[0]] + (rest[0] + [c]) == ([text[0]] + rest[0]) + [c];
      }
    }
  }

  lemma {:induction false} WrapAllAppend(ls: seq<seq<int>>, ms: seq<seq<int>>, color: Byte)
    ensures WrapAll(ls + ms, color) == WrapAll(ls, color) + WrapAll(ms, color)
  {
    hide WrapLine;
    if ls == [] {
      assert ls + ms == ms;
    } else {
      assert (ls + ms)[1..] == ls[1..] + ms;
      WrapAllAppend(ls[1..], ms, color);
    }
  }

  lemma WrapOne(l: seq<int>, color: Byte)
    ensures WrapAll([l], color) == WrapLine(l, color)
  {
    hide WrapLine;
    assert [l][1..] == [];
  }

  /** The rows with `v` put at column `k` of the last one, and a fresh row if that fills it. */
  function PutLast(rows: seq<Line>, k: nat, v: Cell): seq<Line>
    requires rows != [] && k < |rows[|rows| - 1]|
  {
    rows[|rows| - 1 := PutCell(rows[|rows| - 1], k, v)] + if k + 1 == WIDTH then [BlankLine()] else []
  }

  lemma ShortLineSnoc(l: seq<int>, c: int, color: Byte)
    requires |l| < WIDTH
    ensures Cells(l + [c], color) + Blanks(WIDTH - |l| - 1)
            == PutCell(Cells(l, color) + Blanks(WIDTH - |l|), |l|, CellOf(c, color))
  {
    var a := Cells(l + [c], color) + Blanks(WIDTH - |l| - 1);
    var b := PutCell(Cells(l, color) + Blanks(WIDTH - |l|), |l|, CellOf(c, color));
    assert forall i :: 0 <= i < WIDTH ==> a[i] == b[i];
  }

  lemma EmptyLineIsBlank(color: Byte)
    ensures WrapLine([], color) == [BlankLine()]
  {
    assert Cells([], color) + Blanks(WIDTH) == BlankLine();
  }

  lemma ShortWrapSnoc(l: seq<int>, c: int, color: Byte)
    requires |l| < WIDTH
    ensures WrapLine(l + [c], color) == PutLast(WrapLine(l, color), |l| % WIDTH, CellOf(c, color))
  {
    hide Cells, Blanks, BlankLine, PutCell, CellOf, WrapLine, PutLast;
    var m := l + [c];
    ShortLineSnoc(l, c, color);
    WrapShort(l, color);
    PutLastOne(Cells(l, color) + Blanks(WIDTH - |l|), |l|, CellOf(c, color));
    if |m| == WIDTH {
      WrapFull(m, color);
      assert Cells(m, color) + Blanks(0) == Cells(m, color);
    } else {
      WrapShort(m, color);
    }
  }

  lemma WrapShort(l: seq<int>, color: Byte)
    requires |l| < WIDTH
    ensures WrapLine(l, color) == [Cells(l, color) + Blanks(WIDTH - |l|)]
  {}

  lemma WrapFull(l: seq<int>, color: Byte)
    requires |l| == WIDTH
    ensures WrapLine(l, color) == [Cells(l, color)] + [BlankLine()]
  {
    hide Cells, Blanks, BlankLine;
    assert l[..WIDTH] == l && l[WIDTH..] == [];
    EmptyLineIsBlank(color);
  }

  lemma PutLastOne(row: Line, k: nat, v: Cell)
    requires k < |row| == WIDTH
    ensures PutLast([row], k, v) == [PutCell(row, k, v)] + if k + 1 == WIDTH then [BlankLine()] else []
  {
    hide PutCell, BlankLine;
    assert [row][0 := PutCell(row, k, v)] == [PutCell(row, k, v)];
  }

  lemma ModWidth(n: nat)
    requires n >= WIDTH
    ensures (n - WIDTH) % WIDTH == n % WIDTH < WIDTH
  {}

  lemma {:induction false} WrapLineSnoc(l: seq<int>, c: int, color: Byte)
    ensures WrapLine(l + [c], color) == PutLast(WrapLine(l, color), |l| % WIDTH, CellOf(c, color))
  {
    hide Cells, Blanks, BlankLine, PutCell, CellOf, PutLast;
    var m := l + [c];
    if |l| < WIDTH {
      ShortWrapSnoc(l, c, color);
    } else {
      ModWidth(|l|);
      assert m[..WIDTH] == l[..WIDTH] && m[WIDTH..] == l[WIDTH..] + [c];
      WrapLineSnoc(l[WIDTH..], c, color);
      PutLastCons(Cells(l[..WIDTH], color), WrapLine(l[WIDTH..], color), |l| % WIDTH, CellOf(c, color));
    }
  }

  lemma PutLastCons(row: Line, rows: seq<Line>, k: nat, v: Cell)
    requires rows != [] && k < |rows[|rows| - 1]|
    ensures PutLast([row] + rows, k, v) == [row] + PutLast(rows, k, v)
  {
    hide PutCell, BlankLine;
    var a, b := PutLast([row] + rows, k, v), [row] + PutLast(rows, k, v);
    assert |a| == |b|;
    assert forall i :: 0 <= i < |a| ==> a[i] == b[i];
  }

  lemma {:induction false} PutLastAppend(front: seq<Line>, rows: seq<Line>, k: nat, v: Cell)
    requires rows != [] && k < |rows[|rows| - 1]|
    ensures PutLast(front + rows, k, v) == front + PutLast(rows, k, v)
  {
    hide PutLast;
    if front == [] {
      assert front + rows == rows;
    } else {
      assert front + rows == [front[0]] + (front[1..] + rows);
      PutLastAppend(front[1..], rows, k, v);
      PutLastCons(front[0], front[1..] + rows, k, v);
      assert front + PutLast(rows, k, v) == [front[0]] + (front[1..] + PutLast(rows, k, v));
    }
  }

  lemma TypeIsWrapped(ls: seq<seq<int>>, c: int, p: Page, color: Byte)
    requires ls != [] && Printable(c)
    requires p.Valid() && p.lines == WrapAll(ls, color) && p.col == |ls[|ls| - 1]| % WIDTH
    ensures Type(p, c, color).lines == WrapAll(ls[|ls| - 1 := ls[|ls| - 1] + [c]], color)
    ensures Type(p, c, color).col == (|ls[|ls| - 1]| + 1) % WIDTH
  {
    hide WrapLine, WrapAll, CellOf, PutLast, Type;
    TypeIsPutLast(p, c, color);
    var n := |ls| - 1;
    var front, l := ls[..n], ls[n];
    assert ls == front + [l];
    assert ls[n := l + [c]] == front + [l + [c]];
    WrapLineSnoc(l, c, color);
    WrapAllAppend(front, [l], color);
    WrapAllAppend(front, [l + [c]], color);
    WrapOne(l, color);
    WrapOne(l + [c], color);
    PutLastAppend(WrapAll(front, color), WrapLine(l, color), p.col, CellOf(c, color));
  }

  lemma TypeIsPutLast(p: Page, c: int, color: Byte)
    requires p.Valid() && Printable(c)
    ensures |p.lines[|p.lines| - 1]| == WIDTH
    ensures Type(p, c, color) == Page(PutLast(p.lines, p.col, CellOf(c, color)), (p.col + 1) % WIDTH)
  {
    hide BlankLine, CellOf, PutCell;
    assert p.lines[|p.lines| - 1] in p.lines;
  }

  /**
   * Typing a text character by character lays out exactly its lines, each cut every 106 characters,
   * with the cursor behind the last character.
   */
  lemma {:induction false} LayoutIsWrappedLines(text: seq<int>, color: Byte)
    ensures Layout(text, color).lines == WrapAll(LinesOf(text), color)
    ensures Layout(text, color).col == |LinesOf(text)[|LinesOf(text)| - 1]| % WIDTH
  {
    hide WrapLine, WrapAll, BlankLine, Type;
    if text == [] {
      WrapOne([], color);
      EmptyLineIsBlank(color);
    } else {
      var t, c := text[..|text| - 1], text[|text| - 1];
      assert text == t + [c];
      LayoutIsWrappedLines(t, color);
      LinesOfSnoc(t, c);
      if c == NEWLINE {
        NewlineIsWrapped(LinesOf(t), Layout(t, color), color);
      } else if Printable(c) {
        TypeIsWrapped(LinesOf(t), c, Layout(t, color), color);
      } else {
        IgnoredIsNothing(Layout(t, color), c, color);
      }
    }
  }

  lemma NewlineIsWrapped(ls: seq<seq<int>>, p: Page, color: Byte)
    requires p.Valid() && p.lines == WrapAll(ls, color)
    ensures Type(p, NEWLINE, color) == Page(WrapAll(ls + [[]], color), 0)
  {
    hide WrapLine, WrapAll, BlankLine;
    WrapAllAppend(ls, [[]], color);
    WrapOne([], color);
    EmptyLineIsBlank(color);
  }

  lemma IgnoredIsNothing(p: Page, c: int, color: Byte)
    requires p.Valid() && c != NEWLINE && !Printable(c)
    ensures Type(p, c, color) == p
  {}

  // ---- Where each character is ----

  /** The rows that the lines before line `n` take. */
  function RowsBefore(ls: seq<seq<int>>, n: nat): nat
    requires n <= |ls|
  {
    if n == 0 then 0 else RowsBefore(ls, n - 1) + |ls[n - 1]| / 106 + 1
  }

  /**
   * On a grid of 48 rows that shows the end of the lines, character `i` of line `n` is in column `i % 106` of
   * its row, unless it has scrolled off, and the rest of each line's last row is empty.
   */
  ghost predicate ShowsText(grid: seq<Line>, ls: seq<seq<int>>, color: Byte) {
    && |grid| == 48 && (forall row <- grid :: |row| == 106)
    && var off := Max(0, RowsBefore(ls, |ls|) - 48);
    && (forall n, i :: 0 <= n < |ls| && 0 <= i < |ls[n]| ==> ShownAt(grid, ls, n, i, off, color))
    && (forall n, i :: 0 <= n < |ls| && |ls[n]| <= i < (|ls[n]| / 106 + 1) * 106 ==> EmptyAt(grid, ls, n, i, off))
  }

  ghost predicate ShownAt(grid: seq<Line>, ls: seq<seq<int>>, n: nat, i: nat, off: nat, color: Byte)
    requires n < |ls| && i < |ls[n]| && |grid| == 48 && forall row <- grid :: |row| == 106
  {
    var row := RowsBefore(ls, n) + i / 106 - off;
    row < 48 && (row >= 0 ==> |grid[row]| == 106 && ShowsChar(grid[row][i % 106], ls[n][i], color))
  }

  ghost predicate EmptyAt(grid: seq<Line>, ls: seq<seq<int>>, n: nat, i: nat, off: nat)
    requires n < |ls| && |grid| == 48 && forall row <- grid :: |row| == 106
  {
    var row := RowsBefore(ls, n) + i / 106 - off;
    0 <= row < 48 ==> |grid[row]| == 106 && grid[row][i % 106] == 0
  }

  lemma {:induction false} WrapLineCells(l: seq<int>, color: Byte, i: nat)
    requires i < (|l| / 106 + 1) * 106
    ensures |WrapLine(l, color)| == |l| / 106 + 1 && i / 106 < |WrapLine(l, color)|
    ensures |WrapLine(l, color)[i / 106]| == 106
    ensures if i < |l| then ShowsChar(WrapLine(l, color)[i / 106][i % 106], l[i], color)
            else WrapLine(l, color)[i / 106][i % 106] == 0
  {
    hide WrapLine, Cells, Blanks, ShowsChar;
    if |l| < WIDTH {
      SmallIndex(|l|);
      SmallIndex(i);
      WrapShort(l, color);
      CellShows(l, color, i);
    } else {
      var rest := l[WIDTH..];
      WrapLong(l, color);
      DivWidth(|l|);
      if i >= WIDTH {
        DivWidth(i);
        WrapLineCells(rest, color, i - WIDTH);
        assert i < |l| ==> l[i] == rest[i - WIDTH];
      } else {
        SmallIndex(i);
        SmallIndex(0);
        WrapLineCells(rest, color, 0);
        CellShows(l[..WIDTH], color, i);
      }
    }
  }

  lemma WrapLong(l: seq<int>, color: Byte)
    requires |l| >= WIDTH
    ensures WrapLine(l, color) == [Cells(l[..WIDTH], color)] + WrapLine(l[WIDTH..], color)
  {}

  lemma CellShows(l: seq<int>, color: Byte, i: nat)
    ensures i < |l| ==> ShowsChar(Cells(l, color)[i], l[i], color)
    ensures |l| <= i < WIDTH ==> (Cells(l, color) + Blanks(WIDTH - |l|))[i] == 0
  {}

  lemma SmallIndex(n: nat)
    requires n < WIDTH
    ensures n / 106 == 0 && n % 106 == n
  {}

  lemma DivWidth(n: nat)
    requires n >= WIDTH
    ensures n / 106 == (n - WIDTH) / 106 + 1 && n % 106 == (n - WIDTH) % 106
  {}

  lemma {:induction false} WrapAllRows(ls: seq<seq<int>>, color: Byte, n: nat)
    requires n <= |ls|
    ensures |WrapAll(ls[..n], color)| == RowsBefore(ls, n)
  {
    hide WrapLine;
    if n > 0 {
      WrapAllRows(ls, color, n - 1);
      assert ls[..n] == ls[..n - 1] + [ls[n - 1]];
      WrapAllAppend(ls[..n - 1], [ls[n - 1]], color);
      WrapOne(ls[n - 1], color);
      WrapLineCells(ls[n - 1], color, 0);
    }
  }

  lemma WrapAllCells(ls: seq<seq<int>>, color: Byte, n: nat, i: nat)
    requires n < |ls| && i < (|ls[n]| / 106 + 1) * 106
    ensures var rows, row := WrapAll(ls, color), RowsBefore(ls, n) + i / 106;
            && |rows| == RowsBefore(ls, |ls|) && row < |rows| && |rows[row]| == 106
            && if i < |ls[n]| then ShowsChar(rows[row][i % 106], ls[n][i], color) else rows[row][i % 106] == 0
  {
    hide WrapLine, WrapAll, ShowsChar;
    var l := ls[n];
    WrapLineCells(l, color, i);
    WrapAllRows(ls, color, n);
    WrapAllRows(ls, color, |ls|);
    assert ls[..|ls|] == ls && ls == ls[..n] + ([l] + ls[n + 1..]);
    WrapAllAppend(ls[..n], [l] + ls[n + 1..], color);
    WrapAllAppend([l], ls[n + 1..], color);
    WrapOne(l, color);
  }

  lemma {:induction false} WrapAllWidth(ls: seq<seq<int>>, color: Byte)
    ensures forall row <- WrapAll(ls, color) :: |row| == 106
  {
    if ls != [] {
      WrapAllWidth(ls[1..], color);
      WrapLineWidth(ls[0], color);
    }
  }

  lemma {:induction false} WrapLineWidth(l: seq<int>, color: Byte)
    ensures forall row <- WrapLine(l, color) :: |row| == 106
  {
    if |l| >= WIDTH {
      WrapLineWidth(l[WIDTH..], color);
    }
  }

  /** The visible rows of wrapped lines show every character that has not scrolled off in its place. */
  lemma TextIsShown(ls: seq<seq<int>>, color: Byte)
    requires ls != []
    ensures ShowsText(Visible(WrapAll(ls, color)), ls, color)
    ensures |WrapAll(ls, color)| == RowsBefore(ls, |ls|)
  {
    hide WrapAll, WrapLine, ShowsChar, RowsBefore;
    var rows := WrapAll(ls, color);
    var grid := Visible(rows);
    WrapAllWidth(ls, color);
    WrapAllRows(ls, color, |ls|);
    assert ls[..|ls|] == ls;
    var off := Max(0, |rows| - 48);
    forall n, i | 0 <= n < |ls| && 0 <= i < |ls[n]|
      ensures ShownAt(grid, ls, n, i, off, color)
    {
      WrapAllCells(ls, color, n, i);
    }
    forall n, i | 0 <= n < |ls| && |ls[n]| <= i < (|ls[n]| / 106 + 1) * 106
      ensures EmptyAt(grid, ls, n, i, off)
    {
      WrapAllCells(ls, color, n, i);
    }
  }

  // ---- Which characters there are ----

  /** The lines put together again with newlines. */
  function Joined(ls: seq<seq<int>>): seq<int>
    requires ls != []
  {
    if |ls| == 1 then ls[0] else ls[0] + [10] + Joined(ls[1..])
  }

  /** The text without the control characters that the screen ignores. */
  function Kept(text: seq<int>): seq<int> {
    if text == [] then []
    else (if 32 <= text[0] <= 126 || text[0] == 10 then [text[0]] else []) + Kept(text[1..])
  }

  /** The lines are the text: every character from 32 to 126 is in them, in order, and newlines separate them. */
  lemma {:induction false} LinesAreTheText(text: seq<int>)
    ensures Joined(LinesOf(text)) == Kept(text)
    ensures forall l <- LinesOf(text), c <- l :: 32 <= c <= 126
  {
    if text != [] {
      LinesAreTheText(text[1..]);
      var rest, ls := LinesOf(text[1..]), LinesOf(text);
      if text[0] == NEWLINE {
        assert ls[1..] == rest;
        assert [] + [10] + Joined(rest) == [10] + Joined(rest);
      } else if Printable(text[0]) {
        assert ls[0] == [text[0]] + rest[0] && ls[1..] == rest[1..];
        assert rest[0] in rest;
        if |rest| > 1 {
          assert ([text[0]] + rest[0]) + [10] + Joined(rest[1..]) == [text[0]] + (rest[0] + [10] + Joined(rest[1..]));
        }
      }
    }
  }
}
