/**
 The text console: a 40 by 25 buffer that scrolls one row when it is full, and the line editor that types
 into it. The abstract console is a sheet of paper of unlimited length and the number of its first row on screen.
 */
module Console {
  const WIDTH: nat := 40
  const HEIGHT: nat := 25
  const SIZE: nat := 1000
  const LAST_ROW: nat := 960

  // ---- Paper

  /** Everything printed, in rows of 40 cells that are never lost, and the first row still on screen. */
  datatype Page = Page(paper: string, top: nat) {
    predicate Ok() { WIDTH * top <= |paper| < WIDTH * top + SIZE }
    function Cursor(): int { |paper| - WIDTH * top }
  }

  const CLEARED := Page("", 0)

  function Blank(n: nat): string { seq(n, _ => '\0') }

  /** A newline fills the row with blanks; any other character takes one cell. */
  function Typed(p: string, c: char): string {
    if c == '\n' then p + Blank(WIDTH - |p| % WIDTH) else p + [c]
  }

  function Paper(s: string): string {
    if s == "" then "" else Typed(Paper(s[..|s| - 1]), s[|s| - 1])
  }

  function Cell(p: string, k: nat): char { if k < |p| then p[k] else '\0' }

  /** The 25 rows of the paper that start at row `top`. */
  function Rows(p: string, top: nat): (v: string)
    ensures |v| == SIZE
  {
    seq(SIZE, k requires 0 <= k => Cell(p, WIDTH * top + k))
  }

  lemma RowsAt(p: string, top: nat, k: nat)
    requires k < SIZE
    ensures Rows(p, top)[k] == Cell(p, WIDTH * top + k)
  {
  }

  lemma RowsAre(t: string, p: string, top: nat)
    requires |t| == SIZE && forall k: nat :: k < SIZE ==> t[k] == Cell(p, WIDTH * top + k)
    ensures t == Rows(p, top)
  {
    forall k | 0 <= k < SIZE
      ensures t[k] == Rows(p, top)[k]
    {
    }
  }

  /** The row number at which the last 25 rows begin, counting the row the cursor is in. */
  function LastTop(p: string): nat { if |p| / WIDTH < HEIGHT then 0 else |p| / WIDTH - (HEIGHT - 1) }

  function Printed(pg: Page, c: char): (r: Page)
    requires pg.Ok()
    ensures r.Ok()
  {
    var p := Typed(pg.paper, c);
    Page(p, if |p| - WIDTH * pg.top < SIZE then pg.top else pg.top + 1)
  }

  lemma CellTyped(p: string, c: char, k: nat)
    ensures Cell(Typed(p, c), k) == if c != '\n' && k == |p| then c else Cell(p, k)
  {
  }

  /** A newline changes no cell on screen, another character the one under the cursor. */
  lemma RowsTyped(pg: Page, c: char)
    requires pg.Ok()
    ensures Rows(Typed(pg.paper, c), pg.top) ==
            if c == '\n' then Rows(pg.paper, pg.top) else Rows(pg.paper, pg.top)[pg.Cursor() := c]
    ensures |Typed(pg.paper, c)| == |pg.paper| + if c == '\n' then WIDTH - pg.Cursor() % WIDTH else 1
  {
    var rows, rows' := Rows(pg.paper, pg.top), Rows(Typed(pg.paper, c), pg.top);
    forall k | 0 <= k < SIZE
      ensures rows'[k] == if c != '\n' && k == pg.Cursor() then c else rows[k]
    {
      CellTyped(pg.paper, c, WIDTH * pg.top + k);
      assert rows[k] == Cell(pg.paper, WIDTH * pg.top + k) && rows'[k] == Cell(Typed(pg.paper, c), WIDTH * pg.top + k);
    }
  }

  /** One row further down, the screen loses its first row and gains a blank one. */
  lemma RowsScrolled(pg: Page)
    requires |pg.paper| == WIDTH * pg.top + SIZE
    ensures Rows(pg.paper, pg.top + 1) == Rows(pg.paper, pg.top)[WIDTH..] + Blank(WIDTH)
  {
    forall k | 0 <= k < SIZE
      ensures Rows(pg.paper, pg.top + 1)[k] == (Rows(pg.paper, pg.top)[WIDTH..] + Blank(WIDTH))[k]
    {
      assert Rows(pg.paper, pg.top + 1)[k] == Cell(pg.paper, WIDTH * pg.top + (k + WIDTH));
      if k < LAST_ROW {
        assert Rows(pg.paper, pg.top)[k + WIDTH] == Cell(pg.paper, WIDTH * pg.top + (k + WIDTH));
      }
    }
  }

  function PrintedAll(pg: Page, s: string): (r: Page)
    requires pg.Ok()
    ensures r.Ok()
  {
    if s == "" then pg else Printed(PrintedAll(pg, s[..|s| - 1]), s[|s| - 1])
  }

  lemma PrintedStep(pg: Page, s: string, i: nat)
    requires pg.Ok() && i < |s|
    ensures PrintedAll(pg, s[..0]) == pg
    ensures PrintedAll(pg, s[..i + 1]) == Printed(PrintedAll(pg, s[..i]), s[i])
  {
    assert s[..i + 1][..i] == s[..i];
  }

  /**
   Where the cursor goes, counting cells from the top left of the 40 by 25: a newline takes it to the start of the next row
   wherever it was, another character one cell on, and from the end of the last row back to that row's start.
   */
  lemma CursorMoves(pg: Page, c: char)
    requires pg.Ok()
    ensures 0 <= pg.Cursor() < 1000
    ensures Printed(pg, c).Cursor() ==
      if c == '\n' then (if pg.Cursor() >= 960 then 960 else 40 * (pg.Cursor() / 40 + 1))
      else if pg.Cursor() == 999 then 960 else pg.Cursor() + 1
  {
    var i := pg.Cursor();
    assert |pg.paper| % 40 == i % 40 && i == 40 * (i / 40) + i % 40;
  }

  /** What cell x of row y shows. */
  lemma ScreenCell(p: string, top: nat, x: nat, y: nat)
    requires x < 40 && y < 25
    ensures var k := 40 * (top + y) + x; Rows(p, top)[40 * y + x] == if k < |p| then p[k] else '\0'
  {
    RowsAt(p, top, 40 * y + x);
  }

  /** From a cleared screen, what is on screen is exactly the last 25 rows of the unbounded layout. */
  lemma {:induction false} ScreenIsLastRows(s: string)
    ensures PrintedAll(CLEARED, s) == Page(Paper(s), LastTop(Paper(s)))
  {
    if s != "" {
      ScreenIsLastRows(s[..|s| - 1]);
    }
  }

  /** Paper is never rewritten: printing more keeps every cell already printed. */
  lemma {:induction false} PaperOnlyGrows(s: string, t: string)
    ensures Paper(s) <= Paper(s + t)
  {
    if t == "" {
      assert s + t == s;
    } else {
      var u := t[..|t| - 1];
      assert (s + t)[..|s + t| - 1] == s + u;
      PaperOnlyGrows(s, u);
    }
  }

  // ---- Editing a line

  /** The scancode table: 58 plain keys, then the same keys with shift held. */
  const PLAIN := "??1234567890-=" + "??qwertyuiop[]" + "\n" + "?asdfghjkl;'`" + "?" + "\\zxcvbnm,./" + "???" + " "
  const SHIFTED := "??!@#$%^&*()_+" + "??QWERTYUIOP{}" + "?" + "?ASDFGHJKL:\"~" + "?" + "\\ZXCVBNM<>?" + "???" + " "
  const KEYS := PLAIN + SHIFTED
  const BACKSPACE: nat := 0x0e
  const ENTER: nat := 0x1c
  const SHIFT_DOWN: nat := 0x2a
  const SHIFT_UP: nat := 0xaa

  function KeyChar(sc: nat, shift: bool): char {
    if sc < 58 then KEYS[if shift then sc + 58 else sc] else '\0'
  }

  lemma SpecialKeys()
    ensures KeyChar(ENTER, false) == '\n' && KeyChar(ENTER, true) == '?'
    ensures forall shift :: KeyChar(BACKSPACE, shift) == '?' && KeyChar(SHIFT_DOWN, shift) == '?' && KeyChar(SHIFT_UP, shift) == '\0'
  {
    assert PLAIN[28] == '\n' && PLAIN[14] == PLAIN[42] == '?';
    assert SHIFTED[28] == SHIFTED[14] == SHIFTED[42] == '?';
    assert KEYS[58..] == SHIFTED;
  }

  /** Key sc is on the row of keys that starts at scancode base, and stands for c there. */
  predicate OnRow(sc: nat, c: char, base: nat, row: string) {
    base <= sc < base + |row| && row[sc - base] == c
  }

  /** The four rows of a keyboard and its space bar, by the scancodes it sends (set 1), without and with shift. */
  predicate OnKey(sc: nat, shift: bool, c: char) {
    if shift then
      || OnRow(sc, c, 0x02, "!@#$%^&*()_+") || OnRow(sc, c, 0x10, "QWERTYUIOP{}") || OnRow(sc, c, 0x1e, "ASDFGHJKL:\"~")
      || OnRow(sc, c, 0x2b, "\\ZXCVBNM<>?") || OnRow(sc, c, 0x39, " ")
    else
      || OnRow(sc, c, 0x02, "1234567890-=") || OnRow(sc, c, 0x10, "qwertyuiop[]") || OnRow(sc, c, 0x1e, "asdfghjkl;'`")
      || OnRow(sc, c, 0x2b, "\\zxcvbnm,./") || OnRow(sc, c, 0x39, " ")
  }

  /** The table is the keyboard: every key gives its character, which goes into the line. */
  lemma KeyIs(sc: nat, shift: bool, c: char)
    requires OnKey(sc, shift, c)
    ensures KeyChar(sc, shift) == c && Pushes(sc, shift)
  {
    TableRows();
    KeyPrints(sc, shift, c);
    hide PLAIN, SHIFTED, KEYS;
    if shift {
      assert OnRow(sc, c, 0x02, KEYS[60..72]) || OnRow(sc, c, 0x10, KEYS[74..86]) || OnRow(sc, c, 0x1e, KEYS[88..100])
          || OnRow(sc, c, 0x2b, KEYS[101..112]) || OnRow(sc, c, 0x39, KEYS[115..116]);
    } else {
      assert OnRow(sc, c, 0x02, KEYS[2..14]) || OnRow(sc, c, 0x10, KEYS[16..28]) || OnRow(sc, c, 0x1e, KEYS[30..42])
          || OnRow(sc, c, 0x2b, KEYS[43..54]) || OnRow(sc, c, 0x39, KEYS[57..58]);
    }
  }

  lemma KeyPrints(sc: nat, shift: bool, c: char)
    requires OnKey(sc, shift, c)
    ensures c >= ' '
  {
    if shift { ShiftedPrints(sc, c); } else { PlainPrints(sc, c); }
  }

  lemma PlainPrints(sc: nat, c: char)
    requires OnKey(sc, false, c)
    ensures c >= ' '
  {
  }

  lemma ShiftedPrints(sc: nat, c: char)
    requires OnKey(sc, true, c)
    ensures c >= ' '
  {
  }

  lemma TableRows()
    ensures KEYS[2..14] == "1234567890-=" && KEYS[16..28] == "qwertyuiop[]" && KEYS[30..42] == "asdfghjkl;'`"
    ensures KEYS[43..54] == "\\zxcvbnm,./" && KEYS[57..58] == " "
    ensures KEYS[60..72] == "!@#$%^&*()_+" && KEYS[74..86] == "QWERTYUIOP{}" && KEYS[88..100] == "ASDFGHJKL:\"~"
    ensures KEYS[101..112] == "\\ZXCVBNM<>?" && KEYS[115..116] == " "
    ensures |KEYS| == 116
  {
    PlainRows();
    ShiftedRows();
    hide PLAIN, SHIFTED;
    Shifted(2, 14);
    Shifted(16, 28);
    Shifted(30, 42);
    Shifted(43, 54);
    Shifted(57, 58);
  }

  /** Where the two halves of the table are. */
  lemma Shifted(a: nat, b: nat)
    requires a <= b <= 58 && |PLAIN| == |SHIFTED| == 58
    ensures KEYS[a..b] == PLAIN[a..b] && KEYS[a + 58..b + 58] == SHIFTED[a..b]
  {
    hide PLAIN, SHIFTED;
  }

  /** Where the rows of a half are in it. */
  lemma HalfRows(a: string, b: string, c: string, d: string, x: string, e: string, y: string, z: string)
    requires |a| == |b| == 14 && |c| == |x| == |z| == 1 && |d| == 13 && |e| == 11 && |y| == 3
    ensures var p := a + b + c + d + x + e + y + z;
      && |p| == 58 && p[2..14] == a[2..] && p[16..28] == b[2..] && p[30..42] == d[1..] && p[43..54] == e && p[57..58] == z
  {
  }

  lemma PlainRows()
    ensures |PLAIN| == 58 && PLAIN[2..14] == "1234567890-=" && PLAIN[16..28] == "qwertyuiop[]"
    ensures PLAIN[30..42] == "asdfghjkl;'`" && PLAIN[43..54] == "\\zxcvbnm,./" && PLAIN[57..58] == " "
  {
    var a, b, d := "??1234567890-=", "??qwertyuiop[]", "?asdfghjkl;'`";
    HalfRows(a, b, "\n", d, "?", "\\zxcvbnm,./", "???", " ");
    assert a[2..] == "1234567890-=" && b[2..] == "qwertyuiop[]" && d[1..] == "asdfghjkl;'`";
  }

  lemma ShiftedRows()
    ensures |SHIFTED| == 58 && SHIFTED[2..14] == "!@#$%^&*()_+" && SHIFTED[16..28] == "QWERTYUIOP{}"
    ensures SHIFTED[30..42] == "ASDFGHJKL:\"~" && SHIFTED[43..54] == "\\ZXCVBNM<>?" && SHIFTED[57..58] == " "
  {
    var a, b, d := "??!@#$%^&*()_+", "??QWERTYUIOP{}", "?ASDFGHJKL:\"~";
    HalfRows(a, b, "?", d, "?", "\\ZXCVBNM<>?", "???", " ");
    assert a[2..] == "!@#$%^&*()_+" && b[2..] == "QWERTYUIOP{}" && d[1..] == "ASDFGHJKL:\"~";
  }

  predicate Pushes(sc: nat, shift: bool) {
    var c := KeyChar(sc, shift);
    sc != BACKSPACE && sc != SHIFT_DOWN && sc != SHIFT_UP && c != '\0' && c != '\n'
  }

  /** What a line editor promises: the line typed so far, with no buffer and no screen. */
  datatype Line = Line(text: string, shift: bool, done: bool)

  function Strike(l: Line, sc: nat): Line {
    if l.done then l
    else if sc == SHIFT_DOWN then l.(shift := true)
    else if sc == SHIFT_UP then l.(shift := false)
    else if sc == BACKSPACE then l.(text := if l.text == "" then "" else l.text[..|l.text| - 1])
    else if KeyChar(sc, l.shift) == '\n' then l.(done := true)
    else if Pushes(sc, l.shift) then l.(text := l.text + [KeyChar(sc, l.shift)])
    else l
  }

  function LineOf(codes: seq<nat>): Line {
    if codes == [] then Line("", false, false) else Strike(LineOf(codes[..|codes| - 1]), codes[|codes| - 1])
  }

  /** Typing a text key by key, without shift, makes it the line, and Enter ends it. */
  lemma {:induction false} TypedLine(codes: seq<nat>, t: string)
    requires |codes| == |t| && forall i :: 0 <= i < |t| ==> OnKey(codes[i], false, t[i])
    ensures LineOf(codes) == Line(t, false, false) && LineOf(codes + [0x1c]) == Line(t, false, true)
  {
    hide KeyChar, OnKey, Pushes, Strike, KEYS, PLAIN, SHIFTED;
    var n := |t|;
    if n > 0 {
      TypedLine(codes[..n - 1], t[..n - 1]);
      KeyIs(codes[n - 1], false, t[n - 1]);
      PushedLine(Line(t[..n - 1], false, false), codes[n - 1]);
      assert t[..n - 1] + [t[n - 1]] == t;
    }
    assert (codes + [0x1c])[..n] == codes;
    EnterEnds(Line(t, false, false));
  }

  lemma EnterEnds(l: Line)
    requires !l.done && !l.shift
    ensures Strike(l, 0x1c) == l.(done := true)
  {
    hide KEYS, KeyChar;
    SpecialKeys();
  }

  /** Shift pressed, a key, and shift released again; and a backspace. */
  lemma ShiftAndBackspace(l: Line, sc: nat, c: char)
    requires !l.done && OnKey(sc, true, c)
    ensures Strike(Strike(Strike(l, 0x2a), sc), 0xaa) == Line(l.text + [c], false, false)
    ensures Strike(Line(l.text + [c], false, false), 0x0e) == Line(l.text, false, false)
  {
    hide KEYS, KeyChar, OnKey, Pushes;
    KeyIs(sc, true, c);
    PushedLine(l.(shift := true), sc);
    assert (l.text + [c])[..|l.text|] == l.text;
  }

  lemma PushedLine(l: Line, sc: nat)
    requires !l.done && Pushes(sc, l.shift)
    ensures Strike(l, sc) == l.(text := l.text + [KeyChar(sc, l.shift)])
  {
  }

  /** The editor as it is: a buffer of fixed size, a count that runs on past its end, and the shared screen. */
  datatype Desk = Desk(page: Page, buf: string, nch: nat, shift: bool, done: bool, lost: bool)

  /** `lost`: the next store is outside the buffer or before the screen, and the editor stops here. */
  function Press(d: Desk, sc: nat): (r: Desk)
    requires d.page.Ok()
    ensures r.page.Ok() && |r.buf| == |d.buf|
  {
    if d.done || d.lost then d
    else if sc == SHIFT_DOWN then d.(shift := true)
    else if sc == SHIFT_UP then d.(shift := false)
    else if sc == BACKSPACE then
      if d.nch == 0 then d
      else if d.nch > |d.buf| || d.page.Cursor() == 0 then d.(lost := true)
      else d.(nch := d.nch - 1, buf := d.buf[d.nch - 1 := '\0'], page := d.page.(paper := d.page.paper[..|d.page.paper| - 1]))
    else if KeyChar(sc, d.shift) == '\n' then
      if d.nch >= |d.buf| then d.(lost := true)
      else d.(buf := d.buf[d.nch := '\0'], page := Printed(d.page, '\n'), done := true)
    else if Pushes(sc, d.shift) then
      var c := KeyChar(sc, d.shift);
      d.(nch := d.nch + 1, buf := if d.nch < |d.buf| - 1 then d.buf[d.nch := c] else d.buf, page := Printed(d.page, c))
    else d
  }

  function Pressed(d: Desk, codes: seq<nat>): (r: Desk)
    requires d.page.Ok()
    ensures r.page.Ok() && |r.buf| == |d.buf|
  {
    if codes == [] then d else Press(Pressed(d, codes[..|codes| - 1]), codes[|codes| - 1])
  }

  lemma {:induction false} StaysStopped(d: Desk, codes: seq<nat>, i: nat)
    requires d.page.Ok() && i <= |codes|
    ensures var r := Pressed(d, codes[..i]); r.done || r.lost ==> Pressed(d, codes) == r
    decreases |codes|
  {
    if i < |codes| {
      assert codes[..|codes| - 1][..i] == codes[..i];
      StaysStopped(d, codes[..|codes| - 1], i);
    } else {
      assert codes[..i] == codes;
    }
  }

  lemma PressedStep(d: Desk, codes: seq<nat>, i: nat)
    requires d.page.Ok() && i < |codes|
    ensures Pressed(d, codes[..i + 1]) == Press(Pressed(d, codes[..i]), codes[i])
  {
    assert codes[..i + 1][..i] == codes[..i];
  }

  /** What Enter does: it ends the line inside the buffer, or stops at its end. */
  lemma EnterPressed(d: Desk, sc: nat)
    requires d.page.Ok() && !d.done && !d.lost && KeyChar(sc, d.shift) == '\n'
    ensures Press(d, sc) ==
            if d.nch >= |d.buf| then d.(lost := true)
            else d.(buf := d.buf[d.nch := '\0'], page := Printed(d.page, '\n'), done := true)
  {
    hide KEYS, KeyChar;
    SpecialKeys();
  }

  function Sit(pg: Page, buf: string): Desk { Desk(pg, buf, 0, false, false, false) }

  /** At no moment was the line longer than `n`. */
  ghost predicate NeverLonger(codes: seq<nat>, n: int) {
    forall k :: 0 <= k <= |codes| ==> |LineOf(codes[..k]).text| <= n
  }

  lemma NeverLongerStep(codes: seq<nat>, n: int)
    requires codes != []
    ensures NeverLonger(codes, n) <==> NeverLonger(codes[..|codes| - 1], n) && |LineOf(codes).text| <= n
  {
    hide LineOf;
    var less := codes[..|codes| - 1];
    assert codes[..|codes|] == codes;
    assert forall j :: 0 <= j < |codes| ==> less[..j] == codes[..j];
  }

  lemma NeverLongerPrefix(codes: seq<nat>, n: int, k: nat)
    requires NeverLonger(codes, n) && k <= |codes|
    ensures NeverLonger(codes[..k], n)
  {
    hide LineOf;
    assert forall j :: 0 <= j <= k ==> codes[..k][..j] == codes[..j];
  }

  lemma NeverLongerNow(codes: seq<nat>, n: int)
    requires NeverLonger(codes, n)
    ensures |LineOf(codes).text| <= n
  {
    hide LineOf;
    assert codes[..|codes|] == codes;
  }

  /** The buffer, the screen and the line typed agree: the cells before the cursor are the buffer, and both are the line. */
  predicate Agree(pg: Page, d: Desk, l: Line) {
    && !d.lost && d.done == l.done && d.shift == l.shift
    && d.nch == |l.text| < |d.buf| && d.buf[..d.nch] == l.text
    && (if l.done then d.buf[d.nch] == '\0' && d.page.paper == Typed(pg.paper + l.text, '\n')
        else d.page.paper == pg.paper + l.text && WIDTH * d.page.top <= |pg.paper|)
  }

  lemma PressAgrees(pg: Page, d: Desk, l: Line, sc: nat)
    requires d.page.Ok() && Agree(pg, d, l)
    requires |Strike(l, sc).text| <= LAST_ROW && |Strike(l, sc).text| < |d.buf|
    ensures Agree(pg, Press(d, sc), Strike(l, sc))
  {
    if !l.done && Pushes(sc, l.shift) {
      var c := KeyChar(sc, l.shift);
      assert pg.paper + (l.text + [c]) == Typed(d.page.paper, c);
    } else if !l.done && sc == BACKSPACE && l.text != "" {
      assert d.page.paper[..|d.page.paper| - 1] == pg.paper + l.text[..|l.text| - 1];
    }
  }

  lemma SitAgrees(pg: Page, buf: string)
    requires pg.Ok() && buf != ""
    ensures Agree(pg, Sit(pg, buf), Line("", false, false))
  {
    assert pg.paper + "" == pg.paper;
  }

  /**
   The line editor agrees with the screen: for every sequence of scancodes whose line always fits the buffer and
   never exceeds 960 characters, the buffer holds exactly the line typed and so do the cells before the cursor.
   */
  lemma {:induction false} EditorAgrees(pg: Page, buf: string, codes: seq<nat>)
    requires pg.Ok() && NeverLonger(codes, |buf| - 1) && NeverLonger(codes, LAST_ROW)
    ensures Agree(pg, Pressed(Sit(pg, buf), codes), LineOf(codes))
  {
    hide NeverLonger, Agree, Press, Strike;
    var k := |codes|;
    NeverLongerNow(codes, |buf| - 1);
    NeverLongerNow(codes, LAST_ROW);
    if k > 0 {
      var less := codes[..k - 1];
      NeverLongerStep(codes, |buf| - 1);
      NeverLongerStep(codes, LAST_ROW);
      EditorAgrees(pg, buf, less);
      PressAgrees(pg, Pressed(Sit(pg, buf), less), LineOf(less), codes[k - 1]);
    } else {
      SitAgrees(pg, buf);
    }
  }

  /** A text typed key by key and Enter: the editor is done and its buffer holds the text and its end mark. */
  lemma TextIsRead(pg: Page, buf: string, codes: seq<nat>, t: string)
    requires pg.Ok() && |t| < |buf| && |t| <= 960
    requires |codes| == |t| && forall i :: 0 <= i < |t| ==> OnKey(codes[i], false, t[i])
    ensures var d := Pressed(Sit(pg, buf), codes + [0x1c]);
      d.done && !d.lost && |t| < |d.buf| && d.buf[..|t|] == t && d.buf[|t|] == '\0'
  {
    hide Press, Strike, OnKey, LineOf, NeverLonger;
    var all := codes + [0x1c];
    TypedLine(codes, t);
    ShortText(codes, t);
    LongerBound(all, |t|, |buf| - 1);
    LongerBound(all, |t|, LAST_ROW);
    EditorAgrees(pg, buf, all);
  }

  lemma ShortText(codes: seq<nat>, t: string)
    requires |codes| == |t| && forall i :: 0 <= i < |t| ==> OnKey(codes[i], false, t[i])
    ensures NeverLonger(codes + [0x1c], |t|)
  {
    hide OnKey, LineOf;
    var all := codes + [0x1c];
    forall k | 0 <= k <= |all|
      ensures |LineOf(all[..k]).text| <= |t|
    {
      if k <= |t| {
        assert all[..k] == codes[..k];
        TypedLine(codes[..k], t[..k]);
      } else {
        assert all[..k] == all;
        TypedLine(codes, t);
      }
    }
  }

  /** The cells just before the cursor, on screen. */
  lemma BufferIsOnScreen(pg: Page, d: Desk, l: Line)
    requires d.page.Ok() && Agree(pg, d, l) && !l.done
    ensures 0 <= d.page.Cursor() - d.nch && d.page.Cursor() < SIZE
    ensures Rows(d.page.paper, d.page.top)[d.page.Cursor() - d.nch..d.page.Cursor()] == d.buf[..d.nch]
  {
    hide Rows;
    var rows, start := Rows(d.page.paper, d.page.top), d.page.Cursor() - d.nch;
    assert WIDTH * d.page.top + start == |pg.paper|;
    forall k | 0 <= k < d.nch
      ensures rows[start..start + d.nch][k] == l.text[k]
    {
      RowsAt(d.page.paper, d.page.top, start + k);
    }
  }

  /** The last cell is for the end mark: whatever was typed so far, no character went there. */
  lemma {:induction false} LastCellKept(pg: Page, buf: string, codes: seq<nat>)
    requires pg.Ok() && buf != ""
    ensures var r := Pressed(Sit(pg, buf), codes); r.buf[|buf| - 1] == buf[|buf| - 1] || r.buf[|buf| - 1] == '\0'
  {
    hide KEYS, KeyChar, Pushes, Printed;
    if codes != [] {
      LastCellKept(pg, buf, codes[..|codes| - 1]);
    }
  }

  /** Releasing shift and pressing Enter now stays inside the buffer. */
  predicate EnterSafe(pg: Page, buf: string, codes: seq<nat>)
    requires pg.Ok()
  {
    !Press(Press(Pressed(Sit(pg, buf), codes), SHIFT_UP), ENTER).lost
  }

  lemma GrowingTooLong(pg: Page, d: Desk, l: Line, sc: nat)
    requires d.page.Ok() && Agree(pg, d, l) && |Strike(l, sc).text| >= |d.buf|
    ensures Press(Press(Press(d, sc), SHIFT_UP), ENTER).lost
  {
    hide KEYS, KeyChar;
    SpecialKeys();
    assert Press(d, sc).nch == |d.buf| && !Press(d, sc).done;
  }

  lemma {:induction false} TooLongIsUnsafe(pg: Page, buf: string, codes: seq<nat>) returns (k: nat)
    requires pg.Ok() && (|buf| <= LAST_ROW + 1 || NeverLonger(codes, LAST_ROW)) && !NeverLonger(codes, |buf| - 1)
    ensures k <= |codes| && !EnterSafe(pg, buf, codes[..k])
  {
    hide KEYS, KeyChar, NeverLonger, Agree, Press, Strike;
    k := |codes|;
    assert codes[..k] == codes;
    if k > 0 {
      var less := codes[..k - 1];
      NeverLongerStep(codes, |buf| - 1);
      NeverLongerStep(codes, LAST_ROW);
      if NeverLonger(less, |buf| - 1) {
        LongerBound(less, |buf| - 1, LAST_ROW);
        EditorAgrees(pg, buf, less);
        GrowingTooLong(pg, Pressed(Sit(pg, buf), less), LineOf(less), codes[k - 1]);
      } else {
        k := TooLongIsUnsafe(pg, buf, less);
        assert less[..k] == codes[..k];
      }
    } else if buf == "" {
      NoBuffer(pg, buf);
    } else {
      NothingTyped(|buf| - 1);
    }
  }

  lemma LongerBound(codes: seq<nat>, n: int, n': int)
    requires NeverLonger(codes, n) && n <= n'
    ensures NeverLonger(codes, n')
  {
  }

  lemma NoBuffer(pg: Page, buf: string)
    requires pg.Ok() && buf == ""
    ensures !EnterSafe(pg, buf, [])
  {
    hide KEYS, KeyChar;
    SpecialKeys();
  }

  lemma NothingTyped(n: int)
    requires n >= 0
    ensures NeverLonger([], n)
  {
  }

  lemma EnterAfterAgree(pg: Page, buf: string, codes: seq<nat>)
    requires pg.Ok() && Agree(pg, Pressed(Sit(pg, buf), codes), LineOf(codes))
    ensures EnterSafe(pg, buf, codes)
  {
    hide KEYS, KeyChar, Printed;
    SpecialKeys();
  }

  /**
   Exactly when Enter is safe: for a buffer of at most 961 cells, or a line that never exceeds 960 characters, the
   terminator lands inside the buffer at whatever moment Enter is pressed if and only if the line was never longer than
   the buffer less one.
   */
  lemma {:induction false} EnterIsSafe(pg: Page, buf: string, codes: seq<nat>)
    requires pg.Ok() && (|buf| <= LAST_ROW + 1 || NeverLonger(codes, LAST_ROW))
    ensures NeverLonger(codes, |buf| - 1) <==> forall k :: 0 <= k <= |codes| ==> EnterSafe(pg, buf, codes[..k])
  {
    hide KEYS, KeyChar, NeverLonger, Agree, Press, Strike, EnterSafe;
    if NeverLonger(codes, |buf| - 1) {
      forall k | 0 <= k <= |codes|
        ensures EnterSafe(pg, buf, codes[..k])
      {
        NeverLongerPrefix(codes, |buf| - 1, k);
        NeverLongerPrefix(codes, if |buf| <= LAST_ROW + 1 then |buf| - 1 else LAST_ROW, k);
        LongerBound(codes[..k], if |buf| <= LAST_ROW + 1 then |buf| - 1 else LAST_ROW, LAST_ROW);
        EditorAgrees(pg, buf, codes[..k]);
        EnterAfterAgree(pg, buf, codes[..k]);
      }
    } else {
      var k := TooLongIsUnsafe(pg, buf, codes);
    }
  }

  /** Exactly when a line can be rubbed out: `n` backspaces stay on the screen if and only if `n` cells of it are still on screen. */
  lemma {:induction false} RubOut(d: Desk, n: nat)
    requires d.page.Ok() && !d.done && !d.lost && n <= d.nch <= |d.buf|
    ensures var r := Pressed(d, seq(n, _ => BACKSPACE));
            && (r.lost <==> d.page.Cursor() < n)
            && (!r.lost ==> r.nch == d.nch - n && r.page == d.page.(paper := d.page.paper[..|d.page.paper| - n]))
            && !r.done
  {
    if n > 0 {
      var codes := seq(n, _ => BACKSPACE);
      assert codes[..n - 1] == seq(n - 1, _ => BACKSPACE);
      RubOut(d, n - 1);
    }
  }

  // ---- The console in memory

  datatype End = Waiting | Entered | Outside

  class Console {
    const textbuf: array<char>
    /** The cells last drawn. */
    const drawn: array<char>
    var idx: nat
    ghost var page: Page

    ghost predicate Valid()
      reads this, textbuf, drawn
    {
      && textbuf.Length == SIZE && drawn.Length == SIZE && textbuf != drawn
      && page.Ok() && idx == page.Cursor()
      && textbuf[..] == Rows(page.paper, page.top)
    }

    ghost predicate Shown()
      reads this, textbuf, drawn
    {
      drawn[..] == textbuf[..]
    }

    constructor ()
      ensures Valid() && Shown() && fresh(textbuf) && fresh(drawn) && page == CLEARED
    {
      textbuf := new char[SIZE];
      drawn := new char[SIZE];
      idx := 0;
      page := CLEARED;
      new;
      KCls();
    }

    method KCls()
      requires textbuf.Length == SIZE && drawn.Length == SIZE && textbuf != drawn
      modifies this, textbuf, drawn
      ensures Valid() && Shown() && page == CLEARED
    {
      idx := 0;
      page := CLEARED;
      for i := 0 to SIZE
        invariant forall k :: 0 <= k < i ==> textbuf[k] == '\0'
        invariant idx == 0 && page == CLEARED
      {
        textbuf[i] := '\0';
      }
      RowsAre(textbuf[..], "", 0);
      KFlush();
    }

    method KFlush()
      requires textbuf.Length == SIZE && drawn.Length == SIZE && textbuf != drawn
      modifies drawn
      ensures Shown()
    {
      for i := 0 to SIZE
        invariant forall k :: 0 <= k < i ==> drawn[k] == textbuf[k]
      {
        drawn[i] := textbuf[i];
      }
    }

    method KPrintC(c: char)
      requires Valid()
      modifies this, textbuf, drawn
      ensures Valid() && page == Printed(old(page), c)
      ensures if c == '\n' then Shown() else drawn[..] == old(drawn[..])
    {
      hide Rows;
      ghost var p := Typed(page.paper, c);
      RowsTyped(page, c);
      if c == '\n' {
        idx := idx + (WIDTH - idx % WIDTH);
      } else {
        textbuf[idx] := c;
        idx := idx + 1;
      }
      page := page.(paper := p);
      KScroll();
      if c == '\n' {
        KFlush();
      }
    }

    /** Copy every row to the one above, and clear the last. */
    method ShiftRows()
      requires textbuf.Length == SIZE
      modifies textbuf
      ensures textbuf[..] == old(textbuf[..])[WIDTH..] + Blank(WIDTH)
    {
      for i := 0 to LAST_ROW
        invariant forall k :: 0 <= k < i ==> textbuf[k] == old(textbuf[k + WIDTH])
        invariant forall k :: i <= k < SIZE ==> textbuf[k] == old(textbuf[k])
      {
        textbuf[i] := textbuf[i + WIDTH];
      }
      for i := LAST_ROW to SIZE
        invariant forall k :: 0 <= k < LAST_ROW ==> textbuf[k] == old(textbuf[k + WIDTH])
        invariant forall k :: LAST_ROW <= k < i ==> textbuf[k] == '\0'
      {
        textbuf[i] := '\0';
      }
    }

    /** When the cursor has left the last row, the rows move up by one and the cursor starts the last row again. */
    method KScroll()
      requires textbuf.Length == SIZE && drawn.Length == SIZE && textbuf != drawn
      requires 0 <= page.Cursor() <= SIZE && idx == page.Cursor()
      requires textbuf[..] == Rows(page.paper, page.top)
      modifies this, textbuf
      ensures Valid()
      ensures page == old(page).(top := if old(page).Cursor() < SIZE then old(page).top else old(page).top + 1)
    {
      if idx < SIZE {
        return;
      }
      hide Rows;
      ShiftRows();
      RowsScrolled(page);
      idx := LAST_ROW;
      page := page.(top := page.top + 1);
    }

    /** Prints a C string: the characters before its first zero. */
    method KPrint(s: seq<char>) returns (ghost n: nat)
      requires Valid() && '\0' in s
      modifies this, textbuf, drawn
      ensures n < |s| && s[n] == '\0' && '\0' !in s[..n]
      ensures Valid() && page == PrintedAll(old(page), s[..n])
    {
      PrintedStep(page, s, 0);
      hide PrintedAll, Printed, Rows;
      var i := 0;
      while s[i] != '\0'
        invariant i < |s| && '\0' !in s[..i]
        invariant Valid() && page == PrintedAll(old(page), s[..i])
        decreases |s| - i
      {
        PrintedStep(old(page), s, i);
        KPrintC(s[i]);
        i := i + 1;
      }
      n := i;
    }

    /** Steps back one cell and clears it. */
    method Rub()
      requires Valid() && idx > 0
      modifies this, textbuf
      ensures Valid() && page == old(page).(paper := old(page).paper[..|old(page).paper| - 1])
    {
      assert forall k: nat :: k < SIZE ==> textbuf[..][k] == Cell(page.paper, WIDTH * page.top + k);
      idx := idx - 1;
      textbuf[idx] := '\0';
      page := page.(paper := page.paper[..|page.paper| - 1]);
      RowsAre(textbuf[..], page.paper, page.top);
    }

    /** One key before the line is finished. `outside` says that the next store is out of bounds. */
    method KeyIn(buf: array<char>, sc: nat, nch: nat, sh: bool) returns (n: nat, s: bool, c: char, outside: bool)
      requires Valid() && buf != textbuf && buf != drawn
      modifies this, textbuf, drawn, buf
      ensures Valid() && (old(Shown()) ==> Shown())
      ensures c == KeyChar(sc, sh)
      ensures c == '\n' ==> !outside && n == nch && s == sh && page == old(page) && buf[..] == old(buf[..])
      ensures c != '\n' ==> Press(Desk(old(page), old(buf[..]), nch, sh, false, false), sc) == Desk(page, buf[..], n, s, false, outside)
    {
      hide Printed, Rows, KEYS, KeyChar;
      SpecialKeys();
      c := KeyChar(sc, sh);
      n, s, outside := nch, sh, false;
      if sc == SHIFT_DOWN {
        s := true;
      } else if sc == SHIFT_UP {
        s := false;
      }
      if sc == BACKSPACE {
        if n > 0 {
          if n > buf.Length || idx == 0 {
            return n, s, c, true;
          }
          n := n - 1;
          buf[n] := '\0';
          Rub();
          KFlush();
        }
      } else if c != '\0' && c != '\n' && sc != SHIFT_DOWN && sc != SHIFT_UP {
        if n < buf.Length - 1 {
          buf[n] := c;
        }
        KPrintC(c);
        KFlush();
        n := n + 1;
      }
    }

    /** Reads a line: one scancode at a time until Enter, or until the input or the storage runs out. */
    method KGets(buf: array<char>, codes: seq<nat>) returns (end: End)
      requires Valid() && buf != textbuf && buf != drawn
      modifies this, textbuf, drawn, buf
      ensures Valid()
      ensures var d := Pressed(Sit(old(page), old(buf[..])), codes);
              && page == d.page && buf[..] == d.buf
              && end == (if d.lost then Outside else if d.done then Entered else Waiting)
      ensures end == Entered || old(Shown()) ==> Shown()
    {
      hide Printed, Rows, KEYS, KeyChar, Press;
      var nch: nat, sh, c := 0, false, '\0';
      var i := 0;
      ghost var sit := Sit(page, buf[..]);
      while c != '\n'
        invariant i <= |codes| && Valid()
        invariant old(Shown()) ==> Shown()
        invariant c != '\n' ==> Pressed(sit, codes[..i]) == Desk(page, buf[..], nch, sh, false, false)
        invariant c == '\n' ==> 0 < i && KeyChar(codes[i - 1], sh) == '\n' && Pressed(sit, codes[..i - 1]) == Desk(page, buf[..], nch, sh, false, false)
        decreases |codes| - i
      {
        if i == |codes| {
          assert codes[..i] == codes;
          return Waiting;
        }
        var outside;
        PressedStep(sit, codes, i);
        nch, sh, c, outside := KeyIn(buf, codes[i], nch, sh);
        i := i + 1;
        if outside {
          StaysStopped(sit, codes, i);
          return Outside;
        }
      }
      PressedStep(sit, codes, i - 1);
      EnterPressed(Pressed(sit, codes[..i - 1]), codes[i - 1]);
      StaysStopped(sit, codes, i);
      if nch >= buf.Length {
        return Outside;
      }
      buf[nch] := '\0';
      KPrintC('\n');
      return Entered;
    }
  }
}
