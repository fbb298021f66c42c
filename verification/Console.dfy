/** src/screen/monitor.c: the 80x25 text screen as the bottom of a terminal that never forgets a line. */
module Console {
  const COLS := 80
  const ROWS := 25
  const CELLS := 2000

  /** A signed char, and one character cell of the screen. */
  type Char = c: int | -128 <= c < 128
  type Row = r: seq<int> | |r| == COLS witness seq(COLS, _ => 0)

  const BACKSPACE: Char := 8
  const TAB: Char := 9
  const NEWLINE: Char := 10
  const RETURN: Char := 13
  const SPACE: Char := 32

  const BACKGROUND := 3

  /** get_attribute_byte, in the high byte of a cell. */
  function Attribute(foreground: int): int {
    0x100 * (16 * BACKGROUND + foreground % 16)
  }

  function Blank(attribute: int): int {
    0x20 + attribute
  }

  function BlankRow(attribute: int): Row {
    seq(COLS, _ => Blank(attribute))
  }

  // ---------------------------------------------------------------- the terminal

  /** Every line ever started, and the cursor. */
  datatype Terminal = Terminal(rows: seq<Row>, row: nat, col: nat) {
    ghost predicate Valid() {
      |rows| >= ROWS && |rows| - ROWS <= row < |rows| && col < COLS
    }

    /** The first row on the screen. */
    function Top(): int {
      |rows| - ROWS
    }
  }

  function Cleared(attribute: int): (t: Terminal)
    ensures t.Valid()
  {
    Terminal(seq(ROWS, _ => BlankRow(attribute)), 0, 0)
  }

  function SetCell(t: Terminal, col: int, cell: int): Terminal
    requires t.row < |t.rows| && 0 <= col < COLS
  {
    t.(rows := t.rows[t.row := t.rows[t.row][col := cell]])
  }

  /** A character moves the cursor, which may now stand behind the end of its line. */
  function Typed(t: Terminal, c: Char, attribute: int): Terminal
    requires t.row < |t.rows| && t.col < COLS
  {
    if c == BACKSPACE && t.col > 0 then SetCell(t, t.col - 1, Blank(attribute)).(col := t.col - 1)
    else if c == TAB then t.(col := (t.col + 8) / 8 * 8)
    else if c == NEWLINE || c == RETURN then t.(row := t.row + 1, col := 0)
    else if c >= SPACE then SetCell(t, t.col, c + attribute).(col := t.col + 1)
    else t
  }

  /** At the end of a line the cursor goes on to the next, and a line that is not there yet is started blank. */
  function Wrapped(t: Terminal, attribute: int): Terminal {
    var t1 := if t.col >= COLS then t.(row := t.row + 1, col := 0) else t;
    if t1.row >= |t1.rows| then t1.(rows := t1.rows + [BlankRow(attribute)]) else t1
  }

  function Put(t: Terminal, c: Char, attribute: int): (t': Terminal)
    requires t.Valid()
    ensures t'.Valid()
  {
    Wrapped(Typed(t, c, attribute), attribute)
  }

  function Write(t: Terminal, s: seq<Char>, attribute: int): (t': Terminal)
    requires t.Valid()
    ensures t'.Valid()
  {
    if s == [] then t else Put(Write(t, s[..|s| - 1], attribute), s[|s| - 1], attribute)
  }

  /** Lines that have left the screen never change, and at most one line is added at a time. */
  lemma PutKeepsHistory(t: Terminal, c: Char, attribute: int)
    requires t.Valid()
    ensures var t' := Put(t, c, attribute);
            && |t.rows| <= |t'.rows| <= |t.rows| + 1
            && forall r :: 0 <= r < |t.rows| && r != t.row ==> t'.rows[r] == t.rows[r]
  {
  }

  lemma {:induction false} WriteKeepsHistory(t: Terminal, s: seq<Char>, attribute: int)
    requires t.Valid()
    ensures var t' := Write(t, s, attribute);
            && |t.rows| <= |t'.rows| && t.row - 1 < |t'.rows|
            && forall r :: 0 <= r < t.Top() ==> t'.rows[r] == t.rows[r]
  {
    if s != [] {
      var t1 := Write(t, s[..|s| - 1], attribute);
      WriteKeepsHistory(t, s[..|s| - 1], attribute);
      PutKeepsHistory(t1, s[|s| - 1], attribute);
    }
  }

  // ---------------------------------------------------------------- the screen

  /** What belongs in place `k` of the framebuffer: line k / 80 of the last 25, column k % 80. */
  function CellAt(t: Terminal, k: int): int
    requires |t.rows| >= ROWS && 0 <= k < CELLS
  {
    t.rows[t.Top() + k / COLS][k % COLS]
  }

  /** The framebuffer shows the last 25 lines. */
  ghost predicate Shows(video: seq<int>, t: Terminal)
    requires |t.rows| >= ROWS
  {
    |video| == CELLS && forall k :: 0 <= k < CELLS ==> video[k] == CellAt(t, k)
  }

  /** Every line moves up by one, and the last one is blank. */
  ghost predicate Scrolled(was: seq<int>, now: seq<int>, blank: int) {
    && |was| == |now| == CELLS
    && (forall k :: 0 <= k < 24 * 80 ==> now[k] == was[k + 80])
    && (forall k :: 24 * 80 <= k < CELLS ==> now[k] == blank)
  }

  /** The cursor has gone from row `y` to the next, and below the last one the screen has scrolled. */
  ghost predicate OnNextLine(was: seq<int>, y: int, now: seq<int>, y': int, blank: int) {
    if y < 24 then y' == y + 1 && now == was else y' == 24 && Scrolled(was, now, blank)
  }

  lemma AttributeBits(foreground: int)
    ensures Attribute(foreground) == 0x3000 + 0x100 * (foreground % 16)
    ensures Blank(Attribute(foreground)) == 0x3020 + 0x100 * (foreground % 16)
  {
  }

  lemma TypedInside(t: Terminal, c: Char, attribute: int)
    requires t.Valid()
    ensures var t' := Typed(t, c, attribute);
            && |t'.rows| == |t.rows| && t'.col <= COLS && t.row <= t'.row <= t.row + 1 && (t'.row > t.row ==> t'.col == 0)
  {
  }

  lemma ScrolledCells(was: seq<int>, now: seq<int>, t: Terminal, attribute: int)
    requires |t.rows| >= ROWS && t.row == |t.rows| && t.col < COLS && Shows(was, t) && |now| == CELLS
    requires forall k :: 0 <= k < 24 * 80 ==> now[k] == was[k + 80]
    requires forall k :: 24 * 80 <= k < CELLS ==> now[k] == Blank(attribute)
    ensures Shows(now, Wrapped(t, attribute))
  {
  }

  lemma CellWritten(was: seq<int>, now: seq<int>, t: Terminal, col: int, cell: int)
    requires t.Valid() && Shows(was, t) && 0 <= col < COLS
    requires now == was[(t.row - t.Top()) * 80 + col := cell]
    ensures Shows(now, SetCell(t, col, cell))
  {
  }

  /** Moving the cursor shows on the screen nowhere else. */
  lemma CursorMoves(video: seq<int>, t: Terminal, t': Terminal)
    requires |t.rows| >= ROWS && Shows(video, t) && t'.rows == t.rows
    ensures Shows(video, t')
  {
  }

  lemma TypedShows(now: seq<int>, was: seq<int>, t: Terminal, c: Char, attribute: int)
    requires t.Valid() && Shows(was, t)
    requires if c == BACKSPACE && t.col > 0 then Shows(now, SetCell(t, t.col - 1, Blank(attribute)))
             else if c != TAB && c != NEWLINE && c != RETURN && c >= SPACE then Shows(now, SetCell(t, t.col, c + attribute))
             else now == was
    ensures Shows(now, Typed(t, c, attribute))
  {
  }

  lemma WrappedTwice(t: Terminal, t': Terminal, attribute: int)
    requires t' == if t.col >= COLS then t.(row := t.row + 1, col := 0) else t
    ensures Wrapped(t', attribute) == Wrapped(t, attribute)
  {
  }

  /** Position of the first zero. */
  function Terminator(s: seq<Char>): (n: nat)
    requires 0 in s
    ensures n < |s| && s[n] == 0 && 0 !in s[..n]
  {
    if s[0] == 0 then 0 else assert s == [s[0]] + s[1..]; 1 + Terminator(s[1..])
  }

  class Monitor {
    const video: array<int>
    var x: int
    var y: int
    var foreground: int
    ghost var term: Terminal

    ghost predicate Valid()
      reads this, video
    {
      && video.Length == CELLS && term.Valid() && Shows(video[..], term)
      && x == term.col && y == term.row - term.Top()
    }

    constructor ()
      ensures Valid() && fresh(video) && foreground == 15 && term == Cleared(Attribute(15))
    {
      video := new int[CELLS](_ => Blank(Attribute(15)));
      x, y, foreground := 0, 0, 15;
      term := Cleared(Attribute(15));
    }

    method Clear()
      requires Valid()
      modifies this`x, this`y, this`term, video
      ensures Valid() && term == Cleared(Attribute(foreground)) && x == y == 0
    {
      var blank := Blank(Attribute(foreground));
      var i := 0;
      while i < COLS * ROWS
        invariant 0 <= i <= CELLS && forall k :: 0 <= k < i ==> video[k] == blank
      {
        video[i] := blank;
        i := i + 1;
      }
      x, y := 0, 0;
      term := Cleared(Attribute(foreground));
    }

    /** scroll, when the cursor has run off the bottom: `t` is what the terminal shows by then. */
    method Scroll(ghost t: Terminal)
      requires video.Length == CELLS && |t.rows| >= ROWS && t.Top() <= t.row <= |t.rows| && t.col < COLS
      requires Shows(video[..], t)
      requires x == t.col && y == t.row - t.Top()
      modifies this`y, this`term, video
      ensures Valid() && term == Wrapped(t, Attribute(foreground))
      ensures if old(y) < 25 then y == old(y) && video[..] == old(video[..])
              else y == 24 && Scrolled(old(video[..]), video[..], Blank(Attribute(foreground)))
    {
      var blank := Blank(Attribute(foreground));
      if y >= 25 {
        var i := 0;
        while i < 24 * 80
          invariant 0 <= i <= 24 * 80
          invariant forall k :: 0 <= k < i ==> video[k] == old(video[k + 80])
          invariant forall k :: i <= k < CELLS ==> video[k] == old(video[k])
        {
          video[i] := video[i + 80];
          i := i + 1;
        }
        while i < 25 * 80
          invariant 24 * 80 <= i <= 25 * 80
          invariant forall k :: 0 <= k < 24 * 80 ==> video[k] == old(video[k + 80])
          invariant forall k :: 24 * 80 <= k < i ==> video[k] == blank
        {
          video[i] := blank;
          i := i + 1;
        }
        y := 24;
        ScrolledCells(old(video[..]), video[..], t, Attribute(foreground));
      }
      term := Wrapped(t, Attribute(foreground));
    }

    /** monitor_put, without the hardware cursor. */
    method PutChar(c: Char)
      requires Valid()
      modifies this`x, this`y, this`term, video
      ensures Valid() && term == Put(old(term), c, Attribute(foreground))
      ensures 0 <= x < COLS && 0 <= y < ROWS
      // the same on the cursor and the cells, character by character
      ensures c == 8 && old(x) > 0 ==>
                x == old(x) - 1 && y == old(y) && video[..] == old(video[..])[80 * y + x := 0x3020 + 0x100 * (foreground % 16)]
      ensures c == 9 ==>
                var to := old(x) - old(x) % 8 + 8;
                if to < 80 then x == to && y == old(y) && video[..] == old(video[..])
                else x == 0 && OnNextLine(old(video[..]), old(y), video[..], y, 0x3020 + 0x100 * (foreground % 16))
      ensures c == 10 || c == 13 ==>
                x == 0 && OnNextLine(old(video[..]), old(y), video[..], y, 0x3020 + 0x100 * (foreground % 16))
      ensures c >= 32 ==>
                var cells := old(video[..])[80 * old(y) + old(x) := c as int + 0x3000 + 0x100 * (foreground % 16)];
                if old(x) < 79 then x == old(x) + 1 && y == old(y) && video[..] == cells
                else x == 0 && OnNextLine(cells, old(y), video[..], y, 0x3020 + 0x100 * (foreground % 16))
      ensures (c == 8 && old(x) == 0) || (c < 32 && c != 8 && c != 9 && c != 10 && c != 13) ==>
                x == old(x) && y == old(y) && video[..] == old(video[..])
    {
      hide Shows, Attribute, Wrapped, Typed, Scrolled;
      AttributeBits(foreground);
      TypedInside(term, c, Attribute(foreground));
      var attribute := Attribute(foreground);
      Type(c, attribute);
      ghost var t := Typed(term, c, attribute);
      if x >= 80 {
        x, y := 0, y + 1;
        CursorMoves(video[..], t, t.(row := t.row + 1, col := 0));
        t := t.(row := t.row + 1, col := 0);
      }
      Scroll(t);
      WrappedTwice(Typed(old(term), c, attribute), t, attribute);
    }

    /** Lines 70-91. */
    method Type(c: Char, attribute: int)
      requires Valid()
      modifies this`x, this`y, video
      ensures var t := Typed(term, c, attribute);
              && Shows(video[..], t) && x == t.col && y == t.row - t.Top()
      ensures if c == 8 && old(x) > 0 then
                x == old(x) - 1 && y == old(y) && video[..] == old(video[..])[80 * y + x := 0x20 + attribute]
              else if c == 9 then x == old(x) - old(x) % 8 + 8 && y == old(y) && video[..] == old(video[..])
              else if c == 10 || c == 13 then x == 0 && y == old(y) + 1 && video[..] == old(video[..])
              else if c >= 32 then
                x == old(x) + 1 && y == old(y) && video[..] == old(video[..])[80 * y + old(x) := c as int + attribute]
              else x == old(x) && y == old(y) && video[..] == old(video[..])
    {
      hide Shows;
      if c == BACKSPACE && x != 0 {
        x := x - 1;
        video[y * 80 + x] := Blank(attribute);
        CellWritten(old(video[..]), video[..], term, x, Blank(attribute));
      } else if c == TAB {
        x := (x + 8) / 8 * 8;
      } else if c == NEWLINE || c == RETURN {
        x, y := 0, y + 1;
      } else if c >= SPACE {
        video[y * 80 + x] := c + attribute;
        CellWritten(old(video[..]), video[..], term, x, c + attribute);
        x := x + 1;
      }
      TypedShows(video[..], old(video[..]), term, c, attribute);
    }

    /** monitor_write: everything before the first zero. */
    method WriteString(s: seq<Char>)
      requires Valid() && 0 in s
      modifies this`x, this`y, this`term, video
      ensures Valid() && term == Write(old(term), s[..Terminator(s)], Attribute(foreground))
    {
      hide Shows, Attribute;
      var i := 0;
      while s[i] != 0
        invariant 0 <= i <= Terminator(s) < |s|
        invariant Valid() && term == Write(old(term), s[..i], Attribute(foreground))
        decreases Terminator(s) - i
      {
        PutChar(s[i]);
        assert s[..i + 1][..i] == s[..i];
        i := i + 1;
      }
    }

    /** monitor_write_color: the colour applies to this string only. */
    method WriteColor(s: seq<Char>, color: int)
      requires Valid() && 0 in s
      modifies this, video
      ensures Valid() && foreground == old(foreground)
      ensures term == Write(old(term), s[..Terminator(s)], Attribute(color))
    {
      var temp := foreground;
      foreground := color;
      WriteString(s);
      foreground := temp;
    }

    /** monitor_write_hex. */
    method WriteHex(n: int) returns (ghost digits: seq<Char>)
      requires Valid() && 0 <= n < 0x1_0000_0000
      modifies this`x, this`y, this`term, video
      ensures Valid() && term == Write(old(term), HEX_PREFIX + digits, Attribute(foreground))
      ensures IsHex(digits) && NoLeadingZero(digits) && Parse(digits, 16) == n
    {
      hide Shows, Attribute, Put, Write, Terminal.Valid;
      WriteString(HEX_PREFIX + [0]);
      PrefixEnd();
      digits := [];
      var noZeroes := true;
      var k := 7;
      ShiftedOut(n);
      while k > 0
        invariant 0 <= k <= 7
        invariant Valid() && term == Write(old(term), HEX_PREFIX + digits, Attribute(foreground))
        invariant IsHex(digits) && (digits != [] ==> digits[0] != '0' as int) && noZeroes == (digits == [])
        invariant Parse(digits, 16) == Shifted(n, k + 1)
      {
        var tmp := Shifted(n, k) % 16;
        if !(tmp == 0 && noZeroes) {
          noZeroes := false;
          digits := PutHexDigit(tmp, old(term), digits);
        }
        k := k - 1;
      }
      digits := PutHexDigit(n % 16, old(term), digits);
    }

    /** Lines 161-167 and 170-175. */
    method PutHexDigit(d: int, ghost start: Terminal, ghost digits: seq<Char>) returns (ghost digits': seq<Char>)
      requires Valid() && 0 <= d < 16 && start.Valid() && IsHex(digits)
      requires term == Write(start, HEX_PREFIX + digits, Attribute(foreground))
      modifies this`x, this`y, this`term, video
      ensures Valid() && term == Write(start, HEX_PREFIX + digits', Attribute(foreground))
      ensures digits' == digits + [HexDigit(d)] && IsHex(digits') && Parse(digits', 16) == 16 * Parse(digits, 16) + d
    {
      hide Shows, Attribute, Put, Write, Parse, Terminal.Valid;
      PutChar(HexDigit(d));
      Appended(start, HEX_PREFIX, digits, HexDigit(d), Attribute(foreground));
      digits' := digits + [HexDigit(d)];
    }

    /**
     * monitor_write_dec.  The argument is unsigned but counted down in a signed variable: from 2^31 on
     * that is negative and nothing at all is written.
     */
    method WriteDec(n: int) returns (ghost digits: seq<Char>)
      requires Valid() && 0 <= n < 0x1_0000_0000
      modifies this`x, this`y, this`term, video
      ensures Valid() && term == Write(old(term), digits, Attribute(foreground))
      ensures IsDec(digits) && |digits| <= 10
      ensures n < 0x8000_0000 ==> NoLeadingZero(digits) && Parse(digits, 10) == n
      ensures n >= 0x8000_0000 ==> digits == []
      ensures Parse(digits, 10) == n <==> n < 0x8000_0000
    {
      hide Shows, Attribute, Put;
      if n == 0 {
        PutChar('0' as int);
        digits := ['0' as int];
        Appended(old(term), [], [], '0' as int, Attribute(foreground));
        return;
      }
      var c := DecDigits(if n < 0x8000_0000 then n else n - 0x1_0000_0000);
      WriteString(c);
      digits := c[..Terminator(c)];
      StringEnd(c);
    }
  }

  // ---------------------------------------------------------------- numbers

  const HEX_PREFIX: seq<Char> := ['0' as int, 'x' as int]

  function HexDigit(d: int): Char
    requires 0 <= d < 16
  {
    if d >= 10 then d - 10 + 'a' as int else d + '0' as int
  }

  /** The sixteen characters, and what they stand for. */
  lemma HexCharacters(d: int)
    requires 0 <= d < 16
    ensures HexDigit(d) == "0123456789abcdef"[d] as int && Value(HexDigit(d)) == d
    ensures forall c: Char :: '0' as int <= c <= '9' as int ==> Value(c) == c as int - 48
  {
  }

  function Value(c: Char): int {
    if c >= 'a' as int then c - 'a' as int + 10 else c - '0' as int
  }

  /** The number a string of digits stands for. */
  function Parse(s: seq<Char>, base: int): int {
    if s == [] then 0 else base * Parse(s[..|s| - 1], base) + Value(s[|s| - 1])
  }

  predicate IsHex(s: seq<Char>) {
    forall i :: 0 <= i < |s| ==> '0' as int <= s[i] <= '9' as int || 'a' as int <= s[i] <= 'f' as int
  }

  predicate IsDec(s: seq<Char>) {
    forall i :: 0 <= i < |s| ==> '0' as int <= s[i] <= '9' as int
  }

  predicate NoLeadingZero(s: seq<Char>) {
    |s| > 0 && (|s| > 1 ==> s[0] != '0' as int)
  }

  /** n >> (4 * k) */
  function Shifted(n: int, k: nat): int {
    if k == 0 then n else Shifted(n, k - 1) / 16
  }

  lemma ShiftedOut(n: int)
    requires 0 <= n < 0x1_0000_0000
    ensures Shifted(n, 8) == 0
  {
    assert Shifted(n, 1) == n / 16 < 0x1000_0000;
    assert Shifted(n, 2) == Shifted(n, 1) / 16 < 0x100_0000;
    assert Shifted(n, 3) == Shifted(n, 2) / 16 < 0x10_0000;
    assert Shifted(n, 4) == Shifted(n, 3) / 16 < 0x1_0000;
    assert Shifted(n, 5) == Shifted(n, 4) / 16 < 0x1000;
    assert Shifted(n, 6) == Shifted(n, 5) / 16 < 0x100;
    assert Shifted(n, 7) == Shifted(n, 6) / 16 < 0x10;
  }

  lemma Appended(t: Terminal, prefix: seq<Char>, s: seq<Char>, c: Char, attribute: int)
    requires t.Valid()
    ensures Write(t, prefix + (s + [c]), attribute) == Put(Write(t, prefix + s, attribute), c, attribute)
    ensures Parse(s + [c], 16) == 16 * Parse(s, 16) + Value(c)
  {
    assert (prefix + (s + [c]))[..|prefix| + |s|] == prefix + s;
    assert (s + [c])[..|s|] == s;
  }

  lemma PrefixEnd()
    ensures (HEX_PREFIX + [0])[..Terminator(HEX_PREFIX + [0])] == HEX_PREFIX + []
  {
  }

  lemma StringEnd(c: seq<Char>)
    requires |c| > 0 && c[|c| - 1] == 0 && IsDec(c[..|c| - 1])
    ensures Terminator(c) == |c| - 1
  {
    hide IsDec;
    var n := Terminator(c);
    if n < |c| - 1 {
      DigitNotZero(c[..|c| - 1], n);
    }
  }

  lemma DigitNotZero(s: seq<Char>, k: nat)
    requires IsDec(s) && k < |s|
    ensures s[k] != 0
  {
  }

  /** Taking the digits of `s` back, last one first, onto the number `acc`. */
  function Unwind(s: seq<Char>, acc: int): int {
    if s == [] then acc else Unwind(s[..|s| - 1], 10 * acc + Value(s[|s| - 1]))
  }

  lemma UnwindStep(s: seq<Char>, acc: int)
    requires acc > 0
    ensures var d: Char := '0' as int + acc % 10; Unwind(s + [d], acc / 10) == Unwind(s, acc)
  {
  }

  /** Digits written backwards read forwards from the other end. */
  lemma {:induction false} Reversed(s: seq<Char>, r: seq<Char>, front: seq<Char>)
    requires |r| == |s| && forall k :: 0 <= k < |s| ==> r[k] == s[|s| - 1 - k]
    ensures Unwind(s, Parse(front, 10)) == Parse(front + r, 10)
    decreases |s|
  {
    if s == [] {
      assert front + r == front;
    } else {
      var d := s[|s| - 1];
      assert (front + [d])[..|front|] == front;
      Reversed(s[..|s| - 1], r[1..], front + [d]);
      assert front + [d] + r[1..] == front + r;
    }
  }

  /** The largest value left after `i` divisions by ten. */
  function Cap(i: nat): int {
    if i == 0 then 0x7FFF_FFFF else Cap(i - 1) / 10
  }

  lemma CapTen()
    ensures Cap(10) == 0
  {
  }

  /** `s` holds the last digits of `n`, last one first, and `acc` is what is left of it. */
  ghost predicate PartWritten(n: int, s: seq<Char>, acc: int) {
    && |s| <= 10 && IsDec(s) && acc <= Cap(|s|)
    && (if n > 0 then acc >= 0 && n == Unwind(s, acc) else acc == n && s == [])
    && (n > 0 && acc == 0 ==> s != [] && s[|s| - 1] != '0' as int)
  }

  lemma DigitWritten(n: int, s: seq<Char>, acc: int)
    requires PartWritten(n, s, acc) && acc > 0
    ensures |s| < 10 && PartWritten(n, s + ['0' as int + acc % 10], acc / 10)
  {
    hide Unwind;
    var d: Char := '0' as int + acc % 10;
    CapTen();
    assert Cap(|s| + 1) == Cap(|s|) / 10;
    UnwindStep(s, acc);
    assert forall k :: 0 <= k < |s| ==> (s + [d])[k] == s[k];
  }

  /** Lines 186-196: the digits of `n`, last one first, into a buffer of 32. */
  method Backwards(n: int) returns (c: array<Char>, len: int)
    requires n < 0x8000_0000 && n != 0
    ensures fresh(c) && c.Length == 32 && 0 <= len <= 10 && IsDec(c[..len])
    ensures n < 0 ==> len == 0
    ensures n > 0 ==> n == Unwind(c[..len], 0) && len > 0 && c[len - 1] != '0' as int
  {
    hide Unwind, Cap, IsDec, PartWritten;
    var acc := n;
    c := new Char[32](_ => 0);
    var i := 0;
    assert c[..i] == [];
    NothingWritten(n);
    while acc > 0
      invariant 0 <= i <= 10 && PartWritten(n, c[..i], acc)
    {
      ghost var was := c[..i];
      DigitWritten(n, was, acc);
      c[i] := '0' as int + acc % 10;
      assert c[..i + 1] == was + ['0' as int + acc % 10];
      acc := acc / 10;
      i := i + 1;
    }
    ghost var digits := c[..i];
    AllWritten(n, digits, acc);
    c[i] := 0;
    assert c[..i] == digits;
    len := i;
  }

  lemma NothingWritten(n: int)
    requires n < 0x8000_0000 && n != 0
    ensures PartWritten(n, [], n)
  {
  }

  lemma AllWritten(n: int, s: seq<Char>, acc: int)
    requires PartWritten(n, s, acc) && acc <= 0 && n != 0
    ensures IsDec(s) && |s| <= 10 && (n > 0 ==> n == Unwind(s, 0) && s != [] && s[|s| - 1] != '0' as int)
    ensures n < 0 ==> s == []
  {
  }

  /** Lines 198-204: the same digits forwards into a second buffer. */
  method DecDigits(n: int) returns (s: seq<Char>)
    requires n < 0x8000_0000 && n != 0
    ensures 0 < |s| <= 11 && s[|s| - 1] == 0 && IsDec(s[..|s| - 1])
    ensures n < 0 ==> s == [0]
    ensures n > 0 ==> NoLeadingZero(s[..|s| - 1]) && Parse(s[..|s| - 1], 10) == n
  {
    hide Unwind, Parse, IsDec;
    var c, i := Backwards(n);
    ghost var len, digits := i, c[..i];
    var c2 := new Char[32](_ => 0);
    c2[i] := 0;
    var k := i - 1;
    var j := 0;
    while k >= 0
      invariant -1 <= k < len && j == len - 1 - k && c2[len] == 0 && c[..len] == digits
      invariant forall l :: k < l < len ==> c2[l] == digits[len - 1 - l]
    {
      c2[k] := c[j];
      k, j := k - 1, j + 1;
    }
    s := c2[..j + 1];
    Forwards(digits, s[..len], n);
  }

  lemma Forwards(digits: seq<Char>, r: seq<Char>, n: int)
    requires |r| == |digits| && forall k :: 0 <= k < |r| ==> r[k] == digits[|r| - 1 - k]
    requires IsDec(digits)
    requires n > 0 ==> n == Unwind(digits, 0) && |r| > 0 && digits[|r| - 1] != '0' as int
    ensures IsDec(r) && (n > 0 ==> NoLeadingZero(r) && Parse(r, 10) == n)
  {
    Reversed(digits, r, []);
    assert [] + r == r;
  }
}
