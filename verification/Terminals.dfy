/** Escape sequences: UpdateColor, and a terminal that reads what it emits (ECMA-48, section 8.3.117,
    Select Graphic Rendition; the last setting of an attribute wins). */
module Terminals {
  import opened Wrappers
  import opened Docs
  import opened Layouts

  const ESC: char := 27 as char

  type Code = n: nat | n < 100

  function ColorCode(c: Color): (r: Code)
    ensures r < 40
  {
    match c
    case Black => 30
    case Red => 31
    case Green => 32
    case Yellow => 33
    case Blue => 34
    case Magenta => 35
    case Cyan => 36
    case White => 37
    case Reset => 39
  }

  function IntensityCode(i: Intensity): Code {
    match i
    case NormalIntensity => 22
    case Dim => 2
    case Bright => 1
  }

  function Digit(n: nat): char
    requires n < 10
  {
    (48 + n) as char
  }

  function Decimal(n: Code): string {
    if n < 10 then [Digit(n)] else [Digit(n / 10), Digit(n % 10)]
  }

  /** The codes that UpdateColor pushes: one for every attribute that changes. */
  function Codes(state: ColorState, update: ColorState): seq<Code> {
    (if state.foreground != update.foreground then [ColorCode(update.foreground)] else [])
    + (if state.background != update.background then [ColorCode(update.background) + 10] else [])
    + (if state.intensity != update.intensity then [IntensityCode(update.intensity)] else [])
  }

  /** StrJoin(codes, ";") */
  function JoinCodes(codes: seq<Code>): string {
    if codes == [] then ""
    else if |codes| == 1 then Decimal(codes[0])
    else Decimal(codes[0]) + [';'] + JoinCodes(codes[1..])
  }

  /** UpdateColor: what it appends. The tracked colour afterwards is `update` if one is tracked. */
  function UpdateColor(state: Option<ColorState>, update: ColorState): string {
    if state.None? || state.value == update then ""
    else [ESC, '['] + (JoinCodes(Codes(state.value, update)) + ['m'])
  }

  function Tracked(state: Option<ColorState>, update: ColorState): Option<ColorState> {
    if state.None? then None else Some(update)
  }

  // ---------- the terminal ----------

  datatype Cell = Cell(c: char, color: ColorState)

  datatype Mode = Printing | Escaped | Parameter(n: nat)

  datatype Terminal = Terminal(mode: Mode, color: ColorState, cells: seq<Cell>)

  function ColorOf(n: nat): Color
    requires n < 8
  {
    [Black, Red, Green, Yellow, Blue, Magenta, Cyan, White][n]
  }

  /** The effect of one parameter of SGR. */
  function Select(c: ColorState, n: nat): ColorState {
    if n == 0 then DefaultColors
    else if n == 1 then c.(intensity := Bright)
    else if n == 2 then c.(intensity := Dim)
    else if n == 22 then c.(intensity := NormalIntensity)
    else if 30 <= n < 38 then c.(foreground := ColorOf(n - 30))
    else if n == 39 then c.(foreground := Reset)
    else if 40 <= n < 48 then c.(background := ColorOf(n - 40))
    else if n == 49 then c.(background := Reset)
    else c
  }

  function Read(t: Terminal, c: char): Terminal {
    match t.mode
    case Printing => if c == ESC then t.(mode := Escaped) else t.(cells := t.cells + [Cell(c, t.color)])
    case Escaped => t.(mode := if c == '[' then Parameter(0) else Printing)
    case Parameter(n) =>
      if '0' <= c <= '9' then t.(mode := Parameter(10 * n + (c as nat - 48)))
      else if c == ';' then t.(mode := Parameter(0), color := Select(t.color, n))
      else if c == 'm' then t.(mode := Printing, color := Select(t.color, n))
      else t.(mode := Printing)
  }

  function ReadAll(t: Terminal, s: string): Terminal
    decreases s
  {
    if s == "" then t else ReadAll(Read(t, s[0]), s[1..])
  }

  lemma {:induction false} ReadAppend(t: Terminal, a: string, b: string)
    ensures ReadAll(t, a + b) == ReadAll(ReadAll(t, a), b)
    decreases a
  {
    if a == "" {
      assert a + b == b;
    } else {
      assert (a + b)[1..] == a[1..] + b;
      ReadAppend(Read(t, a[0]), a[1..], b);
    }
  }

  function SelectAll(c: ColorState, codes: seq<Code>): ColorState
    decreases codes
  {
    if codes == [] then c else SelectAll(Select(c, codes[0]), codes[1..])
  }

  lemma ReadDecimal(t: Terminal, n: Code)
    requires t.mode == Parameter(0)
    ensures ReadAll(t, Decimal(n)) == t.(mode := Parameter(n))
  {
    if n < 10 {
      assert Decimal(n)[1..] == "";
    } else {
      var d := Decimal(n);
      assert d[1..] == [d[1]];
      var t1 := Read(t, d[0]);
      assert t1 == t.(mode := Parameter(n / 10));
      ReadOne(t1, d[1]);
    }
  }

  lemma ReadOne(t: Terminal, c: char)
    ensures ReadAll(t, [c]) == Read(t, c)
  {
  }

  lemma {:induction false} ReadCodes(t: Terminal, codes: seq<Code>)
    requires t.mode == Parameter(0) && codes != []
    ensures ReadAll(t, JoinCodes(codes) + ['m']) == t.(mode := Printing, color := SelectAll(t.color, codes))
    decreases codes
  {
    hide Decimal;
    var first := Decimal(codes[0]);
    ReadDecimal(t, codes[0]);
    var t1 := t.(mode := Parameter(codes[0]));
    if |codes| == 1 {
      ReadAppend(t, first, ['m']);
      ReadOne(t1, 'm');
      assert codes[1..] == [];
    } else {
      var rest := JoinCodes(codes[1..]) + ['m'];
      assert JoinCodes(codes) + ['m'] == first + ([';'] + rest);
      ReadAppend(t, first, [';'] + rest);
      ReadAppend(t1, [';'], rest);
      ReadOne(t1, ';');
      ReadCodes(Read(t1, ';'), codes[1..]);
    }
  }

  lemma SelectColor(c: ColorState, color: Color)
    ensures Select(c, ColorCode(color)) == c.(foreground := color)
    ensures Select(c, ColorCode(color) + 10) == c.(background := color)
  {
  }

  lemma SelectIntensity(c: ColorState, i: Intensity)
    ensures Select(c, IntensityCode(i)) == c.(intensity := i)
  {
  }

  lemma {:induction false} SelectAppend(c: ColorState, a: seq<Code>, b: seq<Code>)
    ensures SelectAll(c, a + b) == SelectAll(SelectAll(c, a), b)
    decreases a
  {
    if a == [] {
      assert a + b == b;
    } else {
      assert (a + b)[1..] == a[1..] + b;
      SelectAppend(Select(c, a[0]), a[1..], b);
    }
  }

  /** The codes take the terminal from the one colour to the other. */
  lemma CodesSelect(state: ColorState, update: ColorState)
    ensures SelectAll(state, Codes(state, update)) == update
  {
    var fg := if state.foreground != update.foreground then [ColorCode(update.foreground)] else [];
    var bg := if state.background != update.background then [ColorCode(update.background) + 10] else [];
    var i := if state.intensity != update.intensity then [IntensityCode(update.intensity)] else [];
    SelectAppend(state, fg + bg, i);
    SelectAppend(state, fg, bg);
    SelectColor(state, update.foreground);
    var c1 := state.(foreground := update.foreground);
    SelectColor(c1, update.background);
    SelectIntensity(c1.(background := update.background), update.intensity);
    SelectOne(state, ColorCode(update.foreground));
    SelectOne(c1, ColorCode(update.background) + 10);
    SelectOne(c1.(background := update.background), IntensityCode(update.intensity));
  }

  lemma SelectOne(c: ColorState, n: Code)
    ensures SelectAll(c, [n]) == Select(c, n)
  {
  }

  /** UpdateColor keeps the tracked colour equal to that of the terminal, and prints nothing. */
  lemma UpdateTerminal(state: ColorState, update: ColorState, cells: seq<Cell>)
    ensures ReadAll(Terminal(Printing, state, cells), UpdateColor(Some(state), update))
            == Terminal(Printing, update, cells)
  {
    if state != update {
      var t := Terminal(Printing, state, cells);
      var codes := Codes(state, update);
      var rest := JoinCodes(codes) + ['m'];
      ReadAppend(t, [ESC, '['], rest);
      assert [ESC, '['][1..] == ['['];
      ReadOne(Read(t, ESC), '[');
      assert ReadAll(t, [ESC, '[']) == t.(mode := Parameter(0));
      ReadCodes(t.(mode := Parameter(0)), codes);
      CodesSelect(state, update);
    }
  }

  function Cells(s: string, color: ColorState): (r: seq<Cell>)
    ensures |r| == |s| && forall i :: 0 <= i < |s| ==> r[i] == Cell(s[i], color)
  {
    seq(|s|, i requires 0 <= i < |s| => Cell(s[i], color))
  }

  predicate NoEscape(s: string) {
    ESC !in s
  }

  /** Text without escape characters shows in the current colour. */
  lemma {:induction false} ReadText(t: Terminal, s: string)
    requires t.mode.Printing? && NoEscape(s)
    ensures ReadAll(t, s) == t.(cells := t.cells + Cells(s, t.color))
    decreases s
  {
    if s == "" {
      assert t.cells + Cells(s, t.color) == t.cells;
    } else {
      ReadText(Read(t, s[0]), s[1..]);
      assert (t.cells + [Cell(s[0], t.color)]) + Cells(s[1..], t.color) == t.cells + Cells(s, t.color);
    }
  }
}
