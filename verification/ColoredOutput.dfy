/** What a terminal shows when it reads the coloured output of the pretty printer. */
module ColoredOutput {
  import opened Wrappers
  import opened Docs
  import opened Layouts
  import opened Terminals
  import opened Printer

  predicate PlainDoc(d: Doc)
    decreases d
  {
    match d
    case NilDoc => true
    case TextDoc(text, annotation) => NoEscape(text) && (annotation.Some? ==> NoEscape(annotation.value))
    case ConcatDoc(children) => PlainDocs(children)
    case BreakDoc(text) => NoEscape(text)
    case GroupDoc(child) => PlainDoc(child)
    case NestDoc(_, child) => PlainDoc(child)
    case ColorDoc(child, _, _, _) => PlainDoc(child)
  }

  /** No text or annotation contains an escape character. */
  predicate PlainDocs(ds: seq<Doc>)
    decreases ds
  {
    if ds == [] then true else PlainDoc(ds[0]) && PlainDocs(ds[1..])
  }

  ghost predicate PlainSpans(spans: seq<Span>) {
    forall x :: x in spans ==> NoEscape(x.text)
  }

  ghost predicate PlainNotes(annotations: seq<string>) {
    forall s :: s in annotations ==> NoEscape(s)
  }

  ghost predicate PlainLine(l: SpanLine) {
    PlainSpans(l.spans) && PlainNotes(l.annotations)
  }

  ghost predicate PlainOut(o: Out) {
    && PlainSpans(o.spans) && PlainNotes(o.annotations)
    && forall l :: l in o.lines ==> PlainLine(l)
  }

  lemma {:induction false} LayoutPlain(width: int, d: Doc, indent: nat, mode: BreakMode, color: ColorState, o: Out)
    requires PlainDoc(d) && PlainOut(o)
    ensures PlainOut(Layout(width, d, indent, mode, color, o))
    decreases d
  {
    match d
    case NilDoc =>
    case TextDoc(text, annotation) =>
    case ConcatDoc(children) => LayoutAllPlain(width, children, indent, mode, color, o);
    case BreakDoc(text) =>
      var r := Layout(width, d, indent, mode, color, o);
      if mode.Break? {
        assert PlainLine(SpanLine(o.spans, o.k, o.annotations));
      }
    case GroupDoc(child) =>
      LayoutPlain(width, child, indent, if FlatWidth(child) <= width - o.k then Flat else Break, color, o);
    case NestDoc(n, child) => LayoutPlain(width, child, indent + n, mode, color, o);
    case ColorDoc(child, fg, bg, i) => LayoutPlain(width, child, indent, mode, Recolor(color, fg, bg, i), o);
  }

  lemma {:induction false} LayoutAllPlain(width: int, ds: seq<Doc>, indent: nat, mode: BreakMode, color: ColorState,
                                          o: Out)
    requires PlainDocs(ds) && PlainOut(o)
    ensures PlainOut(LayoutAll(width, ds, indent, mode, color, o))
    decreases ds
  {
    if ds != [] {
      LayoutPlain(width, ds[0], indent, mode, color, o);
      LayoutAllPlain(width, ds[1..], indent, mode, color, Layout(width, ds[0], indent, mode, color, o));
    }
  }

  // ---------- what should be seen ----------

  /** Every leaf in its own colour; indentation in the colour that is set. */
  function SpanCells(c: ColorState, spans: seq<Span>): (seq<Cell>, ColorState)
    decreases spans
  {
    if spans == [] then ([], c)
    else
      var (cells, c1) := SpanCells(c, spans[..|spans| - 1]);
      var x := spans[|spans| - 1];
      var color := if x.Indent? then c1 else x.color;
      (cells + Cells(x.text, color), color)
  }

  /** A line with its margin: annotations are dim. */
  function LineCells(c: ColorState, l: SpanLine, maxWidth: nat, prefix: string): (seq<Cell>, ColorState)
    requires l.width <= maxWidth
  {
    var (cells, c1) := SpanCells(c, l.spans);
    if l.annotations == [] then (cells, c1)
    else (cells + Cells(Margin(Line("", l.width, l.annotations), maxWidth, prefix), AnnotationColors), AnnotationColors)
  }

  function LinesCells(c: ColorState, lines: seq<SpanLine>, maxWidth: nat, prefix: string): seq<Cell>
    requires forall l :: l in lines ==> l.width <= maxWidth
    decreases lines
  {
    if lines == [] then []
    else
      assert lines[0] in lines;
      var (cells, c1) := LineCells(c, lines[0], maxWidth, prefix);
      if |lines| == 1 then cells else cells + ([Cell('\n', c1)] + LinesCells(c1, lines[1..], maxWidth, prefix))
  }

  function Chars(cells: seq<Cell>): (r: string)
    ensures |r| == |cells| && forall i :: 0 <= i < |cells| ==> r[i] == cells[i].c
  {
    seq(|cells|, i requires 0 <= i < |cells| => cells[i].c)
  }

  // ---------- what is seen ----------

  /** Reading `s`, which leaves colour `c`, and then some text in another colour. */
  lemma ReadColored(t: Terminal, s: string, c: ColorState, cells: seq<Cell>, color: ColorState, text: string)
    requires ReadAll(t, s) == Terminal(Printing, c, cells) && NoEscape(text)
    ensures ReadAll(t, s + (UpdateColor(Some(c), color) + text))
            == Terminal(Printing, color, cells + Cells(text, color))
  {
    hide ReadAll, UpdateColor;
    var u := UpdateColor(Some(c), color);
    ReadAppend(t, s, u + text);
    ReadAppend(Terminal(Printing, c, cells), u, text);
    UpdateTerminal(c, color, cells);
    ReadText(Terminal(Printing, color, cells), text);
  }

  lemma {:induction false} ReadSpans(c: ColorState, spans: seq<Span>, cells: seq<Cell>)
    requires PlainSpans(spans)
    ensures var (s, c1) := PaintSpans(Some(c), spans);
            var (seen, c2) := SpanCells(c, spans);
            c1 == Some(c2) && ReadAll(Terminal(Printing, c, cells), s) == Terminal(Printing, c2, cells + seen)
    decreases spans
  {
    hide UpdateColor;
    var t := Terminal(Printing, c, cells);
    if spans == [] {
      assert cells + [] == cells && ReadAll(t, "") == t;
    } else {
      hide ReadAll;
      var x, rest := spans[|spans| - 1], spans[..|spans| - 1];
      assert x in spans;
      ReadSpans(c, rest, cells);
      var (s, c1) := PaintSpans(Some(c), rest);
      var (seen, c2) := SpanCells(c, rest);
      ConcatCells(cells, seen, Cells(x.text, if x.Indent? then c2 else x.color));
      if x.Indent? {
        ReadAppend(t, s, x.text);
        ReadText(Terminal(Printing, c2, cells + seen), x.text);
      } else {
        ReadColored(t, s, c2, cells + seen, x.color, x.text);
      }
    }
  }

  lemma ConcatCells(a: seq<Cell>, b: seq<Cell>, c: seq<Cell>)
    ensures (a + b) + c == a + (b + c)
  {
  }

  lemma {:induction false} MoreNoEscape(annotations: seq<string>, maxWidth: nat, prefix: string)
    requires PlainNotes(annotations) && NoEscape(prefix)
    ensures NoEscape(MoreAnnotations(annotations, maxWidth, prefix))
  {
    if annotations != [] {
      assert annotations[0] in annotations;
      MoreNoEscape(annotations[1..], maxWidth, prefix);
    }
  }

  lemma MarginNoEscape(l: Line, maxWidth: nat, prefix: string)
    requires l.width <= maxWidth && PlainNotes(l.annotations) && NoEscape(prefix)
    ensures NoEscape(Margin(l, maxWidth, prefix))
  {
    if l.annotations != [] {
      assert l.annotations[0] in l.annotations;
      MoreNoEscape(l.annotations[1..], maxWidth, prefix);
    }
  }

  lemma ReadLine(c: ColorState, l: SpanLine, maxWidth: nat, prefix: string, cells: seq<Cell>)
    requires PlainLine(l) && NoEscape(prefix) && l.width <= maxWidth
    ensures var (line, c1) := PaintLine(Some(c), l);
            var (seen, c2) := LineCells(c, l, maxWidth, prefix);
            && line.width == l.width && c1 == Some(c2)
            && ReadAll(Terminal(Printing, c, cells), line.text + Margin(line, maxWidth, prefix))
               == Terminal(Printing, c2, cells + seen)
  {
    hide ReadAll, UpdateColor, Margin, PaintSpans, SpanCells;
    ReadSpans(c, l.spans, cells);
    var (s, c1) := PaintSpans(Some(c), l.spans);
    var (seen, c2) := SpanCells(c, l.spans);
    var (line, c3) := PaintLine(Some(c), l);
    var margin := Margin(line, maxWidth, prefix);
    SameMargin(line, Line("", l.width, l.annotations), maxWidth, prefix);
    if l.annotations == [] {
      assert line.text + margin == s;
    } else {
      assert line.text + margin == s + (UpdateColor(c1, AnnotationColors) + margin);
      MarginNoEscape(line, maxWidth, prefix);
      ReadColored(Terminal(Printing, c, cells), s, c2, cells + seen, AnnotationColors, margin);
      ConcatCells(cells, seen, Cells(margin, AnnotationColors));
    }
  }

  lemma SameMargin(l: Line, l': Line, maxWidth: nat, prefix: string)
    requires l.width == l'.width <= maxWidth && l.annotations == l'.annotations
    ensures Margin(l, maxWidth, prefix) == Margin(l', maxWidth, prefix)
    ensures l.annotations == [] ==> Margin(l, maxWidth, prefix) == ""
  {
  }

  /** Painting from the front: the first line, and the rest in the colour it leaves. */
  lemma {:induction false} PaintFront(c: Option<ColorState>, lines: seq<SpanLine>)
    requires lines != []
    ensures var (l, c1) := PaintLine(c, lines[0]);
            var (ls, c2) := PaintLines(c1, lines[1..]);
            PaintLines(c, lines) == ([l] + ls, c2)
    decreases lines
  {
    var (l, c1) := PaintLine(c, lines[0]);
    if |lines| == 1 {
      assert lines[..0] == [] && lines[1..] == [];
      assert [] + [l] == [l] + [];
    } else {
      var front := lines[..|lines| - 1];
      PaintFront(c, front);
      assert lines[1..][..|lines| - 2] == front[1..] && lines[1..][|lines| - 2] == lines[|lines| - 1];
      var (ls, c2) := PaintLines(c1, front[1..]);
      var (last, c3) := PaintLine(c2, lines[|lines| - 1]);
      assert ([l] + ls) + [last] == [l] + (ls + [last]);
    }
  }

  ghost predicate Narrow(lines: seq<SpanLine>, maxWidth: nat) {
    forall l :: l in lines ==> l.width <= maxWidth
  }

  lemma {:induction false} PaintedNarrow(c: Option<ColorState>, lines: seq<SpanLine>, maxWidth: nat)
    ensures |PaintLines(c, lines).0| == |lines|
    ensures Narrow(lines, maxWidth) <==> forall l :: l in PaintLines(c, lines).0 ==> l.width <= maxWidth
    decreases lines
  {
    if lines != [] {
      PaintedNarrow(c, lines[..|lines| - 1], maxWidth);
      assert lines == lines[..|lines| - 1] + [lines[|lines| - 1]];
    }
  }

  lemma {:induction false} ReadLines(c: ColorState, lines: seq<SpanLine>, maxWidth: nat, prefix: string,
                                     cells: seq<Cell>)
    requires (forall l :: l in lines ==> PlainLine(l)) && NoEscape(prefix) && Narrow(lines, maxWidth)
    ensures forall l :: l in PaintLines(Some(c), lines).0 ==> l.width <= maxWidth
    ensures PaintLines(Some(c), lines).1.Some?
    ensures ReadAll(Terminal(Printing, c, cells), JoinLines(PaintLines(Some(c), lines).0, maxWidth, prefix))
         == Terminal(Printing, PaintLines(Some(c), lines).1.value, cells + LinesCells(c, lines, maxWidth, prefix))
    decreases lines
  {
    hide PaintLine, LineCells, Margin;
    PaintedNarrow(Some(c), lines, maxWidth);
    if lines == [] {
      assert cells + [] == cells;
    } else {
      assert lines[0] in lines;
      PaintFront(Some(c), lines);
      ReadLine(c, lines[0], maxWidth, prefix, cells);
      var (l, c1) := PaintLine(Some(c), lines[0]);
      var (seen, c2) := LineCells(c, lines[0], maxWidth, prefix);
      var first := l.text + Margin(l, maxWidth, prefix);
      var t0, t := Terminal(Printing, c, cells), Terminal(Printing, c2, cells + seen);
      assert ([l] + PaintLines(c1, lines[1..]).0)[1..] == PaintLines(c1, lines[1..]).0;
      if |lines| > 1 {
        PaintedNarrow(c1, lines[1..], maxWidth);
        var rest := JoinLines(PaintLines(c1, lines[1..]).0, maxWidth, prefix);
        var t1 := Terminal(Printing, c2, (cells + seen) + [Cell('\n', c2)]);
        ReadLines(c2, lines[1..], maxWidth, prefix, (cells + seen) + [Cell('\n', c2)]);
        ReadAppend(t0, first, "\n" + rest);
        ReadAppend(t, "\n", rest);
        ReadOne(t, '\n');
        var tail := LinesCells(c2, lines[1..], maxWidth, prefix);
        assert ((cells + seen) + [Cell('\n', c2)]) + tail == cells + (seen + ([Cell('\n', c2)] + tail));
      } else {
        assert lines[1..] == [];
      }
    }
  }

  /** The characters that should be seen are the output without colours. */
  lemma {:induction false} SpanChars(c: ColorState, spans: seq<Span>)
    ensures Chars(SpanCells(c, spans).0) == PaintSpans(None, spans).0 == Text(spans)
    ensures PaintSpans(None, spans).1 == None
    decreases spans
  {
    if spans != [] {
      hide Chars, Cells;
      var x, rest := spans[|spans| - 1], spans[..|spans| - 1];
      SpanChars(c, rest);
      NoColor(PaintSpans(None, rest).0, spans, rest, x);
      CharsOfCells(x.text, SpanCells(c, spans).1);
      CharsAppend(SpanCells(c, rest).0, Cells(x.text, SpanCells(c, spans).1));
    }
  }

  lemma NoColor(s: string, spans: seq<Span>, rest: seq<Span>, x: Span)
    requires spans != [] && rest == spans[..|spans| - 1] && x == spans[|spans| - 1]
             && PaintSpans(None, rest) == (s, None)
    ensures PaintSpans(None, spans) == (s + x.text, None)
  {
    assert "" + x.text == x.text;
  }

  lemma CharsOfCells(s: string, c: ColorState)
    ensures Chars(Cells(s, c)) == s
  {
  }

  lemma {:induction false} LinesChars(c: ColorState, lines: seq<SpanLine>, maxWidth: nat, prefix: string)
    requires Narrow(lines, maxWidth)
    ensures PaintLines(None, lines).1 == None && forall l :: l in PaintLines(None, lines).0 ==> l.width <= maxWidth
    ensures Chars(LinesCells(c, lines, maxWidth, prefix)) == JoinLines(PaintLines(None, lines).0, maxWidth, prefix)
    decreases lines
  {
    hide PaintSpans, SpanCells, Margin;
    PaintedNarrow(None, lines, maxWidth);
    if lines != [] {
      assert lines[0] in lines;
      var l := lines[0];
      PaintFront(None, lines);
      SpanChars(c, l.spans);
      var (cells, c1) := LineCells(c, l, maxWidth, prefix);
      var (line, c2) := PaintLine(None, l);
      SameMargin(line, Line("", l.width, l.annotations), maxWidth, prefix);
      LineChars(c, l, maxWidth, prefix);
      var ls := PaintLines(None, lines[1..]).0;
      assert ([line] + ls)[1..] == ls;
      if |lines| > 1 {
        PaintedNarrow(None, lines[1..], maxWidth);
        LinesChars(c1, lines[1..], maxWidth, prefix);
        var tail := LinesCells(c1, lines[1..], maxWidth, prefix);
        CharsAppend(cells, [Cell('\n', c1)] + tail);
        CharsAppend([Cell('\n', c1)], tail);
        assert Chars([Cell('\n', c1)]) == "\n";
      } else {
        assert lines[1..] == [];
      }
    }
  }

  lemma CharsAppend(a: seq<Cell>, b: seq<Cell>)
    ensures Chars(a + b) == Chars(a) + Chars(b)
  {
  }

  lemma LineChars(c: ColorState, l: SpanLine, maxWidth: nat, prefix: string)
    requires l.width <= maxWidth
    ensures var (line, c1) := PaintLine(None, l);
            && c1 == None && line.width == l.width && line.annotations == l.annotations
            && Chars(LineCells(c, l, maxWidth, prefix).0) == line.text + Margin(line, maxWidth, prefix)
  {
    hide PaintSpans, SpanCells, Margin;
    SpanChars(c, l.spans);
    var (line, c1) := PaintLine(None, l);
    var margin := Margin(Line("", l.width, l.annotations), maxWidth, prefix);
    SameMargin(line, Line("", l.width, l.annotations), maxWidth, prefix);
    var s := PaintSpans(None, l.spans).0;
    assert s + "" == s;
    CharsAppend(SpanCells(c, l.spans).0, Cells(margin, AnnotationColors));
    CharsOfCells(margin, AnnotationColors);
  }

  // ---------- the main results ----------

  function WidestLine(lines: seq<SpanLine>): (w: nat)
    ensures Narrow(lines, w)
  {
    if lines == [] then 0
    else
      var m := WidestLine(lines[1..]);
      assert lines == [lines[0]] + lines[1..];
      if lines[0].width > m then lines[0].width else m
  }

  lemma {:induction false} SameWidest(c: Option<ColorState>, lines: seq<SpanLine>)
    ensures MaxWidth(PaintLines(c, lines).0) == WidestLine(lines)
    decreases lines
  {
    if lines != [] {
      PaintFront(c, lines);
      var (l, c1) := PaintLine(c, lines[0]);
      SameWidest(c1, lines[1..]);
      var ls := PaintLines(c1, lines[1..]).0;
      assert ([l] + ls)[1..] == ls;
    }
  }

  /** What the coloured output should look like. */
  function Seen(d: Doc, width: int, prefix: string): seq<Cell> {
    var lines := LayoutLines(d, width);
    LinesCells(DefaultColors, lines, WidestLine(lines), prefix)
  }

  lemma LayoutLinesPlain(d: Doc, width: int)
    requires PlainDoc(d)
    ensures forall l :: l in LayoutLines(d, width) ==> PlainLine(l)
  {
    LayoutPlain(width, d, 0, Break, DefaultColors, Out([], [], 0, []));
  }

  /** A terminal that reads the coloured output of a document without escape characters shows every
      leaf in its enclosing colour and the annotations dim, and is left in the default colour. */
  lemma ColorsShown(d: Doc, width: int, prefix: string)
    requires PlainDoc(d) && NoEscape(prefix)
    ensures ReadAll(Terminal(Printing, DefaultColors, []), Formatted(d, width, true, prefix))
         == Terminal(Printing, DefaultColors, Seen(d, width, prefix))
  {
    hide ReadAll, JoinLines, LinesCells, PaintLines, LayoutLines, UpdateColor;
    var lines := LayoutLines(d, width);
    LayoutLinesPlain(d, width);
    SameWidest(Some(DefaultColors), lines);
    ReadLines(DefaultColors, lines, WidestLine(lines), prefix, []);
    var (ls, c) := PaintLines(Some(DefaultColors), lines);
    var seen := Seen(d, width, prefix);
    assert [] + seen == seen;
    var s := JoinLines(ls, MaxWidth(ls), prefix);
    ReadAppend(Terminal(Printing, DefaultColors, []), s, UpdateColor(c, DefaultColors));
    UpdateTerminal(c.value, DefaultColors, seen);
  }

  /** Colours change nothing but colours: what the terminal shows has the characters of the output
      without colours. */
  lemma ColorsOnlyColor(d: Doc, width: int, prefix: string)
    ensures Chars(Seen(d, width, prefix)) == Formatted(d, width, false, prefix)
  {
    hide JoinLines, LinesCells, PaintLines, LayoutLines;
    var lines := LayoutLines(d, width);
    SameWidest(None, lines);
    LinesChars(DefaultColors, lines, WidestLine(lines), prefix);
    var (ls, c) := PaintLines(None, lines);
    var s := JoinLines(ls, MaxWidth(ls), prefix);
    assert s + "" == s;
  }

  /** The recorded width of each line is the number of characters that the terminal shows for it,
      not counting its margin. */
  lemma WidthsSeen(d: Doc, width: int, c: ColorState, l: SpanLine)
    requires l in LayoutLines(d, width)
    ensures |SpanCells(c, l.spans).0| == l.width
  {
    LayoutWidths(width, d, 0, Break, DefaultColors, Out([], [], 0, []));
    SpanChars(c, l.spans);
    assert |Chars(SpanCells(c, l.spans).0)| == |SpanCells(c, l.spans).0|;
  }
}
