/** The agenda machine of the pretty printer, and that it produces the recursive layout. */
module Printer {
  import opened Wrappers
  import opened Docs
  import opened Layouts
  import opened Terminals

  datatype Agendum = Agendum(indent: nat, mode: BreakMode, doc: Doc, color: ColorState)

  datatype Line = Line(text: string, width: nat, annotations: seq<string>)

  // ---------- painting a layout with escape sequences ----------

  /** The text of a list of spans when `c` is the tracked colour, and the colour tracked after it. */
  function PaintSpans(c: Option<ColorState>, spans: seq<Span>): (string, Option<ColorState>)
    decreases spans
  {
    if spans == [] then ("", c)
    else
      var (s, c1) := PaintSpans(c, spans[..|spans| - 1]);
      var x := spans[|spans| - 1];
      if x.Indent? then (s + x.text, c1) else (s + (UpdateColor(c1, x.color) + x.text), Tracked(c1, x.color))
  }

  /** A line that has annotations ends in their colour. */
  function PaintLine(c: Option<ColorState>, l: SpanLine): (Line, Option<ColorState>) {
    var (s, c1) := PaintSpans(c, l.spans);
    if l.annotations == [] then (Line(s, l.width, l.annotations), c1)
    else (Line(s + UpdateColor(c1, AnnotationColors), l.width, l.annotations), Tracked(c1, AnnotationColors))
  }

  function PaintLines(c: Option<ColorState>, lines: seq<SpanLine>): (seq<Line>, Option<ColorState>)
    decreases lines
  {
    if lines == [] then ([], c)
    else
      var (ls, c1) := PaintLines(c, lines[..|lines| - 1]);
      var (l, c2) := PaintLine(c1, lines[|lines| - 1]);
      (ls + [l], c2)
  }

  // ---------- joining the lines ----------

  function MaxWidth(lines: seq<Line>): (w: nat)
    ensures forall l :: l in lines ==> l.width <= w
  {
    if lines == [] then 0
    else
      var m := MaxWidth(lines[1..]);
      assert lines == [lines[0]] + lines[1..];
      if lines[0].width > m then lines[0].width else m
  }

  function MoreAnnotations(annotations: seq<string>, maxWidth: nat, prefix: string): string {
    if annotations == [] then ""
    else Spaces(maxWidth) + prefix + annotations[0] + MoreAnnotations(annotations[1..], maxWidth, prefix)
  }

  /** What follows the text of a line: padding and its annotations. */
  function Margin(l: Line, maxWidth: nat, prefix: string): string
    requires l.width <= maxWidth
  {
    if l.annotations == [] then ""
    else
      Spaces(maxWidth - l.width) + prefix + l.annotations[0] + MoreAnnotations(l.annotations[1..], maxWidth, prefix)
  }

  function JoinLines(lines: seq<Line>, maxWidth: nat, prefix: string): string
    requires forall l :: l in lines ==> l.width <= maxWidth
  {
    if lines == [] then ""
    else
      assert lines[0] in lines;
      var first := lines[0].text + Margin(lines[0], maxWidth, prefix);
      if |lines| == 1 then first else first + ("\n" + JoinLines(lines[1..], maxWidth, prefix))
  }

  function StartColor(useColor: bool): Option<ColorState> {
    if useColor then Some(DefaultColors) else None
  }

  /** All lines of the layout, the last one included. */
  function LayoutLines(d: Doc, width: int): seq<SpanLine> {
    var o := Layout(width, d, 0, Break, DefaultColors, Out([], [], 0, []));
    o.lines + [SpanLine(o.spans, o.k, o.annotations)]
  }

  /** The string that Format is to return. */
  function Formatted(d: Doc, width: int, useColor: bool, prefix: string): string {
    var (lines, c) := PaintLines(StartColor(useColor), LayoutLines(d, width));
    JoinLines(lines, MaxWidth(lines), prefix) + UpdateColor(c, DefaultColors)
  }

  // ---------- the meaning of an agenda ----------

  /** The layout that remains to be done: the top of the agenda first. */
  function AgendaLayout(width: int, agenda: seq<Agendum>, o: Out): Out
    decreases agenda
  {
    if agenda == [] then o
    else
      var a := agenda[|agenda| - 1];
      AgendaLayout(width, agenda[..|agenda| - 1], Layout(width, a.doc, a.indent, a.mode, a.color, o))
  }

  function AgendaSize(agenda: seq<Agendum>): nat {
    if agenda == [] then 0 else AgendaSize(agenda[..|agenda| - 1]) + Size(agenda[|agenda| - 1].doc)
  }

  lemma PushLayout(width: int, agenda: seq<Agendum>, a: Agendum, o: Out)
    ensures AgendaLayout(width, agenda + [a], o)
         == AgendaLayout(width, agenda, Layout(width, a.doc, a.indent, a.mode, a.color, o))
    ensures AgendaSize(agenda + [a]) == AgendaSize(agenda) + Size(a.doc)
  {
  }

  /** The children of a concatenation as they are pushed. */
  function Pushed(a: Agendum, ds: seq<Doc>): seq<Agendum> {
    if ds == [] then [] else Pushed(a, ds[1..]) + [a.(doc := ds[0])]
  }

  lemma {:induction false} PushedLayout(width: int, rest: seq<Agendum>, a: Agendum, ds: seq<Doc>, o: Out)
    ensures AgendaLayout(width, rest + Pushed(a, ds), o)
         == AgendaLayout(width, rest, LayoutAll(width, ds, a.indent, a.mode, a.color, o))
    ensures AgendaSize(rest + Pushed(a, ds)) == AgendaSize(rest) + Sizes(ds)
    decreases ds
  {
    if ds == [] {
      assert rest + [] == rest;
    } else {
      var top := a.(doc := ds[0]);
      assert rest + Pushed(a, ds) == (rest + Pushed(a, ds[1..])) + [top];
      PushLayout(width, rest + Pushed(a, ds[1..]), top, o);
      PushedLayout(width, rest, a, ds[1..], Layout(width, ds[0], a.indent, a.mode, a.color, o));
    }
  }

  // ---------- the machine ----------

  class FormatState {
    var width: int
    var agenda: seq<Agendum>
    var lineText: string
    var k: nat
    var lineAnnotations: seq<string>
    var color: Option<ColorState>
    var lines: seq<Line>
    const start: Option<ColorState>

    constructor (width: int, useColor: bool, doc: Doc)
      ensures this.width == width && agenda == [Agendum(0, Break, doc, DefaultColors)]
      ensures start == StartColor(useColor) && Shows(Out([], [], 0, []))
    {
      this.width := width;
      agenda := [Agendum(0, Break, doc, DefaultColors)];
      lineText, k, lineAnnotations, lines := "", 0, [], [];
      color := StartColor(useColor);
      start := StartColor(useColor);
    }

    /** The machine has produced the layout `o`. */
    ghost predicate Shows(o: Out)
      reads this`lineText, this`k, this`lineAnnotations, this`color, this`lines
    {
      var (ls, c) := PaintLines(start, o.lines);
      && lines == ls
      && (lineText, color) == PaintSpans(c, o.spans)
      && k == o.k && lineAnnotations == o.annotations
    }

    lemma ShownColumn(o: Out)
      requires Shows(o)
      ensures k == o.k
    {
    }

    /** TextDoc::Format */
    method FormatText(text: string, annotation: Option<string>, a: Agendum, ghost o: Out)
      requires Shows(o)
      modifies this`lineText, this`k, this`lineAnnotations, this`color
      ensures Shows(PutText(o, text, a.color, annotation))
    {
      PaintPut(start, o, Leaf(text, a.color));
      lineText := lineText + (UpdateColor(color, a.color) + text);
      color := Tracked(color, a.color);
      if annotation.Some? {
        lineAnnotations := lineAnnotations + [annotation.value];
      }
      k := k + |text|;
    }

    /** BreakDoc::Format */
    method FormatBreak(text: string, a: Agendum, ghost o: Out)
      requires Shows(o)
      modifies this`lineText, this`k, this`lineAnnotations, this`color, this`lines
      ensures Shows(if a.mode.Break? then NewLine(o, a.indent) else Put(o, Gap(text, a.color)))
    {
      if a.mode.Break? {
        PaintNewLine(start, o, a.indent);
        if lineAnnotations != [] {
          lineText := lineText + UpdateColor(color, AnnotationColors);
          color := Tracked(color, AnnotationColors);
        }
        lines := lines + [Line(lineText, k, lineAnnotations)];
        lineText := Spaces(a.indent);
        lineAnnotations := [];
        k := a.indent;
      } else {
        PaintPut(start, o, Gap(text, a.color));
        lineText := lineText + (UpdateColor(color, a.color) + text);
        color := Tracked(color, a.color);
        k := k + |text|;
      }
    }

    /** ConcatDoc::Format */
    method FormatConcat(children: seq<Doc>, a: Agendum)
      modifies this`agenda
      ensures agenda == old(agenda) + Pushed(a, children)
    {
      assert agenda + Pushed(a, []) == agenda;
      assert children[|children|..] == [];
      for i := |children| downto 0
        invariant agenda == old(agenda) + Pushed(a, children[i..])
      {
        assert children[i..][1..] == children[i + 1..];
        assert old(agenda) + (Pushed(a, children[i + 1..]) + [a.(doc := children[i])])
            == (old(agenda) + Pushed(a, children[i + 1..])) + [a.(doc := children[i])];
        agenda := agenda + [a.(doc := children[i])];
      }
      assert children[0..] == children;
    }

    /** GroupDoc::Format: flat if the group, without what follows it, fits on the line. */
    method FormatGroup(child: Doc, a: Agendum)
      requires a.doc == GroupDoc(child)
      modifies this`agenda
      ensures agenda == old(agenda) + [a.(doc := child, mode := if FlatWidth(child) <= width - k then Flat else Break)]
    {
      var fits := Fits(a.doc, width - k);
      if fits {
        fits := Sparse(a.doc);
      }
      agenda := agenda + [a.(doc := child, mode := if fits then Flat else Break)];
    }

    /** One pass of the loop of Format. */
    method Step(ghost o: Out) returns (ghost o1: Out)
      requires agenda != [] && Shows(o)
      modifies this`agenda, this`lineText, this`k, this`lineAnnotations, this`color, this`lines
      ensures Shows(o1) && AgendaLayout(width, agenda, o1) == AgendaLayout(width, old(agenda), o)
      ensures AgendaSize(agenda) < old(AgendaSize(agenda))
    {
      hide Shows, Layout, Size, AgendaLayout, AgendaSize, PutText, NewLine, LayoutAll, FlatWidth;
      var a := agenda[|agenda| - 1];
      ghost var rest := agenda[..|agenda| - 1];
      assert agenda == rest + [a];
      PushLayout(width, rest, a, o);
      DocLayout(width, a, o);
      agenda := agenda[..|agenda| - 1];
      o1 := o;
      match a.doc {
        case NilDoc =>
        case TextDoc(text, annotation) =>
          FormatText(text, annotation, a, o);
          o1 := PutText(o, text, a.color, annotation);
        case ConcatDoc(children) =>
          PushedLayout(width, agenda, a, children, o);
          FormatConcat(children, a);
        case BreakDoc(text) =>
          FormatBreak(text, a, o);
          o1 := if a.mode.Break? then NewLine(o, a.indent) else Put(o, Gap(text, a.color));
        case GroupDoc(child) =>
          PushLayout(width, agenda, a.(doc := child, mode := if FlatWidth(child) <= width - o.k then Flat else Break),
                     o);
          assert k == o.k by {
            ShownColumn(o);
          }
          FormatGroup(child, a);
        case NestDoc(n, child) =>
          PushLayout(width, agenda, a.(doc := child, indent := a.indent + n), o);
          agenda := agenda + [a.(doc := child, indent := a.indent + n)];
        case ColorDoc(child, fg, bg, i) =>
          PushLayout(width, agenda, a.(doc := child, color := Recolor(a.color, fg, bg, i)), o);
          agenda := agenda + [a.(doc := child, color := Recolor(a.color, fg, bg, i))];
      }
    }

    /** The end of Format, after its loop: the last line is closed. */
    method Finish(ghost o: Out)
      requires Shows(o)
      modifies this`lineText, this`color, this`lines
      ensures (lines, color) == PaintLines(start, o.lines + [SpanLine(o.spans, o.k, o.annotations)])
    {
      PaintNewLine(start, o, 0);
      if lineAnnotations != [] {
        lineText := lineText + UpdateColor(color, AnnotationColors);
        color := Tracked(color, AnnotationColors);
      }
      lines := lines + [Line(lineText, k, lineAnnotations)];
    }
  }

  /** The definitions of Layout and Size, one clause for each kind of document. */
  lemma DocLayout(width: int, a: Agendum, o: Out)
    ensures var r := Layout(width, a.doc, a.indent, a.mode, a.color, o);
            && (a.doc.NilDoc? ==> r == o)
            && (a.doc.TextDoc? ==> r == PutText(o, a.doc.text, a.color, a.doc.annotation))
            && (a.doc.ConcatDoc? ==> r == LayoutAll(width, a.doc.children, a.indent, a.mode, a.color, o))
            && (a.doc.BreakDoc? ==>
                  r == if a.mode.Break? then NewLine(o, a.indent) else Put(o, Gap(a.doc.text, a.color)))
            && (a.doc.GroupDoc? ==>
                 r == Layout(width, a.doc.child, a.indent,
                             if FlatWidth(a.doc.child) <= width - o.k then Flat else Break, a.color, o))
            && (a.doc.NestDoc? ==> r == Layout(width, a.doc.child, a.indent + a.doc.n, a.mode, a.color, o))
            && (a.doc.ColorDoc? ==>
                 r == Layout(width, a.doc.child, a.indent, a.mode,
                             Recolor(a.color, a.doc.foreground, a.doc.background, a.doc.intensity), o))
    ensures Size(a.doc) >= 1
    ensures a.doc.ConcatDoc? ==> Size(a.doc) == 1 + Sizes(a.doc.children)
    ensures a.doc.GroupDoc? || a.doc.NestDoc? || a.doc.ColorDoc? ==> Size(a.doc) == 1 + Size(a.doc.child)
  {
  }

  lemma PaintPut(c0: Option<ColorState>, o: Out, x: Span)
    requires !x.Indent?
    ensures var (s, c) := PaintSpans(PaintLines(c0, o.lines).1, o.spans);
            PaintSpans(PaintLines(c0, o.lines).1, o.spans + [x])
            == (s + (UpdateColor(c, x.color) + x.text), Tracked(c, x.color))
  {
  }

  lemma PaintNewLine(c0: Option<ColorState>, o: Out, indent: nat)
    ensures var (ls, c) := PaintLines(c0, o.lines);
            var (l, c1) := PaintLine(c, SpanLine(o.spans, o.k, o.annotations));
            && PaintLines(c0, o.lines + [SpanLine(o.spans, o.k, o.annotations)]) == (ls + [l], c1)
            && PaintSpans(c1, [Indent(Spaces(indent))]) == (Spaces(indent), c1)
  {
    var l := SpanLine(o.spans, o.k, o.annotations);
    assert (o.lines + [l])[..|o.lines|] == o.lines;
    assert [Indent(Spaces(indent))][..0] == [];
    assert "" + Spaces(indent) == Spaces(indent);
  }

  lemma {:induction false} JoinSnoc(lines: seq<Line>, l: Line, maxWidth: nat, prefix: string)
    requires forall x :: x in lines + [l] ==> x.width <= maxWidth
    ensures forall x :: x in lines ==> x.width <= maxWidth
    ensures l.width <= maxWidth
    ensures JoinLines(lines + [l], maxWidth, prefix)
         == JoinLines(lines, maxWidth, prefix)
            + ((if lines == [] then "" else "\n") + (l.text + Margin(l, maxWidth, prefix)))
    decreases lines
  {
    hide Margin;
    assert l in lines + [l];
    assert forall x :: x in lines ==> x in lines + [l];
    if lines == [] {
      assert lines + [l] == [l];
    } else {
      var last := "\n" + (l.text + Margin(l, maxWidth, prefix));
      var first := lines[0].text + Margin(lines[0], maxWidth, prefix);
      assert (lines + [l])[1..] == lines[1..] + [l] && (lines + [l])[0] == lines[0];
      JoinSnoc(lines[1..], l, maxWidth, prefix);
      if |lines| == 1 {
        assert lines[1..] == [];
        assert "\n" + ("" + ("" + (l.text + Margin(l, maxWidth, prefix)))) == last;
      } else {
        var rest := JoinLines(lines[1..], maxWidth, prefix);
        assert first + ("\n" + (rest + last)) == (first + ("\n" + rest)) + last;
      }
    }
  }

  lemma AnnotationSnoc(more: string, annotations: seq<string>, n: nat, maxWidth: nat, prefix: string)
    requires n < |annotations|
    ensures more + (Spaces(maxWidth) + prefix + annotations[n])
            + MoreAnnotations(annotations[n + 1..], maxWidth, prefix)
         == more + MoreAnnotations(annotations[n..], maxWidth, prefix)
  {
    var piece := Spaces(maxWidth) + prefix + annotations[n];
    var rest := MoreAnnotations(annotations[n + 1..], maxWidth, prefix);
    assert annotations[n..][1..] == annotations[n + 1..];
    assert MoreAnnotations(annotations[n..], maxWidth, prefix) == piece + rest;
    hide MoreAnnotations, Spaces;
    assert more + piece + rest == more + (piece + rest);
  }

  lemma AnnotationsEnd(more: string, annotations: seq<string>, maxWidth: nat, prefix: string)
    ensures more + MoreAnnotations(annotations[|annotations|..], maxWidth, prefix) == more
    ensures "" + MoreAnnotations(annotations, maxWidth, prefix) == MoreAnnotations(annotations, maxWidth, prefix)
  {
  }

  /** The lines of the annotations after the first. */
  method JoinAnnotations(annotations: seq<string>, maxWidth: nat, prefix: string) returns (more: string)
    requires annotations != []
    ensures more == MoreAnnotations(annotations[1..], maxWidth, prefix)
  {
    hide MoreAnnotations, Spaces;
    more := "";
    for n := 1 to |annotations|
      invariant more + MoreAnnotations(annotations[n..], maxWidth, prefix)
             == "" + MoreAnnotations(annotations[1..], maxWidth, prefix)
    {
      AnnotationSnoc(more, annotations, n, maxWidth, prefix);
      more := more + (Spaces(maxWidth) + prefix + annotations[n]);
    }
    AnnotationsEnd(more, annotations, maxWidth, prefix);
    AnnotationsEnd(more, annotations[1..], maxWidth, prefix);
  }

  /** The text of one line with its annotations. */
  method JoinLine(l: Line, maxWidth: nat, prefix: string) returns (text: string)
    requires l.width <= maxWidth
    ensures text == l.text + Margin(l, maxWidth, prefix)
  {
    hide MoreAnnotations, Spaces;
    text := l.text;
    if l.annotations != [] {
      var start := Spaces(maxWidth - l.width) + prefix + l.annotations[0];
      var more := JoinAnnotations(l.annotations, maxWidth, prefix);
      text := text + (start + more);
    }
  }

  method Join(lines: seq<Line>, prefix: string) returns (out: string)
    ensures out == JoinLines(lines, MaxWidth(lines), prefix)
  {
    hide Margin, JoinLines;
    var maxWidth: nat := 0;
    for i := 0 to |lines|
      invariant MaxWidth(lines) == Larger(maxWidth, MaxWidth(lines[i..]))
    {
      assert lines[i..][1..] == lines[i + 1..];
      if lines[i].width > maxWidth {
        maxWidth := lines[i].width;
      }
    }
    out := "";
    JoinNothing(maxWidth, prefix);
    assert forall l :: l in lines ==> l.width <= maxWidth;
    for i := 0 to |lines|
      invariant forall l :: l in lines[..i] ==> l.width <= maxWidth
      invariant out == JoinLines(lines[..i], maxWidth, prefix)
    {
      assert lines[..i + 1] == lines[..i] + [lines[i]] && lines[i] in lines;
      var text := JoinLine(lines[i], maxWidth, prefix);
      JoinSnoc(lines[..i], lines[i], maxWidth, prefix);
      out := out + ((if i == 0 then "" else "\n") + text);
    }
    assert lines[..|lines|] == lines;
  }

  lemma JoinNothing(maxWidth: nat, prefix: string)
    ensures JoinLines([], maxWidth, prefix) == ""
  {
  }

  function Larger(a: nat, b: nat): nat {
    if a > b then a else b
  }

  /** Format without source maps. The agenda machine produces the recursive layout, painted with
      colours if asked for. */
  method Format(doc: Doc, width: int, useColor: bool, prefix: string) returns (out: string)
    ensures out == Formatted(doc, width, useColor, prefix)
  {
    var state := new FormatState(width, useColor, doc);
    ghost var o := Out([], [], 0, []);
    ghost var goal := Layout(width, doc, 0, Break, DefaultColors, o);
    PushLayout(width, [], state.agenda[0], o);
    assert [] + [state.agenda[0]] == state.agenda;
    while state.agenda != []
      invariant fresh(state) && state.width == width && state.start == StartColor(useColor)
      invariant state.Shows(o) && AgendaLayout(width, state.agenda, o) == goal
      decreases AgendaSize(state.agenda)
    {
      o := state.Step(o);
    }
    state.Finish(o);
    out := Join(state.lines, prefix);
    out := out + UpdateColor(state.color, DefaultColors);
  }
}
