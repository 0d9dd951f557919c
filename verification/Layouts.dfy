/** What the pretty printer is to produce: a layout as a recursive function of the document, without
    agenda and without escape sequences, and what choosing a group flat guarantees. */
module Layouts {
  import opened Wrappers
  import opened Docs

  datatype ColorState = ColorState(foreground: Color, background: Color, intensity: Intensity)

  const DefaultColors := ColorState(Reset, Reset, NormalIntensity)
  const AnnotationColors := ColorState(Reset, Reset, Dim)

  datatype BreakMode = Flat | Break

  /** A piece of a line: the text of a leaf, the text of a break that was not taken, or indentation,
      which has no colour of its own. */
  datatype Span = Leaf(text: string, color: ColorState) | Gap(text: string, color: ColorState) | Indent(text: string)

  datatype SpanLine = SpanLine(spans: seq<Span>, width: nat, annotations: seq<string>)

  /** The finished lines and the current one. */
  datatype Out = Out(lines: seq<SpanLine>, spans: seq<Span>, k: nat, annotations: seq<string>)

  function Spaces(n: nat): (r: string)
    ensures |r| == n && forall i :: 0 <= i < n ==> r[i] == ' '
  {
    seq(n, _ => ' ')
  }

  function Put(o: Out, s: Span): Out {
    o.(spans := o.spans + [s], k := o.k + |s.text|)
  }

  function PutText(o: Out, text: string, color: ColorState, annotation: Option<string>): Out {
    var o1 := Put(o, Leaf(text, color));
    if annotation.Some? then o1.(annotations := o1.annotations + [annotation.value]) else o1
  }

  function NewLine(o: Out, indent: nat): Out {
    Out(o.lines + [SpanLine(o.spans, o.k, o.annotations)], [Indent(Spaces(indent))], indent, [])
  }

  function Recolor(c: ColorState, foreground: Option<Color>, background: Option<Color>, intensity: Option<Intensity>)
    : ColorState
  {
    ColorState(if foreground.Some? then foreground.value else c.foreground,
               if background.Some? then background.value else c.background,
               if intensity.Some? then intensity.value else c.intensity)
  }

  /** The layout of `d` after `o`. A group is laid out flat if it fits on the rest of the line. */
  function Layout(width: int, d: Doc, indent: nat, mode: BreakMode, color: ColorState, o: Out): Out
    decreases d
  {
    match d
    case NilDoc => o
    case TextDoc(text, annotation) => PutText(o, text, color, annotation)
    case ConcatDoc(children) => LayoutAll(width, children, indent, mode, color, o)
    case BreakDoc(text) => if mode.Break? then NewLine(o, indent) else Put(o, Gap(text, color))
    case GroupDoc(child) =>
      Layout(width, child, indent, if FlatWidth(child) <= width - o.k then Flat else Break, color, o)
    case NestDoc(n, child) => Layout(width, child, indent + n, mode, color, o)
    case ColorDoc(child, fg, bg, i) => Layout(width, child, indent, mode, Recolor(color, fg, bg, i), o)
  }

  function LayoutAll(width: int, ds: seq<Doc>, indent: nat, mode: BreakMode, color: ColorState, o: Out): Out
    decreases ds
  {
    if ds == [] then o
    else LayoutAll(width, ds[1..], indent, mode, color, Layout(width, ds[0], indent, mode, color, o))
  }

  // ---------- a group that is chosen flat ----------

  /** The document on one line: no width, no modes, no choice. */
  function OneLine(d: Doc, color: ColorState, o: Out): Out
    decreases d
  {
    match d
    case NilDoc => o
    case TextDoc(text, annotation) => PutText(o, text, color, annotation)
    case ConcatDoc(children) => OneLineAll(children, color, o)
    case BreakDoc(text) => Put(o, Gap(text, color))
    case GroupDoc(child) => OneLine(child, color, o)
    case NestDoc(_, child) => OneLine(child, color, o)
    case ColorDoc(child, fg, bg, i) => OneLine(child, Recolor(color, fg, bg, i), o)
  }

  function OneLineAll(ds: seq<Doc>, color: ColorState, o: Out): Out
    decreases ds
  {
    if ds == [] then o else OneLineAll(ds[1..], color, OneLine(ds[0], color, o))
  }

  /** Flat layout that fits is layout on one line: every group inside is flat, too, no line is
      begun, and the column advances by the flat width, within the line width. */
  lemma {:induction false} FlatFits(width: int, d: Doc, indent: nat, color: ColorState, o: Out)
    requires o.k + FlatWidth(d) <= width
    ensures Layout(width, d, indent, Flat, color, o) == OneLine(d, color, o)
    ensures OneLine(d, color, o).lines == o.lines && OneLine(d, color, o).k == o.k + FlatWidth(d)
    decreases d
  {
    match d
    case ConcatDoc(children) => FlatAllFit(width, children, indent, color, o);
    case GroupDoc(child) => FlatFits(width, child, indent, color, o);
    case NestDoc(n, child) => FlatFits(width, child, indent + n, color, o);
    case ColorDoc(child, fg, bg, i) => FlatFits(width, child, indent, Recolor(color, fg, bg, i), o);
    case _ =>
  }

  lemma {:induction false} FlatAllFit(width: int, ds: seq<Doc>, indent: nat, color: ColorState, o: Out)
    requires o.k + FlatWidths(ds) <= width
    ensures LayoutAll(width, ds, indent, Flat, color, o) == OneLineAll(ds, color, o)
    ensures OneLineAll(ds, color, o).lines == o.lines && OneLineAll(ds, color, o).k == o.k + FlatWidths(ds)
    decreases ds
  {
    if ds != [] {
      FlatFits(width, ds[0], indent, color, o);
      FlatAllFit(width, ds[1..], indent, color, OneLine(ds[0], color, o));
    }
  }

  /** A group is laid out on one line if and only if it fits there; otherwise it does not fit, so
      breaking it is never needless. */
  lemma GroupChoice(width: int, child: Doc, indent: nat, mode: BreakMode, color: ColorState, o: Out)
    ensures var r := Layout(width, GroupDoc(child), indent, mode, color, o);
            if o.k + FlatWidth(child) <= width
            then r == OneLine(child, color, o) && r.lines == o.lines && r.k == o.k + FlatWidth(child) <= width
            else r == Layout(width, child, indent, Break, color, o)
  {
    if o.k + FlatWidth(child) <= width {
      FlatFits(width, child, indent, color, o);
    }
  }

  // ---------- every line is as long as its recorded width ----------

  function Text(spans: seq<Span>): string {
    if spans == [] then "" else Text(spans[..|spans| - 1]) + spans[|spans| - 1].text
  }

  ghost predicate WidthsRight(o: Out) {
    && |Text(o.spans)| == o.k
    && forall l :: l in o.lines ==> |Text(l.spans)| == l.width
  }

  lemma PutWidths(o: Out, s: Span)
    requires WidthsRight(o)
    ensures WidthsRight(Put(o, s))
  {
  }

  lemma NewLineWidths(o: Out, indent: nat)
    requires WidthsRight(o)
    ensures WidthsRight(NewLine(o, indent))
  {
  }

  lemma {:induction false} LayoutWidths(width: int, d: Doc, indent: nat, mode: BreakMode, color: ColorState, o: Out)
    requires WidthsRight(o)
    ensures WidthsRight(Layout(width, d, indent, mode, color, o))
    decreases d
  {
    hide WidthsRight, NewLine;
    match d
    case NilDoc =>
    case TextDoc(text, annotation) =>
      PutWidths(o, Leaf(text, color));
      AnnotationWidths(Put(o, Leaf(text, color)), o.annotations + if annotation.Some? then [annotation.value] else []);
    case ConcatDoc(children) => LayoutAllWidths(width, children, indent, mode, color, o);
    case BreakDoc(text) =>
      PutWidths(o, Gap(text, color));
      NewLineWidths(o, indent);
    case GroupDoc(child) =>
      LayoutWidths(width, child, indent, if FlatWidth(child) <= width - o.k then Flat else Break, color, o);
    case NestDoc(n, child) => LayoutWidths(width, child, indent + n, mode, color, o);
    case ColorDoc(child, fg, bg, i) => LayoutWidths(width, child, indent, mode, Recolor(color, fg, bg, i), o);
  }

  lemma AnnotationWidths(o: Out, annotations: seq<string>)
    requires WidthsRight(o)
    ensures WidthsRight(o.(annotations := annotations))
  {
  }

  lemma {:induction false} LayoutAllWidths(width: int, ds: seq<Doc>, indent: nat, mode: BreakMode, color: ColorState,
                                           o: Out)
    requires WidthsRight(o)
    ensures WidthsRight(LayoutAll(width, ds, indent, mode, color, o))
    decreases ds
  {
    if ds != [] {
      LayoutWidths(width, ds[0], indent, mode, color, o);
      LayoutAllWidths(width, ds[1..], indent, mode, color, Layout(width, ds[0], indent, mode, color, o));
    }
  }

  // ---------- nothing is lost, whatever the width ----------

  /** The text leaves and the annotations of a document, in order; a leaf in its enclosing colour. */
  function Leaves(d: Doc, color: ColorState): seq<Span>
    decreases d
  {
    match d
    case NilDoc | BreakDoc(_) => []
    case TextDoc(text, _) => [Leaf(text, color)]
    case ConcatDoc(children) => LeavesAll(children, color)
    case GroupDoc(child) => Leaves(child, color)
    case NestDoc(_, child) => Leaves(child, color)
    case ColorDoc(child, fg, bg, i) => Leaves(child, Recolor(color, fg, bg, i))
  }

  function LeavesAll(ds: seq<Doc>, color: ColorState): seq<Span>
    decreases ds
  {
    if ds == [] then [] else Leaves(ds[0], color) + LeavesAll(ds[1..], color)
  }

  function Annotations(d: Doc): seq<string>
    decreases d
  {
    match d
    case NilDoc | BreakDoc(_) => []
    case TextDoc(_, annotation) => if annotation.Some? then [annotation.value] else []
    case ConcatDoc(children) => AnnotationsAll(children)
    case GroupDoc(child) => Annotations(child)
    case NestDoc(_, child) => Annotations(child)
    case ColorDoc(child, _, _, _) => Annotations(child)
  }

  function AnnotationsAll(ds: seq<Doc>): seq<string>
    decreases ds
  {
    if ds == [] then [] else Annotations(ds[0]) + AnnotationsAll(ds[1..])
  }

  function LeavesIn(spans: seq<Span>): seq<Span> {
    if spans == [] then []
    else
      var s := spans[|spans| - 1];
      LeavesIn(spans[..|spans| - 1]) + if s.Leaf? then [s] else []
  }

  function LeavesInLines(lines: seq<SpanLine>): seq<Span> {
    if lines == [] then [] else LeavesInLines(lines[..|lines| - 1]) + LeavesIn(lines[|lines| - 1].spans)
  }

  function AnnotationsInLines(lines: seq<SpanLine>): seq<string> {
    if lines == [] then [] else AnnotationsInLines(lines[..|lines| - 1]) + lines[|lines| - 1].annotations
  }

  function AllLeaves(o: Out): seq<Span> {
    LeavesInLines(o.lines) + LeavesIn(o.spans)
  }

  function AllAnnotations(o: Out): seq<string> {
    AnnotationsInLines(o.lines) + o.annotations
  }

  lemma PutLeaves(o: Out, s: Span)
    ensures AllLeaves(Put(o, s)) == AllLeaves(o) + if s.Leaf? then [s] else []
    ensures AllAnnotations(Put(o, s)) == AllAnnotations(o)
  {
    assert (o.spans + [s])[..|o.spans|] == o.spans;
  }

  lemma NewLineLeaves(o: Out, indent: nat)
    ensures AllLeaves(NewLine(o, indent)) == AllLeaves(o) && AllAnnotations(NewLine(o, indent)) == AllAnnotations(o)
  {
    var l := SpanLine(o.spans, o.k, o.annotations);
    assert (o.lines + [l])[..|o.lines|] == o.lines;
    var spans := [Indent(Spaces(indent))];
    assert spans[..0] == [] && LeavesIn(spans) == LeavesIn([]) + [];
    assert AllLeaves(o) + [] == AllLeaves(o) && AllAnnotations(o) + [] == AllAnnotations(o);
  }

  /** Whatever the width, and however the groups are broken, the layout contains every text leaf of
      the document exactly once, in document order and in its enclosing colour, and likewise every
      annotation. */
  lemma {:induction false} LayoutLeaves(width: int, d: Doc, indent: nat, mode: BreakMode, color: ColorState, o: Out)
    ensures AllLeaves(Layout(width, d, indent, mode, color, o)) == AllLeaves(o) + Leaves(d, color)
    ensures AllAnnotations(Layout(width, d, indent, mode, color, o)) == AllAnnotations(o) + Annotations(d)
    decreases d
  {
    hide LeavesIn, LeavesInLines, AnnotationsInLines, NewLine;
    match d
    case NilDoc =>
    case TextDoc(text, annotation) => PutLeaves(o, Leaf(text, color));
    case ConcatDoc(children) => LayoutAllLeaves(width, children, indent, mode, color, o);
    case BreakDoc(text) =>
      PutLeaves(o, Gap(text, color));
      NewLineLeaves(o, indent);
    case GroupDoc(child) =>
      LayoutLeaves(width, child, indent, if FlatWidth(child) <= width - o.k then Flat else Break, color, o);
    case NestDoc(n, child) => LayoutLeaves(width, child, indent + n, mode, color, o);
    case ColorDoc(child, fg, bg, i) => LayoutLeaves(width, child, indent, mode, Recolor(color, fg, bg, i), o);
  }

  lemma {:induction false} LayoutAllLeaves(width: int, ds: seq<Doc>, indent: nat, mode: BreakMode, color: ColorState,
                                           o: Out)
    ensures AllLeaves(LayoutAll(width, ds, indent, mode, color, o)) == AllLeaves(o) + LeavesAll(ds, color)
    ensures AllAnnotations(LayoutAll(width, ds, indent, mode, color, o)) == AllAnnotations(o) + AnnotationsAll(ds)
    decreases ds
  {
    hide AllLeaves, AllAnnotations, Layout, Leaves, Annotations;
    if ds == [] {
      assert AllLeaves(o) + [] == AllLeaves(o) && AllAnnotations(o) + [] == AllAnnotations(o);
    } else {
      var o1 := Layout(width, ds[0], indent, mode, color, o);
      LayoutLeaves(width, ds[0], indent, mode, color, o);
      LayoutAllLeaves(width, ds[1..], indent, mode, color, o1);
      assert AllLeaves(o) + (Leaves(ds[0], color) + LeavesAll(ds[1..], color))
          == (AllLeaves(o) + Leaves(ds[0], color)) + LeavesAll(ds[1..], color);
      assert AllAnnotations(o) + (Annotations(ds[0]) + AnnotationsAll(ds[1..]))
          == (AllAnnotations(o) + Annotations(ds[0])) + AnnotationsAll(ds[1..]);
    }
  }
}
