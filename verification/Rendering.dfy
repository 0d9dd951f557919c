/** What the pretty printer prints, from the document read as a stream of tokens: which breaks begin a line,
    by how much that line is indented, and the colour of every text. */
module Rendering {
  import opened Wrappers
  import opened Docs
  import opened Layouts
  import opened Printer

  // ---------- a document as a stream of tokens ----------

  /** A text, a break with the sum of the nestings around it, and the brackets of a group; the opening one
      knows the number of characters up to the closing one. */
  datatype Token =
    | Word(text: string, annotation: Option<string>)
    | Space(nesting: nat, text: string)
    | Open(width: nat)
    | Close

  function Tokens(d: Doc, nesting: nat): seq<Token>
    decreases d
  {
    match d
    case NilDoc => []
    case TextDoc(text, annotation) => [Word(text, annotation)]
    case ConcatDoc(children) => TokensAll(children, nesting)
    case BreakDoc(text) => [Space(nesting, text)]
    case GroupDoc(child) => [Open(Length(Tokens(child, nesting)))] + Tokens(child, nesting) + [Close]
    case NestDoc(n, child) => Tokens(child, nesting + n)
    case ColorDoc(child, _, _, _) => Tokens(child, nesting)
  }

  function TokensAll(ds: seq<Doc>, nesting: nat): seq<Token>
    decreases ds
  {
    if ds == [] then [] else Tokens(ds[0], nesting) + TokensAll(ds[1..], nesting)
  }

  /** The number of characters on one line. */
  function Length(ts: seq<Token>): nat {
    if ts == [] then 0
    else (if ts[0].Word? || ts[0].Space? then |ts[0].text| else 0) + Length(ts[1..])
  }

  lemma {:induction false} LengthAppend(ts: seq<Token>, us: seq<Token>)
    ensures Length(ts + us) == Length(ts) + Length(us)
  {
    if ts == [] {
      assert ts + us == us;
    } else {
      LengthAppend(ts[1..], us);
      assert (ts + us)[1..] == ts[1..] + us;
    }
  }

  lemma {:induction false} LengthIsWidth(d: Doc, nesting: nat)
    ensures Length(Tokens(d, nesting)) == FlatWidth(d)
    decreases d
  {
    match d
    case ConcatDoc(children) => LengthsAreWidths(children, nesting);
    case GroupDoc(child) =>
      LengthIsWidth(child, nesting);
      var ts := Tokens(child, nesting);
      LengthAppend([Open(Length(ts))], ts);
      LengthAppend([Open(Length(ts))] + ts, [Close]);
    case NestDoc(n, child) => LengthIsWidth(child, nesting + n);
    case ColorDoc(child, _, _, _) => LengthIsWidth(child, nesting);
    case _ =>
  }

  lemma {:induction false} LengthsAreWidths(ds: seq<Doc>, nesting: nat)
    ensures Length(TokensAll(ds, nesting)) == FlatWidths(ds)
    decreases ds
  {
    if ds != [] {
      LengthIsWidth(ds[0], nesting);
      LengthsAreWidths(ds[1..], nesting);
      LengthAppend(Tokens(ds[0], nesting), TokensAll(ds[1..], nesting));
    }
  }

  // ---------- printing the stream ----------

  datatype PlainLine = PlainLine(text: string, annotations: seq<string>)

  /** The finished lines, the current one, and for every open group whether it is on one line. */
  datatype Page = Page(lines: seq<PlainLine>, current: PlainLine, flat: seq<bool>)

  /** The innermost group decides. */
  predicate InFlat(page: Page) {
    page.flat != [] && page.flat[|page.flat| - 1]
  }

  function Print(width: int, t: Token, page: Page): Page {
    match t
    case Word(text, annotation) =>
      page.(current := PlainLine(page.current.text + text,
                                 page.current.annotations + if annotation.Some? then [annotation.value] else []))
    case Space(nesting, text) =>
      if InFlat(page) then page.(current := page.current.(text := page.current.text + text))
      else page.(lines := page.lines + [page.current], current := PlainLine(Spaces(nesting), []))
    case Open(n) => page.(flat := page.flat + [|page.current.text| + n <= width])
    case Close => if page.flat == [] then page else page.(flat := page.flat[..|page.flat| - 1])
  }

  function PrintAll(width: int, ts: seq<Token>, page: Page): Page {
    if ts == [] then page else PrintAll(width, ts[1..], Print(width, ts[0], page))
  }

  lemma {:induction false} PrintAppend(width: int, ts: seq<Token>, us: seq<Token>, page: Page)
    ensures PrintAll(width, ts + us, page) == PrintAll(width, us, PrintAll(width, ts, page))
    decreases ts
  {
    hide Print;
    if ts == [] {
      assert ts + us == us;
    } else {
      assert (ts + us)[1..] == ts[1..] + us;
      PrintAppend(width, ts[1..], us, Print(width, ts[0], page));
    }
  }

  lemma PrintOne(width: int, t: Token, page: Page)
    ensures PrintAll(width, [t], page) == Print(width, t, page)
  {
    assert [t][1..] == [];
  }

  // ---------- the layout is the printed stream ----------

  function PlainSpanLine(l: SpanLine): PlainLine {
    PlainLine(Text(l.spans), l.annotations)
  }

  function PlainLines(lines: seq<SpanLine>): (r: seq<PlainLine>)
    ensures |r| == |lines| && forall i :: 0 <= i < |lines| ==> r[i] == PlainSpanLine(lines[i])
  {
    seq(|lines|, i requires 0 <= i < |lines| => PlainSpanLine(lines[i]))
  }

  /** The layout so far is what is on the page, and a group in mode `mode` is innermost. */
  ghost predicate OnPage(o: Out, mode: BreakMode, page: Page) {
    && page.lines == PlainLines(o.lines) && page.current == PlainLine(Text(o.spans), o.annotations)
    && o.k == |page.current.text| && (InFlat(page) <==> mode.Flat?)
  }

  lemma TextSnoc(spans: seq<Span>, s: Span)
    ensures Text(spans + [s]) == Text(spans) + s.text
  {
  }

  lemma TextOne(s: Span)
    ensures Text([s]) == s.text
  {
    assert [s][..0] == [];
  }

  lemma PutOnPage(o: Out, text: string, color: ColorState, annotation: Option<string>, width: int, mode: BreakMode,
                  page: Page)
    requires OnPage(o, mode, page)
    ensures OnPage(PutText(o, text, color, annotation), mode, Print(width, Word(text, annotation), page))
  {
    TextSnoc(o.spans, Leaf(text, color));
    assert o.annotations + [] == o.annotations;
  }

  lemma BreakOnPage(o: Out, text: string, indent: nat, color: ColorState, width: int, mode: BreakMode, page: Page)
    requires OnPage(o, mode, page)
    ensures OnPage(if mode.Break? then NewLine(o, indent) else Put(o, Span.Gap(text, color)), mode,
                   Print(width, Space(indent, text), page))
  {
    TextSnoc(o.spans, Span.Gap(text, color));
    TextOne(Indent(Spaces(indent)));
    var l := SpanLine(o.spans, o.k, o.annotations);
    assert PlainLines(o.lines + [l]) == PlainLines(o.lines) + [PlainSpanLine(l)];
  }

  /** The recursive layout puts on the page what printing the tokens puts there, and closes its groups. */
  lemma {:induction false} LayoutPrints(width: int, d: Doc, indent: nat, mode: BreakMode, color: ColorState, o: Out,
                                        page: Page)
    requires OnPage(o, mode, page)
    ensures var page' := PrintAll(width, Tokens(d, indent), page);
            OnPage(Layout(width, d, indent, mode, color, o), mode, page') && page'.flat == page.flat
    decreases d, 0
  {
    hide OnPage, Print, PutText, NewLine, Put;
    match d
    case NilDoc =>
    case TextDoc(text, annotation) =>
      PrintOne(width, Word(text, annotation), page);
      PutOnPage(o, text, color, annotation, width, mode, page);
      PrintKeeps(width, Word(text, annotation), page);
    case ConcatDoc(children) => LayoutAllPrints(width, children, indent, mode, color, o, page);
    case BreakDoc(text) =>
      PrintOne(width, Space(indent, text), page);
      BreakOnPage(o, text, indent, color, width, mode, page);
      PrintKeeps(width, Space(indent, text), page);
    case GroupDoc(child) => GroupPrints(width, child, indent, mode, color, o, page);
    case NestDoc(n, child) => LayoutPrints(width, child, indent + n, mode, color, o, page);
    case ColorDoc(child, fg, bg, i) => LayoutPrints(width, child, indent, mode, Recolor(color, fg, bg, i), o, page);
  }

  lemma PrintKeeps(width: int, t: Token, page: Page)
    requires t.Word? || t.Space?
    ensures Print(width, t, page).flat == page.flat
  {
  }

  lemma {:induction false} GroupPrints(width: int, child: Doc, indent: nat, mode: BreakMode, color: ColorState, o: Out,
                                       page: Page)
    requires OnPage(o, mode, page)
    ensures var page' := PrintAll(width, Tokens(GroupDoc(child), indent), page);
            OnPage(Layout(width, GroupDoc(child), indent, mode, color, o), mode, page') && page'.flat == page.flat
    decreases child, 1
  {
    var ts := Tokens(child, indent);
    LengthIsWidth(child, indent);
    PrintAppend(width, [Open(Length(ts))] + ts, [Close], page);
    PrintAppend(width, [Open(Length(ts))], ts, page);
    PrintOne(width, Open(Length(ts)), page);
    var inside := Print(width, Open(Length(ts)), page);
    var inner := if FlatWidth(child) <= width - o.k then Flat else Break;
    assert OnPage(o, inner, inside);
    hide OnPage;
    LayoutPrints(width, child, indent, inner, color, o, inside);
    var closed := PrintAll(width, ts, inside);
    PrintOne(width, Close, closed);
    ClosePage(width, Layout(width, child, indent, inner, color, o), o, inner, mode, page, inside, closed);
  }

  lemma ClosePage(width: int, r: Out, o: Out, inner: BreakMode, mode: BreakMode, page: Page, inside: Page, closed: Page)
    requires OnPage(o, mode, page) && OnPage(r, inner, closed) && closed.flat == inside.flat
    requires |inside.flat| == |page.flat| + 1 && inside.flat[..|page.flat|] == page.flat
    ensures OnPage(r, mode, Print(width, Close, closed)) && Print(width, Close, closed).flat == page.flat
  {
  }

  lemma {:induction false} LayoutAllPrints(width: int, ds: seq<Doc>, indent: nat, mode: BreakMode, color: ColorState,
                                           o: Out, page: Page)
    requires OnPage(o, mode, page)
    ensures var page' := PrintAll(width, TokensAll(ds, indent), page);
            OnPage(LayoutAll(width, ds, indent, mode, color, o), mode, page') && page'.flat == page.flat
    decreases ds, 0
  {
    hide OnPage, Print, Layout, Tokens;
    if ds != [] {
      LayoutPrints(width, ds[0], indent, mode, color, o, page);
      var page1 := PrintAll(width, Tokens(ds[0], indent), page);
      LayoutAllPrints(width, ds[1..], indent, mode, color, Layout(width, ds[0], indent, mode, color, o), page1);
      PrintAppend(width, Tokens(ds[0], indent), TokensAll(ds[1..], indent), page);
    }
  }

  // ---------- the lines of the output ----------

  /** What a document prints: its lines, with their annotations. */
  function Printed(d: Doc, width: int): seq<PlainLine> {
    var page := PrintAll(width, Tokens(d, 0), Page([], PlainLine("", []), []));
    page.lines + [page.current]
  }

  /** The lines of the layout are those that printing the tokens gives: every line after the first begins
      with as many spaces as the nestings around its break add up to, and a break begins a line exactly if
      the innermost group around it did not fit on the rest of its line, or there is none. */
  lemma LinesPrinted(d: Doc, width: int)
    ensures PlainLines(LayoutLines(d, width)) == Printed(d, width)
  {
    var o, page := Out([], [], 0, []), Page([], PlainLine("", []), []);
    LayoutPrints(width, d, 0, Break, DefaultColors, o, page);
    var r := Layout(width, d, 0, Break, DefaultColors, o);
    var l := SpanLine(r.spans, r.k, r.annotations);
    assert PlainLines(r.lines + [l]) == PlainLines(r.lines) + [PlainSpanLine(l)];
  }

  /** In detail: every new line belongs to a break, in order, and begins with as many spaces as the nestings
      around this break add up to. */
  lemma {:induction false} NewLines(width: int, ts: seq<Token>, page: Page) returns (at: seq<nat>)
    ensures var r, k := PrintAll(width, ts, page), |page.lines| + 1;
            var ls := r.lines + [r.current];
            && |ls| == k + |at| && ls[..|page.lines|] == page.lines && page.current.text <= ls[|page.lines|].text
            && forall i :: 0 <= i < |at| ==>
                 at[i] < |ts| && ts[at[i]].Space? && Spaces(ts[at[i]].nesting) <= ls[k + i].text
    ensures forall i, j :: 0 <= i < j < |at| ==> at[i] < at[j]
    decreases ts
  {
    at := [];
    if ts != [] {
      var page1 := Print(width, ts[0], page);
      var rest := NewLines(width, ts[1..], page1);
      var later := seq(|rest|, i requires 0 <= i < |rest| => rest[i] + 1);
      at := (if |page1.lines| > |page.lines| then [0] else []) + later;
      var r := PrintAll(width, ts, page);
      PrintGrows(width, ts[0], page);
      hide Print, PrintAll;
      NewLinesStep(ts, page, page1, r.lines + [r.current], rest, at);
    }
  }

  /** One token extends the current line, or it is a break and begins one. */
  lemma PrintGrows(width: int, t: Token, page: Page)
    ensures var page1 := Print(width, t, page);
            || (page1.lines == page.lines && page.current.text <= page1.current.text)
            || (t.Space? && page1.lines == page.lines + [page.current] && page1.current.text == Spaces(t.nesting))
  {
  }

  lemma NewLinesStep(ts: seq<Token>, page: Page, page1: Page, ls: seq<PlainLine>, rest: seq<nat>, at: seq<nat>)
    requires ts != []
    requires (page1.lines == page.lines && page.current.text <= page1.current.text)
             || (ts[0].Space? && page1.lines == page.lines + [page.current]
                 && page1.current.text == Spaces(ts[0].nesting))
    requires |ls| == |page1.lines| + 1 + |rest| && ls[..|page1.lines|] == page1.lines
    requires page1.current.text <= ls[|page1.lines|].text
    requires forall i :: 0 <= i < |rest| ==>
               rest[i] < |ts| - 1 && ts[1..][rest[i]].Space?
               && Spaces(ts[1..][rest[i]].nesting) <= ls[|page1.lines| + 1 + i].text
    requires forall i, j :: 0 <= i < j < |rest| ==> rest[i] < rest[j]
    requires var d := |page1.lines| - |page.lines|;
             && |at| == d + |rest| && (d == 1 ==> at[0] == 0)
             && forall i :: 0 <= i < |rest| ==> at[d + i] == rest[i] + 1
    ensures |ls| == |page.lines| + 1 + |at| && ls[..|page.lines|] == page.lines
    ensures page.current.text <= ls[|page.lines|].text
    ensures forall i :: 0 <= i < |at| ==>
              at[i] < |ts| && ts[at[i]].Space? && Spaces(ts[at[i]].nesting) <= ls[|page.lines| + 1 + i].text
    ensures forall i, j :: 0 <= i < j < |at| ==> at[i] < at[j]
  {
    hide Spaces;
    var d := |page1.lines| - |page.lines|;
    assert ls[..|page.lines|] == ls[..|page1.lines|][..|page.lines|];
    if d == 1 {
      assert ls[|page.lines|] == ls[..|page1.lines|][|page.lines|];
    }
    forall i | 0 <= i < |at|
      ensures at[i] < |ts| && ts[at[i]].Space? && Spaces(ts[at[i]].nesting) <= ls[|page.lines| + 1 + i].text
    {
      if i >= d {
        assert at[d + (i - d)] == rest[i - d] + 1;
        assert ts[1..][rest[i - d]] == ts[at[i]];
        assert |page1.lines| + 1 + (i - d) == |page.lines| + 1 + i;
      }
    }
    forall i, j | 0 <= i < j < |at| ensures at[i] < at[j] {
      assert at[d + (j - d)] == rest[j - d] + 1;
      if i >= d {
        assert at[d + (i - d)] == rest[i - d] + 1;
        assert rest[i - d] < rest[j - d];
      }
    }
  }

  // ---------- the text that Format returns ----------

  lemma {:induction false} PaintPlain(spans: seq<Span>)
    ensures PaintSpans(None, spans) == (Text(spans), None)
    decreases spans
  {
    if spans != [] {
      PaintPlain(spans[..|spans| - 1]);
      assert Text(spans[..|spans| - 1]) + ("" + spans[|spans| - 1].text) == Text(spans);
    }
  }

  lemma {:induction false} PaintPlainLines(lines: seq<SpanLine>)
    ensures PaintLines(None, lines).1 == None && |PaintLines(None, lines).0| == |lines|
    ensures forall i :: 0 <= i < |lines| ==>
              PaintLines(None, lines).0[i] == Line(Text(lines[i].spans), lines[i].width, lines[i].annotations)
    decreases lines
  {
    if lines != [] {
      PaintPlainLines(lines[..|lines| - 1]);
      var l := lines[|lines| - 1];
      PaintPlain(l.spans);
      assert Text(l.spans) + "" == Text(l.spans);
    }
  }

  /** Without colours Format joins exactly these lines, with their annotations in the margin. With colours
      the characters are the same. */
  lemma FormatPrints(d: Doc, width: int, prefix: string) returns (ls: seq<Line>)
    ensures |ls| == |Printed(d, width)|
    ensures forall i :: 0 <= i < |ls| ==>
              var p := Printed(d, width)[i]; ls[i] == Line(p.text, |p.text|, p.annotations)
    ensures Formatted(d, width, false, prefix) == JoinLines(ls, MaxWidth(ls), prefix)
  {
    hide Printed, LayoutLines, JoinLines, MaxWidth, PaintLines;
    var lines := LayoutLines(d, width);
    LinesPrinted(d, width);
    PaintPlainLines(lines);
    LinesWide(d, width);
    ls := PaintLines(None, lines).0;
    forall i | 0 <= i < |ls| ensures var p := Printed(d, width)[i]; ls[i] == Line(p.text, |p.text|, p.annotations) {
      assert PlainLines(lines)[i] == PlainSpanLine(lines[i]) && lines[i] in lines;
    }
    var s := JoinLines(ls, MaxWidth(ls), prefix);
    assert s + "" == s;
  }

  lemma LinesWide(d: Doc, width: int)
    ensures forall l :: l in LayoutLines(d, width) ==> |Text(l.spans)| == l.width
  {
    hide Layout;
    LayoutWidths(width, d, 0, Break, DefaultColors, Out([], [], 0, []));
  }

  /** Lines with line feeds between them. */
  function Lines(ls: seq<PlainLine>): string {
    if ls == [] then ""
    else if |ls| == 1 then ls[0].text
    else Lines(ls[..|ls| - 1]) + "\n" + ls[|ls| - 1].text
  }

  lemma {:induction false} JoinPlain(ls: seq<Line>, ps: seq<PlainLine>, maxWidth: nat, prefix: string)
    requires |ls| == |ps| && forall i :: 0 <= i < |ls| ==> ls[i].text == ps[i].text && ls[i].annotations == []
    requires forall l :: l in ls ==> l.width <= maxWidth
    ensures JoinLines(ls, maxWidth, prefix) == Lines(ps)
    decreases ls
  {
    if ls != [] {
      var front, l := ls[..|ls| - 1], ls[|ls| - 1];
      assert ls == front + [l];
      JoinSnoc(front, l, maxWidth, prefix);
      JoinPlain(front, ps[..|ps| - 1], maxWidth, prefix);
      assert l.text + "" == l.text;
      if front == [] {
        assert "" + ("" + l.text) == l.text;
      } else {
        assert Lines(ps) == Lines(ps[..|ps| - 1]) + "\n" + l.text;
      }
    }
  }

  /** Without annotations the output is the lines with line feeds between them. */
  lemma FormatLines(d: Doc, width: int, prefix: string)
    requires forall p :: p in Printed(d, width) ==> p.annotations == []
    ensures Formatted(d, width, false, prefix) == Lines(Printed(d, width))
  {
    hide Printed, Formatted, JoinLines, MaxWidth, Lines;
    var ls := FormatPrints(d, width, prefix);
    forall i | 0 <= i < |ls| ensures ls[i].text == Printed(d, width)[i].text && ls[i].annotations == [] {
      assert Printed(d, width)[i] in Printed(d, width);
    }
    JoinPlain(ls, Printed(d, width), MaxWidth(ls), prefix);
  }

  /** The first annotation of every line stands in the same column, behind the longest line. */
  lemma AnnotationColumn(l: Line, maxWidth: nat, prefix: string)
    requires |l.text| == l.width <= maxWidth
    ensures var full := l.text + Margin(l, maxWidth, prefix);
            if l.annotations == [] then full == l.text
            else
              && |full| >= maxWidth && full[..l.width] == l.text
              && full[l.width..maxWidth] == Spaces(maxWidth - l.width)
              && prefix + l.annotations[0] <= full[maxWidth..]
  {
    hide MoreAnnotations;
    if l.annotations != [] {
      var pad, first, more := Spaces(maxWidth - l.width), prefix + l.annotations[0],
                              MoreAnnotations(l.annotations[1..], maxWidth, prefix);
      assert l.text + Margin(l, maxWidth, prefix) == l.text + pad + first + more;
    }
  }

  // ---------- colours ----------

  /** The last element of `xs` that is given, else `x`. */
  function Innermost<T>(xs: seq<Option<T>>, x: T): T {
    if xs == [] then x
    else if xs[|xs| - 1].Some? then xs[|xs| - 1].value
    else Innermost(xs[..|xs| - 1], x)
  }

  /** The colour requests around a text, from the outside in. */
  datatype Request = Request(foreground: Option<Color>, background: Option<Color>, intensity: Option<Intensity>)

  /** The texts of a document, each with the requests around it. */
  function Requests(d: Doc, around: seq<Request>): seq<(string, seq<Request>)>
    decreases d
  {
    match d
    case NilDoc | BreakDoc(_) => []
    case TextDoc(text, _) => [(text, around)]
    case ConcatDoc(children) => RequestsAll(children, around)
    case GroupDoc(child) => Requests(child, around)
    case NestDoc(_, child) => Requests(child, around)
    case ColorDoc(child, fg, bg, i) => Requests(child, around + [Request(fg, bg, i)])
  }

  function RequestsAll(ds: seq<Doc>, around: seq<Request>): seq<(string, seq<Request>)>
    decreases ds
  {
    if ds == [] then [] else Requests(ds[0], around) + RequestsAll(ds[1..], around)
  }

  function Foregrounds(rs: seq<Request>): (r: seq<Option<Color>>)
    ensures |r| == |rs| && forall i :: 0 <= i < |rs| ==> r[i] == rs[i].foreground
  {
    seq(|rs|, i requires 0 <= i < |rs| => rs[i].foreground)
  }

  function Backgrounds(rs: seq<Request>): (r: seq<Option<Color>>)
    ensures |r| == |rs| && forall i :: 0 <= i < |rs| ==> r[i] == rs[i].background
  {
    seq(|rs|, i requires 0 <= i < |rs| => rs[i].background)
  }

  function Intensities(rs: seq<Request>): (r: seq<Option<Intensity>>)
    ensures |r| == |rs| && forall i :: 0 <= i < |rs| ==> r[i] == rs[i].intensity
  {
    seq(|rs|, i requires 0 <= i < |rs| => rs[i].intensity)
  }

  /** For each of foreground, background and intensity, the innermost request that gives it decides. */
  function Asked(rs: seq<Request>): ColorState {
    ColorState(Innermost(Foregrounds(rs), Reset), Innermost(Backgrounds(rs), Reset),
               Innermost(Intensities(rs), NormalIntensity))
  }

  lemma AskedMore(rs: seq<Request>, r: Request)
    ensures Asked(rs + [r]) == Recolor(Asked(rs), r.foreground, r.background, r.intensity)
  {
    assert Foregrounds(rs + [r])[..|rs|] == Foregrounds(rs);
    assert Backgrounds(rs + [r])[..|rs|] == Backgrounds(rs);
    assert Intensities(rs + [r])[..|rs|] == Intensities(rs);
  }

  function AsLeaves(ts: seq<(string, seq<Request>)>): (r: seq<Span>)
    ensures |r| == |ts| && forall i :: 0 <= i < |ts| ==> r[i] == Leaf(ts[i].0, Asked(ts[i].1))
  {
    seq(|ts|, i requires 0 <= i < |ts| => Leaf(ts[i].0, Asked(ts[i].1)))
  }

  lemma AsLeavesAppend(ts: seq<(string, seq<Request>)>, us: seq<(string, seq<Request>)>)
    ensures AsLeaves(ts + us) == AsLeaves(ts) + AsLeaves(us)
  {
  }

  lemma {:induction false} LeavesAsked(d: Doc, around: seq<Request>)
    ensures Leaves(d, Asked(around)) == AsLeaves(Requests(d, around))
    decreases d
  {
    hide Asked;
    match d
    case ConcatDoc(children) => LeavesAllAsked(children, around);
    case GroupDoc(child) => LeavesAsked(child, around);
    case NestDoc(_, child) => LeavesAsked(child, around);
    case ColorDoc(child, fg, bg, i) =>
      AskedMore(around, Request(fg, bg, i));
      LeavesAsked(child, around + [Request(fg, bg, i)]);
    case _ =>
  }

  lemma {:induction false} LeavesAllAsked(ds: seq<Doc>, around: seq<Request>)
    ensures LeavesAll(ds, Asked(around)) == AsLeaves(RequestsAll(ds, around))
    decreases ds
  {
    hide Asked, Leaves, Requests;
    if ds != [] {
      LeavesAsked(ds[0], around);
      LeavesAllAsked(ds[1..], around);
      AsLeavesAppend(Requests(ds[0], around), RequestsAll(ds[1..], around));
    }
  }

  /** Whatever the width, every text of the document appears once, in order, in the colour that the requests
      around it ask for. */
  lemma TextsAsked(d: Doc, width: int)
    ensures LeavesInLines(LayoutLines(d, width)) == AsLeaves(Requests(d, []))
  {
    var o := Out([], [], 0, []);
    LayoutLeaves(width, d, 0, Break, DefaultColors, o);
    var r := Layout(width, d, 0, Break, DefaultColors, o);
    hide Layout;
    assert Foregrounds([]) == [] && Backgrounds([]) == [] && Intensities([]) == [];
    assert Asked([]) == DefaultColors;
    LeavesAsked(d, []);
    var l := SpanLine(r.spans, r.k, r.annotations);
    assert (r.lines + [l])[..|r.lines|] == r.lines;
    assert AllLeaves(o) == [] + [];
    assert [] + Leaves(d, DefaultColors) == Leaves(d, DefaultColors);
  }
}
