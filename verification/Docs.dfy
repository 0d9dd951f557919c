/** The documents of jaxlib/_pretty_printer.cc, and the two look-ahead loops over them. */
module Docs {
  import opened Wrappers
  import opened Lists

  datatype Color = Black | Red | Green | Yellow | Blue | Magenta | Cyan | White | Reset

  datatype Intensity = NormalIntensity | Dim | Bright

  datatype Doc =
    | NilDoc
    | TextDoc(text: string, annotation: Option<string>)
    | ConcatDoc(children: seq<Doc>)
    | BreakDoc(text: string)
    | GroupDoc(child: Doc)
    | NestDoc(n: nat, child: Doc)
    | ColorDoc(child: Doc, foreground: Option<Color>, background: Option<Color>, intensity: Option<Intensity>)

  /** The width of a document on one line. */
  function FlatWidth(d: Doc): nat
    decreases d
  {
    match d
    case NilDoc => 0
    case TextDoc(text, _) => |text|
    case ConcatDoc(children) => FlatWidths(children)
    case BreakDoc(text) => |text|
    case GroupDoc(child) => FlatWidth(child)
    case NestDoc(_, child) => FlatWidth(child)
    case ColorDoc(child, _, _, _) => FlatWidth(child)
  }

  function FlatWidths(ds: seq<Doc>): nat
    decreases ds
  {
    if ds == [] then 0 else FlatWidth(ds[0]) + FlatWidths(ds[1..])
  }

  /** How many documents a document consists of: the measure of every agenda. */
  function Size(d: Doc): nat
    decreases d
  {
    match d
    case NilDoc | TextDoc(_, _) | BreakDoc(_) => 1
    case ConcatDoc(children) => 1 + Sizes(children)
    case GroupDoc(child) => 1 + Size(child)
    case NestDoc(_, child) => 1 + Size(child)
    case ColorDoc(child, _, _, _) => 1 + Size(child)
  }

  function Sizes(ds: seq<Doc>): nat
    decreases ds
  {
    if ds == [] then 0 else Size(ds[0]) + Sizes(ds[1..])
  }

  /** TotalNumAnnotations and the constructors' counts. */
  function NumAnnotations(d: Doc): nat
    decreases d
  {
    match d
    case NilDoc | BreakDoc(_) => 0
    case TextDoc(_, annotation) => if annotation.Some? then 1 else 0
    case ConcatDoc(children) => TotalNumAnnotations(children)
    case GroupDoc(child) => NumAnnotations(child)
    case NestDoc(_, child) => NumAnnotations(child)
    case ColorDoc(child, _, _, _) => NumAnnotations(child)
  }

  function TotalNumAnnotations(ds: seq<Doc>): nat
    decreases ds
  {
    if ds == [] then 0 else NumAnnotations(ds[0]) + TotalNumAnnotations(ds[1..])
  }

  lemma {:induction false} WidthsAppend(xs: seq<Doc>, ys: seq<Doc>)
    ensures FlatWidths(xs + ys) == FlatWidths(xs) + FlatWidths(ys)
    ensures Sizes(xs + ys) == Sizes(xs) + Sizes(ys)
  {
    if xs == [] {
      assert xs + ys == ys;
    } else {
      assert (xs + ys)[1..] == xs[1..] + ys;
      WidthsAppend(xs[1..], ys);
    }
  }

  lemma {:induction false} WidthsReverse(xs: seq<Doc>)
    ensures FlatWidths(Reverse(xs)) == FlatWidths(xs) && Sizes(Reverse(xs)) == Sizes(xs)
  {
    if xs != [] {
      assert Reverse(xs) == Reverse(xs[1..]) + [xs[0]];
      WidthsReverse(xs[1..]);
      WidthsAppend(Reverse(xs[1..]), [xs[0]]);
    }
  }

  /** What one pass of the loops does to the agenda: the children are pushed in reverse. */
  function Expand(d: Doc): seq<Doc> {
    match d
    case NilDoc | TextDoc(_, _) | BreakDoc(_) => []
    case ConcatDoc(children) => Reverse(children)
    case GroupDoc(child) => [child]
    case NestDoc(_, child) => [child]
    case ColorDoc(child, _, _, _) => [child]
  }

  lemma ExpandMeasures(rest: seq<Doc>, d: Doc)
    ensures FlatWidths(rest + [d]) == FlatWidths(rest) + FlatWidth(d)
    ensures FlatWidths(rest + Expand(d)) == FlatWidths(rest) + if d.TextDoc? || d.BreakDoc? then 0 else FlatWidth(d)
    ensures Sizes(rest + Expand(d)) < Sizes(rest + [d])
  {
    WidthsAppend(rest, [d]);
    WidthsAppend(rest, Expand(d));
    match d {
      case ConcatDoc(children) => WidthsReverse(children);
      case _ =>
    }
  }

  /** Fits: the loop stops as soon as the width is used up, and decides exactly whether the
      document fits on the rest of the line. */
  method Fits(doc: Doc, width0: int) returns (fits: bool)
    ensures fits <==> FlatWidth(doc) <= width0
  {
    var agenda, width := [doc], width0;
    while width >= 0 && agenda != []
      invariant width - FlatWidths(agenda) == width0 - FlatWidth(doc)
      decreases Sizes(agenda)
    {
      var rest, d := agenda[..|agenda| - 1], agenda[|agenda| - 1];
      assert agenda == rest + [d] && rest + [] == rest;
      ExpandMeasures(rest, d);
      match d {
        case NilDoc => agenda := rest;
        case TextDoc(text, _) => agenda, width := rest, width - |text|;
        case ConcatDoc(children) => agenda := rest + Reverse(children);
        case BreakDoc(text) => agenda, width := rest, width - |text|;
        case GroupDoc(child) => agenda := rest + [child];
        case NestDoc(_, child) => agenda := rest + [child];
        case ColorDoc(child, _, _, _) => agenda := rest + [child];
      }
    }
    return width >= 0;
  }

  /** Sparse as it is written. Its counter starts at 0 and only goes down, so the test for a second
      annotation after a break never succeeds and the answer is always true. */
  method Sparse(doc: Doc) returns (sparse: bool)
    ensures sparse
  {
    if NumAnnotations(doc) == 0 {
      return true;
    }
    var agenda := [doc];
    var numAnnotations: int, seenBreak := 0, false;
    while agenda != []
      invariant numAnnotations <= 0
      decreases Sizes(agenda)
    {
      var rest, d := agenda[..|agenda| - 1], agenda[|agenda| - 1];
      assert agenda == rest + [d];
      ExpandMeasures(rest, d);
      agenda := rest + Expand(d);
      if d.TextDoc? && d.annotation.Some? {
        if numAnnotations >= 1 && seenBreak {
          return false;
        }
        numAnnotations := numAnnotations - 1;
      } else if d.BreakDoc? {
        seenBreak := true;
      }
    }
    return true;
  }
}
