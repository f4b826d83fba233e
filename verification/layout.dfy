/** The integer layout rules that feed the editor's drawing calls: where the
    caption's lines go (`drawCaption`) and how the call-to-action button
    resolves its missing settings (`drawCTA`).  The drawing itself is not
    modelled. */
module Layout {
  import opened Words
  import opened Wrap

  datatype Option<T> = None | Some(value: T)

  datatype Point = Point(x: int, y: int)

  datatype CaptionStyle = CaptionStyle(
    fontSize: int,
    textColor: string,
    alignment: string,
    maxCharactersPerLine: int,
    position: Point
  )

  /** The button's font size and wrap length may be missing from the
      template. */
  datatype CtaStyle = CtaStyle(
    fontSize: Option<int>,
    textColor: string,
    backgroundColor: string,
    wrapLength: Option<int>,
    position: Point
  )

  /** The text settings of the template the editor loads once at start-up.
      Its image-layer addresses and image mask only feed the drawing and
      are not modelled. */
  datatype Template = Template(
    caption: CaptionStyle,
    cta: CtaStyle
  )

  /** A line of text and the point where it is drawn. */
  datatype PlacedLine = PlacedLine(text: string, x: int, y: int)

  const DefaultCtaFontSize: int := 30
  const DefaultCtaWrapLength: int := 20

  /** The texts of placed lines, in order. */
  function Texts(placed: seq<PlacedLine>): (texts: seq<string>)
    ensures |texts| == |placed|
    ensures forall i :: 0 <= i < |placed| ==> texts[i] == placed[i].text
  {
    if |placed| == 0 then [] else [placed[0].text] + Texts(placed[1..])
  }

  /** Places the lines one under the other as the drawing loop does: all at
      `x`, the first at `y`, and the running `y` advanced by `step` after
      each line.  Line `i` therefore lands at `y + i * step`. */
  function PlaceLines(lines: seq<string>, x: int, y: int, step: int): (placed: seq<PlacedLine>)
    ensures |placed| == |lines|
    ensures forall i :: 0 <= i < |lines| ==> placed[i] == PlacedLine(lines[i], x, y + i * step)
    decreases |lines|
  {
    if |lines| == 0 then []
    else
      var tail := PlaceLines(lines[1..], x, y + step, step);
      assert forall i :: 1 <= i < |lines| ==> (y + step) + (i - 1) * step == y + i * step;
      [PlacedLine(lines[0], x, y)] + tail
  }

  /** The caption wrapped greedily at the template's maximum line length and
      placed from the template's position, one font size per line; nothing
      without a template. */
  function CaptionLayout(template: Option<Template>, caption: string): (placed: seq<PlacedLine>)
    ensures template.None? ==> placed == []
    ensures template.Some? ==>
      var style := template.value.caption;
      && IsGreedyWrap(caption, style.maxCharactersPerLine, Texts(placed))
      && Join(Texts(placed)) == caption
      && |placed| >= 1
      && (forall i :: 0 <= i < |placed| ==>
            && Fits(placed[i].text, style.maxCharactersPerLine)
            && placed[i].x == style.position.x
            && placed[i].y == style.position.y + i * style.fontSize)
  {
    match template
    case None => []
    case Some(t) =>
      var lines := WrapText(caption, t.caption.maxCharactersPerLine);
      WrapTextJoin(caption, t.caption.maxCharactersPerLine);
      WrapTextFits(caption, t.caption.maxCharactersPerLine);
      WrapTextIsTheGreedyWrap(caption, t.caption.maxCharactersPerLine, lines);
      var placed := PlaceLines(lines, t.caption.position.x, t.caption.position.y, t.caption.fontSize);
      assert Texts(placed) == lines;
      placed
  }

  /** JavaScript's `v || fallback` on a numeric setting: a missing setting
      and a zero setting both fall back, so with a non-zero fallback the
      result is never zero. */
  function OrDefault(v: Option<int>, fallback: int): (r: int)
    ensures v.Some? && v.value != 0 ==> r == v.value
    ensures v.None? || v.value == 0 ==> r == fallback
    ensures fallback != 0 ==> r != 0
  {
    if v.Some? && v.value != 0 then v.value else fallback
  }

  /** The button's font size: the template's when set and non-zero, else 30. */
  function CtaFontSize(cta: CtaStyle): (size: int)
    ensures size != 0
    ensures cta.fontSize.Some? && cta.fontSize.value != 0 ==> size == cta.fontSize.value
    ensures cta.fontSize.None? || cta.fontSize == Some(0) ==> size == DefaultCtaFontSize
  {
    OrDefault(cta.fontSize, DefaultCtaFontSize)
  }

  /** The button's wrap length: the template's when set and non-zero, else
      20. */
  function CtaWrapLength(cta: CtaStyle): (length: int)
    ensures length != 0
    ensures cta.wrapLength.Some? && cta.wrapLength.value != 0 ==> length == cta.wrapLength.value
    ensures cta.wrapLength.None? || cta.wrapLength == Some(0) ==> length == DefaultCtaWrapLength
  {
    OrDefault(cta.wrapLength, DefaultCtaWrapLength)
  }

  /** The button text wrapped greedily at the resolved wrap length: the
      lines join back to the text, each fits that length or is one word, and
      none could take the next line's first word; nothing without a
      template. */
  function CtaLines(template: Option<Template>, cta: string): (lines: seq<string>)
    ensures template.None? ==> lines == []
    ensures template.Some? ==>
      && |lines| >= 1
      && IsGreedyWrap(cta, CtaWrapLength(template.value.cta), lines)
      && Join(lines) == cta
      && forall i :: 0 <= i < |lines| ==> Fits(lines[i], CtaWrapLength(template.value.cta))
  {
    match template
    case None => []
    case Some(t) =>
      WrapTextJoin(cta, CtaWrapLength(t.cta));
      WrapTextFits(cta, CtaWrapLength(t.cta));
      WrapTextIsTheGreedyWrap(cta, CtaWrapLength(t.cta), WrapText(cta, CtaWrapLength(t.cta)));
      WrapText(cta, CtaWrapLength(t.cta))
  }

  /** Without a wrap length the button wraps at 20 characters, so the
      default "Shop Now" stays on one line. */
  lemma CtaDefaultWrap(t: Template)
    requires t.cta.wrapLength.None?
    ensures CtaLines(Some(t), "Shop Now") == ["Shop Now"]
  {
    var words := ["Shop", "Now"];
    assert Join(words[1..]) == "Now";
    assert Join(words) == "Shop Now";
    SplitJoin(words);
    assert "Shop" + [Space] + "Now" == "Shop Now";
    assert WrapFrom("Shop Now", [], 20) == ["Shop Now"];
    assert WrapFrom("Shop", ["Now"], 20) == ["Shop Now"];
  }
}
