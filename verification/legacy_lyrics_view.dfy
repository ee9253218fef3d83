/** The older `View`-based lyrics list (`ui/player/LyricsView.kt`): one text row per line, at
    most one of them highlighted, scrolled to centre the current line. Row geometry comes from
    the layout and is an input. */
module LegacyLyricsView {
  import opened Wrappers
  import opened Decimal
  import opened ServerLyrics

  datatype Color = White | Highlight | Gray

  datatype TextRow = TextRow(text: string, color: Color)

  /** `lyricsLines`, `currentLineIndex`, the child rows and the scroll offset. While there are
      lines, row `i` is the cached view of line `i`; otherwise the only row is the message. */
  datatype View = View(lines: seq<LyricsLine>, current: Option<int>, rows: seq<TextRow>, scrollY: int)

  const NEW_VIEW: View := View([], None, [], 0)

  /** Where each row sits, as laid out: its top and height, and the list's own height. */
  datatype Geometry = Geometry(tops: seq<int>, heights: seq<int>, containerHeight: int)

  /** `textViewCache` holds a view for `i` exactly when `i` indexes a line. */
  predicate HasRow(v: View, i: int) {
    0 <= i < |v.lines|
  }

  /** Exactly the current line's row is highlighted, and only while it exists. */
  ghost predicate Valid(v: View) {
    (|v.lines| > 0 ==> |v.rows| == |v.lines|) &&
    (|v.lines| == 0 ==> |v.rows| <= 1) &&
    forall i :: 0 <= i < |v.rows| ==> (v.rows[i].color == Highlight <==> HasRow(v, i) && v.current == Some(i))
  }

  /** `setLyrics`: forgets the current line and rebuilds the rows, one white row per line with
      empty text shown as a note, or the grey "暂无歌词" message when there are no lines. */
  function SetLyrics(v: View, lines: seq<LyricsLine>): (r: View)
    ensures r.lines == lines && r.current.None? && r.scrollY == v.scrollY
    ensures |lines| == 0 ==> r.rows == [TextRow(NO_LYRICS, Gray)]
    ensures |lines| > 0 ==> |r.rows| == |lines|
    ensures |lines| > 0 ==> forall i :: 0 <= i < |lines| ==> r.rows[i] == TextRow(Shown(lines[i].value), White)
    ensures Valid(r)
  {
    if |lines| == 0 then View(lines, None, [TextRow(NO_LYRICS, Gray)], v.scrollY)
    else View(lines, None, seq(|lines|, i requires 0 <= i < |lines| => TextRow(Shown(lines[i].value), White)),
              v.scrollY)
  }

  /** `scrollToCenter`'s target: the row's middle at the list's middle, never above the top. */
  function ScrollTarget(top: int, height: int, containerHeight: int): (y: int)
    ensures y >= 0
  {
    var y := top - TDiv(containerHeight, 2) + TDiv(height, 2);
    if y < 0 then 0 else y
  }

  /** Unless clamped at the top, the row's centre lies within half a pixel of the visible
      area's centre (both doubled here to stay in whole pixels). */
  lemma ScrollCentresRow(top: int, height: int, containerHeight: int)
    requires height >= 0 && containerHeight >= 0
    requires top - TDiv(containerHeight, 2) + TDiv(height, 2) >= 0
    ensures var y := ScrollTarget(top, height, containerHeight);
            -2 <= (2 * top + height) - (2 * y + containerHeight) <= 2
  {
  }

  /** `setCurrentLine`: nothing happens when the index is already current; otherwise the old
      row turns white, the new one is highlighted and scrolled to, each only when it exists. */
  function SetCurrentLine(v: View, index: Option<int>, g: Geometry): (r: View)
    requires Valid(v)
    requires |g.tops| == |g.heights| == |v.lines|
    ensures v.current == index ==> r == v
    ensures r.current == index && r.lines == v.lines && |r.rows| == |v.rows|
    ensures forall i :: 0 <= i < |v.rows| ==> r.rows[i].text == v.rows[i].text
    ensures index.Some? && HasRow(v, index.value) && v.current != index ==>
              r.scrollY == ScrollTarget(g.tops[index.value], g.heights[index.value], g.containerHeight)
    ensures !(index.Some? && HasRow(v, index.value)) ==> r.scrollY == v.scrollY
  {
    if v.current == index then v
    else
      var rows1 := if v.current.Some? && HasRow(v, v.current.value)
                   then v.rows[v.current.value := v.rows[v.current.value].(color := White)]
                   else v.rows;
      if index.Some? && HasRow(v, index.value) then
        var i := index.value;
        View(v.lines, index, rows1[i := rows1[i].(color := Highlight)],
             ScrollTarget(g.tops[i], g.heights[i], g.containerHeight))
      else View(v.lines, index, rows1, v.scrollY)
  }

  /** At most one row is ever highlighted: the current line's. */
  lemma SetCurrentLineKeepsOneHighlight(v: View, index: Option<int>, g: Geometry)
    requires Valid(v) && |g.tops| == |g.heights| == |v.lines|
    ensures Valid(SetCurrentLine(v, index, g))
    ensures forall i, j :: 0 <= i < j < |v.rows| ==>
              !(SetCurrentLine(v, index, g).rows[i].color == Highlight &&
                SetCurrentLine(v, index, g).rows[j].color == Highlight)
  {
  }

  /** A view that a row's click handler can find as a parent: the lyrics view itself, which
      does not implement `LyricsInteractionListener`, or some other view, which may. */
  datatype ParentView = TheLyricsView | OtherView(listens: bool)

  function IsListener(p: ParentView): bool {
    p.OtherView? && p.listens
  }

  /** A click on row `i` with the listener looked up on `p`: the line's start when `p` listens
      and the line exists, otherwise nothing. */
  function ClickVia(v: View, i: int, p: ParentView): (seek: Option<int>)
    ensures seek.Some? <==> IsListener(p) && 0 <= i < |v.lines|
    ensures seek.Some? ==> seek.value == v.lines[i].start
  {
    if IsListener(p) && 0 <= i < |v.lines| then Some(v.lines[i].start) else None
  }

  /** Clicking row `i` as written: the handler is set inside the row's own `apply` block, so
      `parent` is the row's parent, the lyrics view itself. That view is not a listener, so
      no click ever seeks. */
  function Click(v: View, i: int): (seek: Option<int>)
    ensures seek.None?
  {
    ClickVia(v, i, TheLyricsView)
  }

  /** The click as meant: the listener looked up on the lyrics view's own parent. */
  function ClickIntended(v: View, i: int, viewParent: ParentView): (seek: Option<int>)
    ensures seek.Some? <==> IsListener(viewParent) && 0 <= i < |v.lines|
    ensures seek.Some? ==> seek.value == v.lines[i].start
  {
    ClickVia(v, i, viewParent)
  }

  /** Even inside a listening parent, a click on an existing line seeks as meant and does
      nothing as written. */
  lemma ClickIgnoresListeningParent(v: View, i: int, viewParent: ParentView)
    requires IsListener(viewParent) && 0 <= i < |v.lines|
    ensures ClickIntended(v, i, viewParent) == Some(v.lines[i].start)
    ensures Click(v, i) == None
  {
  }
}
