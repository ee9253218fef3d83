/** `PlayerScreen.kt`, the TV player: remote keys, the three-row lyric panel, the marquee
    title and the two-line mini lyric display. */
module PlayerScreen {
  import opened Wrappers
  import opened ServerLyrics
  import opened Decimal

  // ---------------------------------------------------------------- remote keys

  datatype KeyType = KeyDown | KeyUp
  datatype Key = DirectionCenter | Enter | DirectionLeft | DirectionRight | OtherKey(code: int)
  datatype Action = PlayPauseToggle | NextTrack | PreviousTrack

  /** `onKeyEvent`: which callback a key runs, and whether the event is consumed. */
  function OnKeyEvent(t: KeyType, k: Key): (r: (bool, Option<Action>))
    ensures r.0 <==> r.1.Some?
    ensures r.0 <==> t == KeyDown && !k.OtherKey?
    ensures r.1 == Some(PlayPauseToggle) <==> t == KeyDown && (k == DirectionCenter || k == Enter)
    ensures r.1 == Some(NextTrack) <==> t == KeyDown && k == DirectionRight
    ensures r.1 == Some(PreviousTrack) <==> t == KeyDown && k == DirectionLeft
  {
    if t != KeyDown then (false, None)
    else
      match k
      case DirectionCenter => (true, Some(PlayPauseToggle))
      case Enter => (true, Some(PlayPauseToggle))
      case DirectionRight => (true, Some(NextTrack))
      case DirectionLeft => (true, Some(PreviousTrack))
      case OtherKey(_) => (false, None)
  }

  // ---------------------------------------------------------------- lyric panel

  function Max(a: int, b: int): int { if a >= b then a else b }
  function Min(a: int, b: int): int { if a <= b then a else b }

  /** First line of the window: the line before the current one, never before 0. */
  function WindowStart(current: Option<int>): nat {
    Max(current.GetOr(0) - 1, 0)
  }

  /** The current index is a Kotlin `Int` and the list's size fits one. */
  predicate InIntRange(lines: seq<LyricsLine>, current: Option<int>) {
    |lines| <= INT_MAX && IsInt(current.GetOr(0))
  }

  /** When the window cannot be cut: the current index two or more lines past the end, or at
      either end of the `Int` range, where one of the window's bounds wraps around. */
  predicate WindowFails(lines: seq<LyricsLine>, current: Option<int>) {
    var ci := current.GetOr(0);
    |lines| > 3 && (ci >= |lines| + 2 || ci == INT_MIN || ci == INT_MAX)
  }

  /** `displayLyrics`: up to three lines all show; beyond that the window from one line before
      the current one, at most three long. The start and end are `Int` arithmetic, so one before
      the smallest index wraps to the largest and two past the largest start wraps to a negative
      end; `subList` throws (None here) when the start runs more than one line past the end. */
  function LyricWindow(lines: seq<LyricsLine>, current: Option<int>): (r: Option<seq<LyricsLine>>)
    requires InIntRange(lines, current)
    ensures |lines| <= 3 ==> r == Some(lines)
    ensures r.Some? ==> |r.value| <= 3
    ensures r.None? <==> WindowFails(lines, current)
    ensures |lines| > 3 && r.Some? ==> WindowStart(current) + |r.value| <= |lines|
    ensures |lines| > 3 && r.Some? ==> |r.value| == Min(3, |lines| - WindowStart(current))
    ensures |lines| > 3 && r.Some? ==>
              forall i :: 0 <= i < |r.value| ==> r.value[i] == lines[WindowStart(current) + i]
  {
    if |lines| <= 3 then Some(lines)
    else
      var ci := current.GetOr(0);
      var start := Max(WrapInt(ci - 1), 0);
      var end := Min(WrapInt(start + 2), |lines| - 1);
      assert ci == INT_MIN ==> start == INT_MAX && end < 0;
      assert ci == INT_MAX ==> start == INT_MAX - 1 && end < 0;
      assert INT_MIN < ci < INT_MAX ==> start == WindowStart(current) && end == Min(start + 2, |lines| - 1);
      if start > end + 1 then None else Some(lines[start..end + 1])
  }

  /** The line used to fill the panel: time 0, no text. */
  const BLANK_LINE: LyricsLine := LyricsLine(0, "")

  /** `paddedLyrics.take(3)`: always exactly three rows, blank lines after the window. */
  function PaddedRows(window: seq<LyricsLine>): (rows: seq<LyricsLine>)
    requires |window| <= 3
    ensures |rows| == 3
    ensures rows[..|window|] == window
    ensures forall i :: |window| <= i < 3 ==> rows[i] == BLANK_LINE
  {
    window + seq(3 - |window|, _ => BLANK_LINE)
  }

  /** The panel: the no-lyrics message, three rows with one row index marked current (possibly
      outside 0..2, marking none), or the exception `subList` throws. */
  datatype LyricsPanel = NoLyrics | Rows(rows: seq<LyricsLine>, highlight: int) | Throws

  /** The highlighted row as the screen computes it: for more than three lines, the current
      index minus that same index, plus one, so the row is always 1. */
  function HighlightAsWritten(lineCount: nat, current: Option<int>): (h: int)
    ensures lineCount > 3 ==> h == 1
  {
    if lineCount <= 3 then current.GetOr(0)
    else Max(current.GetOr(0) - current.GetOr(0) + 1, 0)
  }

  /** The highlighted row the panel is meant to have: the current line's place in the window. */
  function Highlight(lineCount: nat, current: Option<int>): int {
    if lineCount <= 3 then current.GetOr(0)
    else current.GetOr(0) - WindowStart(current)
  }

  function PanelWith(lines: seq<LyricsLine>, current: Option<int>, h: int): LyricsPanel
    requires InIntRange(lines, current)
  {
    if |lines| == 0 then NoLyrics
    else
      match LyricWindow(lines, current)
      case None => Throws
      case Some(w) => Rows(PaddedRows(w), h)
  }

  /** The panel as the screen draws it: the message without lyrics, the exception when the
      window cannot be cut, and otherwise the padded window with the highlight the screen
      computes, which is row 1 whenever there are more than three lines. */
  function LyricsPanelAsWritten(lines: seq<LyricsLine>, current: Option<int>): (p: LyricsPanel)
    requires InIntRange(lines, current)
    ensures |lines| == 0 <==> p.NoLyrics?
    ensures p.Throws? <==> WindowFails(lines, current)
    ensures p.Rows? ==> |p.rows| == 3 && p.rows == PaddedRows(LyricWindow(lines, current).value)
    ensures 0 < |lines| <= 3 ==> p == Rows(PaddedRows(lines), current.GetOr(0))
    ensures |lines| > 3 && p.Rows? ==> p.highlight == 1
  {
    PanelWith(lines, current, HighlightAsWritten(|lines|, current))
  }

  /** The three-row panel with the intended highlight: the current line's place in the
      window. */
  function LyricsPanelView(lines: seq<LyricsLine>, current: Option<int>): (p: LyricsPanel)
    requires InIntRange(lines, current)
    ensures |lines| == 0 <==> p.NoLyrics?
    ensures p.Rows? ==> |p.rows| == 3
    ensures p.Rows? ==> p.highlight == Highlight(|lines|, current)
  {
    PanelWith(lines, current, Highlight(|lines|, current))
  }

  /** The intended panel always shows the current line, on the highlighted row. */
  lemma PanelHighlightsCurrentLine(lines: seq<LyricsLine>, current: Option<int>)
    requires InIntRange(lines, current) && 0 <= current.GetOr(0) < |lines|
    ensures var p := LyricsPanelView(lines, current);
            p.Rows? && 0 <= p.highlight < 3 && p.rows[p.highlight] == lines[current.GetOr(0)]
  {
    var ci := current.GetOr(0);
    if |lines| > 3 {
      var w := LyricWindow(lines, current).value;
      assert ci - WindowStart(current) < |w|;
    }
  }

  /** As written, the panel agrees with the intended one whenever the current line is not the
      first. */
  lemma AsWrittenAgreesPastTheFirstLine(lines: seq<LyricsLine>, current: Option<int>)
    requires InIntRange(lines, current) && (|lines| <= 3 || current.GetOr(0) >= 1)
    ensures LyricsPanelAsWritten(lines, current) == LyricsPanelView(lines, current)
  {
  }

  /** As written, with four lines and the first one current, the second line is highlighted. */
  lemma AsWrittenHighlightsWrongLine()
    ensures var lines := [LyricsLine(0, "a"), LyricsLine(1000, "b"), LyricsLine(2000, "c"),
                          LyricsLine(3000, "d")];
            var p := LyricsPanelAsWritten(lines, Some(0));
            p.Rows? && p.rows[p.highlight] == lines[1] && p.rows[p.highlight] != lines[0]
  {
  }

  /** Each row's text: empty lines print as the note. */
  function RowTexts(rows: seq<LyricsLine>): (texts: seq<string>)
    ensures |texts| == |rows|
    ensures forall i :: 0 <= i < |rows| ==> texts[i] == Shown(rows[i].value) && texts[i] != []
  {
    seq(|rows|, i requires 0 <= i < |rows| => Shown(rows[i].value))
  }

  // ---------------------------------------------------------------- marquee title

  /** `HorizontalMarqueeText`: the text's offset (whole pixels; it only ever moves by 1), the
      direction it moves in, and whether the text is wider than its box. */
  datatype Marquee = Marquee(offset: int, direction: int, needsScrolling: bool)

  const MARQUEE_LIMIT: int := 80

  const MARQUEE_INITIAL: Marquee := Marquee(0, 1, false)

  /** The offset stays within ±80 and is 0 while the text fits, the direction is ±1, and it
      points away from a limit only once the limit is reached. */
  predicate MarqueeInv(m: Marquee) {
    -MARQUEE_LIMIT <= m.offset <= MARQUEE_LIMIT &&
    (!m.needsScrolling ==> m.offset == 0) &&
    (m.direction == 1 || m.direction == -1) &&
    (m.direction == 1 ==> m.offset < MARQUEE_LIMIT) &&
    (m.direction == -1 ==> m.offset > -MARQUEE_LIMIT)
  }

  /** One pass of the animation loop: move by one in the current direction, turn at ±80. */
  function MarqueeTick(m: Marquee): (r: Marquee)
    requires m.needsScrolling
    ensures r.offset == m.offset + (if m.direction == 1 then 1 else -1)
    ensures r.needsScrolling
    ensures MarqueeInv(m) ==> MarqueeInv(r)
  {
    if m.direction == 1 then
      var o := m.offset + 1;
      m.(offset := o, direction := if o >= MARQUEE_LIMIT then -1 else 1)
    else
      var o := m.offset - 1;
      m.(offset := o, direction := if o <= -MARQUEE_LIMIT then 1 else -1)
  }

  datatype MarqueeEvent = Tick | Measured(needsScrolling: bool)

  /** The effect relaunching on a change of `needsScrolling`: when no scrolling is needed the
      text is centred; ticks only run while scrolling. */
  function MarqueeStep(m: Marquee, e: MarqueeEvent): (r: Marquee)
    ensures MarqueeInv(m) ==> MarqueeInv(r)
    ensures e.Measured? && !e.needsScrolling ==> !r.needsScrolling
    ensures e.Measured? && !e.needsScrolling && MarqueeInv(m) ==> r.offset == 0
    ensures e.Tick? && !m.needsScrolling ==> r == m
  {
    match e
    case Tick => if m.needsScrolling then MarqueeTick(m) else m
    case Measured(needs) =>
      if needs == m.needsScrolling then m
      else if needs then m.(needsScrolling := true)
      else m.(needsScrolling := false, offset := 0)
  }

  function RunMarquee(m: Marquee, es: seq<MarqueeEvent>): Marquee
    decreases |es|
  {
    if |es| == 0 then m else RunMarquee(MarqueeStep(m, es[0]), es[1..])
  }

  /** `translationX`: the offset while scrolling, else 0. */
  function Translation(m: Marquee): (x: int)
    ensures !m.needsScrolling ==> x == 0
    ensures MarqueeInv(m) ==> -MARQUEE_LIMIT <= x <= MARQUEE_LIMIT
  {
    if m.needsScrolling then m.offset else 0
  }

  /** From the start, any sequence of ticks and measurements keeps the text within ±80. */
  lemma {:induction false} MarqueeStaysInBounds(m: Marquee, es: seq<MarqueeEvent>)
    requires MarqueeInv(m)
    ensures MarqueeInv(RunMarquee(m, es))
    ensures -MARQUEE_LIMIT <= Translation(RunMarquee(m, es)) <= MARQUEE_LIMIT
    decreases |es|
  {
    if |es| > 0 {
      MarqueeStaysInBounds(MarqueeStep(m, es[0]), es[1..]);
    }
  }

  // ---------------------------------------------------------------- mini display

  /** `LyricsMiniDisplay`: the current line and the next one. */
  function MiniDisplay(lyrics: seq<LyricsLine>, current: Option<int>): (r: (string, string))
    ensures |lyrics| == 0 ==> r == (NO_LYRICS, "")
    ensures |lyrics| > 0 ==> r.0 != []
    ensures |lyrics| > 0 && !(0 <= current.GetOr(0) < |lyrics|) ==> r.0 == NOTE
    ensures |lyrics| > 0 && 0 <= current.GetOr(0) < |lyrics| ==>
              r.0 == Shown(lyrics[current.GetOr(0)].value)
    ensures |lyrics| > 0 && 0 <= current.GetOr(0) + 1 < |lyrics| ==>
              r.1 == Shown(lyrics[current.GetOr(0) + 1].value)
    ensures |lyrics| > 0 && !(0 <= current.GetOr(0) + 1 < |lyrics|) ==> r.1 == ""
  {
    if |lyrics| == 0 then (NO_LYRICS, "")
    else
      var i := current.GetOr(0);
      var first := if 0 <= i < |lyrics| then Shown(lyrics[i].value) else NOTE;
      var second := if 0 <= i + 1 < |lyrics| then Shown(lyrics[i + 1].value) else "";
      (first, second)
  }
}
