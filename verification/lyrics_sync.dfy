/** The Compose lyric views (`ui/lyrics/LyricsView.kt`): which line is current
    at a playback position, how lines are classified, the compact two-line view
    and the "Pure Music" placeholder. */
module LyricsSync {
  import opened Wrappers
  import opened LrcParser

  const PLACEHOLDER: string := "Pure Music"

  /** The last line whose time has been reached at `position`; -1 when no line has started. */
  function IndexOfLast(lines: seq<LyricsLine>, position: int): (r: int)
    ensures -1 <= r < |lines|
  {
    if |lines| == 0 then -1
    else if lines[|lines| - 1].timeMs <= position then |lines| - 1
    else IndexOfLast(lines[..|lines| - 1], position)
  }

  /** The last started line, or 0 before the first one starts. */
  function CurrentLineIndex(lines: seq<LyricsLine>, position: int): (r: nat)
    ensures |lines| > 0 ==> r < |lines|
  {
    var i := IndexOfLast(lines, position);
    if i < 0 then 0 else i
  }

  /** The current index is the last line that has started, or 0 when none has. */
  lemma {:induction false} CurrentLineIsLastStarted(lines: seq<LyricsLine>, position: int)
    ensures var r := CurrentLineIndex(lines, position);
            && (forall k :: r < k < |lines| ==> lines[k].timeMs > position)
            && ((exists k :: 0 <= k < |lines| && lines[k].timeMs <= position) ==> lines[r].timeMs <= position)
            && ((forall k :: 0 <= k < |lines| ==> lines[k].timeMs > position) ==> r == 0)
  {
    if |lines| > 0 && lines[|lines| - 1].timeMs > position {
      var p := lines[..|lines| - 1];
      CurrentLineIsLastStarted(p, position);
      assert forall k :: 0 <= k < |p| ==> p[k] == lines[k];
      if exists k :: 0 <= k < |lines| && lines[k].timeMs <= position {
        var k :| 0 <= k < |lines| && lines[k].timeMs <= position;
        assert k < |p| && p[k].timeMs <= position;
      }
    }
  }

  /** On time-sorted lines the current index never moves backwards as playback advances. */
  lemma {:induction false} CurrentLineMonotone(lines: seq<LyricsLine>, p1: int, p2: int)
    requires forall i, j :: 0 <= i < j < |lines| ==> lines[i].timeMs <= lines[j].timeMs
    requires p1 <= p2
    ensures CurrentLineIndex(lines, p1) <= CurrentLineIndex(lines, p2)
  {
    if |lines| > 0 {
      var n := |lines|;
      if lines[n - 1].timeMs > p2 {
        var p := lines[..n - 1];
        assert lines[n - 1].timeMs > p1;
        CurrentLineMonotone(p, p1, p2);
        assert IndexOfLast(lines, p1) == IndexOfLast(p, p1);
        assert IndexOfLast(lines, p2) == IndexOfLast(p, p2);
      }
    }
  }

  /** How `LyricsView` draws a line relative to the current one. */
  datatype Role = Past | Current | Future

  function RoleOf(index: nat, current: nat): (r: Role)
    ensures r == Current <==> index == current
    ensures r == Past <==> index < current
    ensures r == Future <==> index > current
  {
    if index == current then Current else if index < current then Past else Future
  }

  datatype Row = Row(text: string, role: Role)

  /** What the full view shows: the placeholder, or every line with its role, scrolled to the current one. */
  datatype FullView = Placeholder(message: string) | Scrolling(rows: seq<Row>, scrollTo: nat)

  function RenderFull(lyrics: Option<Lyrics>, position: int): (v: FullView)
    ensures lyrics.None? || lyrics.value.lines == [] <==> v == Placeholder(PLACEHOLDER)
    ensures v.Scrolling? ==> |v.rows| == |lyrics.value.lines|
                             && (forall i :: 0 <= i < |v.rows| ==> v.rows[i].text == lyrics.value.lines[i].text)
                             && v.scrollTo < |v.rows|
  {
    if lyrics.None? || lyrics.value.lines == [] then Placeholder(PLACEHOLDER)
    else
      var lines := lyrics.value.lines;
      var cur := CurrentLineIndex(lines, position);
      Scrolling(seq(|lines|, i requires 0 <= i < |lines| => Row(lines[i].text, RoleOf(i, cur))), cur)
  }

  /** With lyrics, exactly one row is current: the one the view scrolls to; rows above it are
      past and rows below are future. */
  lemma ExactlyOneCurrentRow(lyrics: Option<Lyrics>, position: int)
    requires lyrics.Some? && lyrics.value.lines != []
    ensures var v := RenderFull(lyrics, position);
            && v.Scrolling?
            && v.scrollTo == CurrentLineIndex(lyrics.value.lines, position)
            && v.rows[v.scrollTo].role == Current
            && (forall i :: 0 <= i < |v.rows| && i != v.scrollTo ==> v.rows[i].role != Current)
            && (forall i :: 0 <= i < |v.rows| ==> (v.rows[i].role == Past <==> i < v.scrollTo))
  {
  }

  /** `LyricsViewCompact`: the current line and, only if it exists, the next one. */
  datatype CompactView = CompactPlaceholder(message: string) | Compact(current: Option<string>, next: Option<string>)

  function RenderCompact(lyrics: Option<Lyrics>, position: int): (v: CompactView)
    ensures lyrics.None? || lyrics.value.lines == [] <==> v == CompactPlaceholder(PLACEHOLDER)
  {
    if lyrics.None? || lyrics.value.lines == [] then CompactPlaceholder(PLACEHOLDER)
    else
      var lines := lyrics.value.lines;
      var cur := CurrentLineIndex(lines, position);
      Compact(if cur < |lines| then Some(lines[cur].text) else None,
              if cur + 1 < |lines| then Some(lines[cur + 1].text) else None)
  }

  /** The compact view always shows the current line, and the following line exactly when there is one. */
  lemma CompactShowsCurrentAndNext(lyrics: Lyrics, position: int)
    requires lyrics.lines != []
    ensures var cur := CurrentLineIndex(lyrics.lines, position);
            var v := RenderCompact(Some(lyrics), position);
            && v.Compact?
            && v.current == Some(lyrics.lines[cur].text)
            && (v.next.Some? <==> cur + 1 < |lyrics.lines|)
            && (v.next.Some? ==> v.next.value == lyrics.lines[cur + 1].text)
  {
  }
}
