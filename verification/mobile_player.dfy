/** `MobilePlayerScreen.kt`, the phone player: vertical swipes between tracks, the content
    transition, and where the album cover comes from. */
module MobilePlayer {
  import opened Wrappers
  import opened Tracks

  // ---------------------------------------------------------------- swipe gesture

  /** `verticalDragOffset` and `isDragging`. */
  datatype Drag = Drag(offset: real, dragging: bool)

  const DRAG_INITIAL: Drag := Drag(0.0, false)

  datatype Swipe = SwipePrevious | SwipeNext

  function Abs(x: real): real { if x < 0.0 then -x else x }

  /** `onDragStart`: dragging begins from offset 0. */
  function DragStart(d: Drag): (r: Drag)
    ensures r.dragging && r.offset == 0.0
  {
    Drag(0.0, true)
  }

  /** A drag step: only the vertical component accumulates. */
  function DragBy(d: Drag, dx: real, dy: real): (r: Drag)
    ensures r.offset - d.offset == dy && r.dragging == d.dragging
  {
    d.(offset := d.offset + dy)
  }

  /** `onDragEnd`: beyond the threshold a downward swipe goes back and an upward one goes on,
      at most one of them; then the offset resets. */
  function DragEnd(d: Drag, threshold: real): (r: (Drag, Option<Swipe>))
    ensures r.0 == Drag(0.0, false)
    ensures r.1 == Some(SwipePrevious) <==> Abs(d.offset) > threshold && d.offset > 0.0
    ensures r.1 == Some(SwipeNext) <==> Abs(d.offset) > threshold && d.offset <= 0.0
    ensures r.1.None? <==> Abs(d.offset) <= threshold
  {
    var action := if Abs(d.offset) > threshold then
                    (if d.offset > 0.0 then Some(SwipePrevious) else Some(SwipeNext))
                  else None;
    (Drag(0.0, false), action)
  }

  /** `Math.round` of a float: the nearest integer, halves upward. */
  function RoundToInt(x: real): (n: int)
    ensures n as real - 0.5 <= x < n as real + 0.5
  {
    (x + 0.5).Floor
  }

  /** `totalOffsetY`: content follows the finger only while dragging. */
  function ContentOffset(d: Drag): (y: int)
    ensures !d.dragging ==> y == 0
    ensures d.dragging ==> y as real - 0.5 <= d.offset < y as real + 0.5
  {
    if d.dragging then RoundToInt(d.offset) else 0
  }

  /** The gesture's events. `Cancel` is a gesture the system takes away (another consumer,
      the pointer leaving): the screen passes no `onDragCancel`, so it changes nothing. */
  datatype DragEvent = Start | Move(dx: real, dy: real) | End | Cancel

  /** One event as the screen's handlers take it, with the swipe an end decides. */
  function OnDrag(d: Drag, e: DragEvent, threshold: real): (r: (Drag, Option<Swipe>))
    ensures e.Cancel? ==> r == (d, None)
    ensures e.Start? ==> r.0.dragging && r.0.offset == 0.0 && r.1.None?
    ensures e.Move? ==> r.0.offset == d.offset + e.dy && r.0.dragging == d.dragging && r.1.None?
    ensures e.End? ==> !r.0.dragging && r.0.offset == 0.0
    ensures e.End? ==> r == DragEnd(d, threshold)
  {
    match e
    case Start => (DragStart(d), None)
    case Move(dx, dy) => (DragBy(d, dx, dy), None)
    case End => DragEnd(d, threshold)
    case Cancel => (d, None)
  }

  /** The cancel handler as meant: drop the gesture like an end that swipes nowhere. */
  function OnDragCancelIntended(d: Drag): (r: Drag)
    ensures r == DRAG_INITIAL && ContentOffset(r) == 0
  {
    Drag(0.0, false)
  }

  /** As written, a gesture cancelled after moving leaves the content displaced by the rounded
      distance travelled, and the offset stays until the next drag starts. */
  lemma CancelLeavesContentDisplaced(d: Drag, moves: seq<DragEvent>, threshold: real)
    requires forall i :: 0 <= i < |moves| ==> moves[i].Move?
    ensures var r := OnDrag(ApplyMoves(DragStart(d), moves), Cancel, threshold);
            r.1.None? && r.0.dragging && ContentOffset(r.0) == RoundToInt(DyTotal(moves))
  {
    MovesAccumulate(DragStart(d), moves);
  }

  /** Concretely: a 100-pixel downward drag that is cancelled keeps the content 100 pixels
      down, where the intended handler puts it back at 0. */
  lemma CancelledDragStaysDisplaced()
    ensures var d := ApplyMoves(DragStart(DRAG_INITIAL), [Move(0.0, 100.0)]);
            ContentOffset(OnDrag(d, Cancel, 50.0).0) == 100 &&
            ContentOffset(OnDragCancelIntended(d)) == 0
  {
    MovesAccumulate(DragStart(DRAG_INITIAL), [Move(0.0, 100.0)]);
  }

  /** One gesture: the swipe decided at its end is decided by the sum of its vertical moves. */
  function DyTotal(moves: seq<DragEvent>): real
    decreases |moves|
  {
    if |moves| == 0 then 0.0
    else (if moves[0].Move? then moves[0].dy else 0.0) + DyTotal(moves[1..])
  }

  function ApplyMoves(d: Drag, moves: seq<DragEvent>): Drag
    requires forall i :: 0 <= i < |moves| ==> moves[i].Move?
    decreases |moves|
  {
    if |moves| == 0 then d else ApplyMoves(DragBy(d, moves[0].dx, moves[0].dy), moves[1..])
  }

  lemma {:induction false} MovesAccumulate(d: Drag, moves: seq<DragEvent>)
    requires forall i :: 0 <= i < |moves| ==> moves[i].Move?
    ensures ApplyMoves(d, moves).offset == d.offset + DyTotal(moves)
    ensures ApplyMoves(d, moves).dragging == d.dragging
    decreases |moves|
  {
    if |moves| > 0 {
      MovesAccumulate(DragBy(d, moves[0].dx, moves[0].dy), moves[1..]);
    }
  }

  /** A whole gesture, start, moves, end, swipes by the vertical distance travelled alone,
      whatever came before, and leaves the content at rest. */
  lemma GestureDecidesOnDy(d: Drag, moves: seq<DragEvent>, threshold: real)
    requires forall i :: 0 <= i < |moves| ==> moves[i].Move?
    ensures var r := DragEnd(ApplyMoves(DragStart(d), moves), threshold);
            r.0 == DRAG_INITIAL && ContentOffset(r.0) == 0 &&
            (r.1.None? <==> Abs(DyTotal(moves)) <= threshold) &&
            (r.1 == Some(SwipePrevious) <==> Abs(DyTotal(moves)) > threshold && DyTotal(moves) > 0.0)
  {
    MovesAccumulate(DragStart(d), moves);
  }

  // ---------------------------------------------------------------- content transition

  /** The animated content's key: the track id and the theme name. */
  datatype ContentKey = ContentKey(trackId: Option<string>, themeName: string)

  datatype Transition = Slide | Fade

  /** `transitionSpec`: a new key animates, sliding when the track changed and only fading
      when just the theme did. An unchanged key does not animate. */
  function TransitionFor(initial: ContentKey, target: ContentKey): (r: Option<Transition>)
    ensures r.None? <==> initial == target
    ensures r == Some(Slide) <==> initial.trackId != target.trackId
    ensures r == Some(Fade) <==> initial.trackId == target.trackId && initial.themeName != target.themeName
  {
    if initial == target then None
    else if initial.trackId != target.trackId then Some(Slide)
    else Some(Fade)
  }

  // ---------------------------------------------------------------- album cover

  /** The cover's remembered state: `imageUrl` and `showDefault`. */
  datatype ArtState = ArtState(imageUrl: Option<string>, showDefault: bool)

  /** What the cover box shows. `Nothing` is a failed load that drew neither an image nor the
      default cover. */
  datatype Cover = Embedded | Remote(url: string) | DefaultCover | Nothing

  /** The state a track starts with: the album URL, else the artist URL. */
  function InitialArt(t: Track): (s: ArtState)
    ensures s.imageUrl == (if t.albumArtUrl.Some? then t.albumArtUrl else t.artistImageUrl)
    ensures !s.showDefault
  {
    ArtState(if t.albumArtUrl.Some? then t.albumArtUrl else t.artistImageUrl, false)
  }

  /** The error branch as written: on the album URL with an artist URL present, switch to the
      artist URL; otherwise give up to the default cover. It runs only while a URL is being
      loaded, that is, while there is one and the default cover is not shown. */
  function OnLoadErrorAsWritten(t: Track, s: ArtState): (r: ArtState)
    requires s.imageUrl.Some? && !s.showDefault
    ensures s.imageUrl == t.albumArtUrl && t.artistImageUrl.Some? ==> r == s.(imageUrl := t.artistImageUrl)
    ensures !(s.imageUrl == t.albumArtUrl && t.artistImageUrl.Some?) ==> r == s.(showDefault := true)
    ensures r == s <==> s.imageUrl == t.albumArtUrl && s.imageUrl == t.artistImageUrl
  {
    if s.imageUrl == t.albumArtUrl && t.artistImageUrl.Some? then s.(imageUrl := t.artistImageUrl)
    else s.(showDefault := true)
  }

  /** The error branch as meant: switch only to a different URL, otherwise the default. */
  function OnLoadError(t: Track, s: ArtState): (r: ArtState)
    requires s.imageUrl.Some? && !s.showDefault
    ensures r != s
    ensures r.showDefault || (r.imageUrl == t.artistImageUrl && s.imageUrl == t.albumArtUrl)
  {
    if s.imageUrl == t.albumArtUrl && t.artistImageUrl.Some? && t.artistImageUrl != s.imageUrl then
      s.(imageUrl := t.artistImageUrl)
    else s.(showDefault := true)
  }

  /** The cover shown. `decodes` says whether the embedded bytes decode to a bitmap and
      `failed` whether the current URL's load has failed. */
  function CoverOf(track: Option<Track>, decodes: bool, s: ArtState, failed: bool): (c: Cover)
    ensures track.None? ==> c == DefaultCover
    ensures track.Some? && track.value.albumArtData.Some? && decodes ==> c == Embedded
    ensures c.Remote? ==> s.imageUrl == Some(c.url) && !s.showDefault && !failed
    ensures track.Some? && !(track.value.albumArtData.Some? && decodes) ==>
              (c == DefaultCover <==> s.showDefault || s.imageUrl.None?)
  {
    if track.None? then DefaultCover
    else if track.value.albumArtData.Some? && decodes then Embedded
    else if s.showDefault || s.imageUrl.None? then DefaultCover
    else if failed then Nothing
    else Remote(s.imageUrl.value)
  }

  /** Priority: decodable embedded art, then the album URL, then the artist URL, then the
      default cover. */
  lemma CoverPriority(t: Track, decodes: bool)
    ensures var c := CoverOf(Some(t), decodes, InitialArt(t), false);
            (t.albumArtData.Some? && decodes ==> c == Embedded) &&
            (!(t.albumArtData.Some? && decodes) ==>
               (t.albumArtUrl.Some? ==> c == Remote(t.albumArtUrl.value)) &&
               (t.albumArtUrl.None? && t.artistImageUrl.Some? ==> c == Remote(t.artistImageUrl.value)) &&
               (t.albumArtUrl.None? && t.artistImageUrl.None? ==> c == DefaultCover))
  {
  }

  /** With the intended error branch, failed loads walk album URL, artist URL, default cover:
      after at most two failures the default cover shows. */
  lemma FallbackReachesDefault(t: Track)
    requires t.albumArtData.None? && InitialArt(t).imageUrl.Some?
    ensures var s1 := OnLoadError(t, InitialArt(t));
            CoverOf(Some(t), false, s1, true) == DefaultCover ||
            (s1.imageUrl == t.artistImageUrl && s1.imageUrl.Some? && !s1.showDefault &&
             CoverOf(Some(t), false, OnLoadError(t, s1), true) == DefaultCover)
    ensures t.albumArtUrl.Some? && t.artistImageUrl.Some? && t.albumArtUrl != t.artistImageUrl ==>
              OnLoadError(t, InitialArt(t)) == ArtState(t.artistImageUrl, false)
  {
  }

  /** As written, an album URL equal to the artist URL makes every failure a no-op: the box
      keeps the failed load and never shows the default cover. */
  lemma AsWrittenSameUrlNeverFallsBack(t: Track)
    requires t.albumArtData.None? && t.albumArtUrl.Some? && t.albumArtUrl == t.artistImageUrl
    ensures OnLoadErrorAsWritten(t, InitialArt(t)) == InitialArt(t)
    ensures CoverOf(Some(t), false, OnLoadErrorAsWritten(t, InitialArt(t)), true) == Nothing
  {
  }

  /** Where the album and artist URLs differ, the two error branches agree. */
  lemma AsWrittenAgreesOnDistinctUrls(t: Track, s: ArtState)
    requires t.albumArtUrl != t.artistImageUrl
    requires s.imageUrl.Some? && !s.showDefault
    ensures OnLoadErrorAsWritten(t, s) == OnLoadError(t, s)
  {
  }
}
