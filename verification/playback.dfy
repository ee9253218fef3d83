/** `AudioPlaybackService.kt`: the play queue, the current index, and what plays next. */
module Playback {
  import opened Wrappers
  import opened Decimal
  import opened Tracks
  import LrcParser

  /** The service's observable state: `audioQueue`, `currentIndex`, `currentTrack`, `currentLyrics`. */
  datatype Service = Service(
    queue: seq<Track>,
    index: int,
    currentTrack: Option<Track>,
    currentLyrics: Option<LrcParser.Lyrics>)

  const INITIAL: Service := Service([], 0, None, None)

  /** How many tracks `loadMusicLibrary` asks the library for. */
  const LIBRARY_LIMIT: nat := 100

  /** The index always names a queue slot once there is a queue. */
  predicate Valid(s: Service) {
    |s.queue| > 0 ==> 0 <= s.index < |s.queue|
  }

  /** `playCurrentTrack`, up to starting the file fetch: a slot outside the queue changes nothing;
      otherwise that track becomes current and the old lyrics are dropped. */
  function PlayCurrentTrack(s: Service): (r: Service)
    ensures r.queue == s.queue && r.index == s.index
    ensures 0 <= s.index < |s.queue| ==> r.currentTrack == Some(s.queue[s.index]) && r.currentLyrics == None
    ensures !(0 <= s.index < |s.queue|) ==> r == s
  {
    if 0 <= s.index < |s.queue| then s.(currentTrack := Some(s.queue[s.index]), currentLyrics := None)
    else s
  }

  /** `playNext`: the index moves one slot on, wrapping to the front; an empty queue makes the
      remainder by zero throw. */
  function PlayNext(s: Service): (r: Result<Service>)
    ensures r.Failure? <==> |s.queue| == 0
    ensures r.Success? && Valid(s) ==>
              Valid(r.value) && r.value.index == (if s.index == |s.queue| - 1 then 0 else s.index + 1) &&
              r.value.currentTrack == Some(s.queue[r.value.index]) && r.value.currentLyrics == None
  {
    if |s.queue| == 0 then Failure("/ by zero")
    else Success(PlayCurrentTrack(s.(index := TRem(s.index + 1, |s.queue|))))
  }

  /** `playPrevious`: one slot back, from the front to the last slot. */
  function PlayPrevious(s: Service): (r: Service)
    ensures Valid(s) ==> Valid(r)
    ensures |s.queue| > 0 && Valid(s) ==>
              r.index == (if s.index == 0 then |s.queue| - 1 else s.index - 1) &&
              r.currentTrack == Some(s.queue[r.index]) && r.currentLyrics == None
    ensures |s.queue| == 0 ==> r == s.(index := if s.index > 0 then s.index - 1 else -1)
  {
    var i := if s.index > 0 then s.index - 1 else |s.queue| - 1;
    PlayCurrentTrack(s.(index := i))
  }

  /** Previous undoes next, and next undoes previous, on any valid non-empty queue. */
  lemma NextPreviousInverse(s: Service)
    requires Valid(s) && |s.queue| > 0
    ensures PlayNext(s).Success? && PlayPrevious(PlayNext(s).value).index == s.index
    ensures PlayNext(PlayPrevious(s)).Success? && PlayNext(PlayPrevious(s)).value.index == s.index
  {
  }

  /** `k` presses of next from slot `i` land on slot `(i + k) % size`. */
  function NextTimes(s: Service, k: nat): Result<Service>
    decreases k
  {
    if k == 0 then Success(s)
    else
      var t :- PlayNext(s);
      NextTimes(t, k - 1)
  }

  lemma {:induction false} NextTimesWraps(s: Service, k: nat)
    requires Valid(s) && |s.queue| > 0
    ensures NextTimes(s, k).Success?
    ensures NextTimes(s, k).value.queue == s.queue
    ensures NextTimes(s, k).value.index == (s.index + k) % |s.queue|
    decreases k
  {
    if k > 0 {
      var t := PlayNext(s).value;
      NextTimesWraps(t, k - 1);
      var n := |s.queue|;
      assert t.index == (s.index + 1) % n by {
        if s.index == n - 1 {
          ModUnique(s.index + 1, 1, 0, n);
        } else {
          ModUnique(s.index + 1, 0, s.index + 1, n);
        }
      }
      ModAddShift(s.index, k, n);
    }
  }

  /** `((i + 1) % n + (k - 1)) % n == (i + k) % n`. */
  lemma ModAddShift(i: int, k: nat, n: int)
    requires n > 0 && k > 0
    ensures ((i + 1) % n + (k - 1)) % n == (i + k) % n
  {
    var q := (i + 1) / n;
    assert i + 1 == q * n + (i + 1) % n;
    assert (i + 1) % n + (k - 1) == (i + k) - q * n;
    ModMinusMultiple(i + k, q, n);
  }

  lemma ModMinusMultiple(a: int, q: int, n: int)
    requires n > 0
    ensures (a - q * n) % n == a % n
  {
    var r := a % n;
    assert a == (a / n) * n + r;
    assert a - q * n == (a / n - q) * n + r;
    ModUnique(a - q * n, a / n - q, r, n);
  }

  /** One step of `Collections.shuffle`: swap slots `a` and `b`. */
  function Swap<T>(s: seq<T>, a: nat, b: nat): (r: seq<T>)
    requires a < |s| && b < |s|
    ensures |r| == |s| && multiset(r) == multiset(s)
  {
    s[a := s[b]][b := s[a]]
  }

  /** The random draws `Random.nextInt(i)` returns, for `i` from the list size down to 2. */
  predicate ValidDraws(size: nat, draws: seq<int>) {
    |draws| == (if size == 0 then 0 else size - 1) &&
    forall k :: 0 <= k < |draws| ==> 0 <= draws[k] < size - k
  }

  /** `shuffled()`: the Fisher–Yates pass of `Collections.shuffle`, slot `i - 1` swapped with a
      drawn slot below `i`, for `i` from the size down to 2. `i` is the loop counter. */
  function ShuffleFrom<T>(s: seq<T>, draws: seq<int>, i: nat): (r: seq<T>)
    requires i <= |s| && ValidDraws(|s|, draws)
    ensures |r| == |s| && multiset(r) == multiset(s)
    decreases i
  {
    if i <= 1 then s
    else ShuffleFrom(Swap(s, i - 1, draws[|s| - i]), draws, i - 1)
  }

  function Shuffled<T>(s: seq<T>, draws: seq<int>): (r: seq<T>)
    requires ValidDraws(|s|, draws)
    ensures |r| == |s| && multiset(r) == multiset(s)
  {
    ShuffleFrom(s, draws, |s|)
  }

  /** `loadMusicLibrary` given what the library returned: an empty load leaves everything as it
      was; otherwise the queue becomes a shuffle of the tracks and its first slot plays. */
  function LoadMusicLibrary(s: Service, tracks: seq<Track>, draws: seq<int>): (r: Service)
    requires |tracks| <= LIBRARY_LIMIT && ValidDraws(|tracks|, draws)
    ensures |tracks| == 0 ==> r == s
    ensures |tracks| > 0 ==>
              |r.queue| == |tracks| && multiset(r.queue) == multiset(tracks) && r.index == 0 &&
              r.currentTrack == Some(r.queue[0]) && r.currentLyrics == None
    ensures Valid(s) ==> Valid(r)
  {
    if |tracks| == 0 then s
    else PlayCurrentTrack(Service(Shuffled(tracks, draws), 0, s.currentTrack, s.currentLyrics))
  }

  /** Player and fetch outcomes the service reacts to. */
  datatype Event =
    | StateReady
    | StateBuffering
    | StateIdle
    | StateEnded
    | PlayerError
    | AudioFileMissing
    | PlaybackStartFailed
    | LyricsLoaded(lyrics: Option<LrcParser.Lyrics>)

  /** The listener and the fetch callbacks: an end, an error or a missing file moves on to the
      next track; loaded lyrics replace the current ones; the other states change nothing. */
  function OnEvent(s: Service, e: Event): (r: Result<Service>)
    ensures e.StateReady? || e.StateBuffering? || e.StateIdle? ==> r == Success(s)
    ensures e.StateEnded? || e.PlayerError? || e.AudioFileMissing? || e.PlaybackStartFailed? ==>
              r == PlayNext(s)
    ensures e.LyricsLoaded? ==>
              r.Success? && r.value.currentLyrics == e.lyrics && r.value.queue == s.queue &&
              r.value.index == s.index && r.value.currentTrack == s.currentTrack
  {
    match e
    case StateReady => Success(s)
    case StateBuffering => Success(s)
    case StateIdle => Success(s)
    case StateEnded => PlayNext(s)
    case PlayerError => PlayNext(s)
    case AudioFileMissing => PlayNext(s)
    case PlaybackStartFailed => PlayNext(s)
    case LyricsLoaded(l) => Success(s.(currentLyrics := l))
  }

  /** Every operation keeps the index inside a non-empty queue. */
  lemma EventsPreserveValid(s: Service, e: Event)
    requires Valid(s)
    ensures OnEvent(s, e).Success? ==> Valid(OnEvent(s, e).value)
  {
  }
}
