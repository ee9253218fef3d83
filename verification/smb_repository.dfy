/** `SmbMusicRepository.kt`: turns scanned share files into tracks, fetches audio through the
    local cache and finds lyrics, remembering what it found. The share's file contents, what
    metadata extraction yields for a file, and the clock are inputs. */
module SmbRepository {
  import opened Wrappers
  import opened KotlinText
  import opened Decimal
  import opened JavaHash
  import opened Tracks
  import opened AudioCache
  import opened LrcParser
  import opened SmbScanner

  /** The `AudioMetadata` fields the repository reads. */
  datatype AudioMetadata = AudioMetadata(
    title: Option<string>,
    artist: Option<string>,
    album: Option<string>,
    albumArtData: Option<seq<Byte>>,
    embeddedLyrics: Option<string>)

  /** A share file that `openInputStream` can open: how copying it ends, and its text. */
  datatype Content = Content(copy: Copy, text: string)

  /** The share as the repository sees it: the openable files, the paths `fileExists` accepts,
      and what `extractFromFile` yields for each path's cached copy (null when absent). */
  datatype Share = Share(files: map<string, Content>, existing: set<string>,
                         metadata: map<string, AudioMetadata>)

  /** The local cache directory, `metadataCache` and `lyricsCache`. */
  datatype Repository = Repository(
    dir: seq<CachedFile>,
    metadataCache: map<string, AudioMetadata>,
    lyricsCache: map<string, Option<Lyrics>>)

  const DEFAULT_LIBRARY_LIMIT: int := 100

  /** The cache-first fetch shared by `extractTrackInfo` and `getAudioFile`: the cached file when
      there is one, else the share file copied into the cache. `streamOpened` tells whether a stream on
      the share was asked for. */
  datatype Fetch = Fetch(dir: seq<CachedFile>, file: Option<string>, streamOpened: bool)

  function FetchAudio(dir: seq<CachedFile>, share: Share, smbPath: string, now: int): (f: Fetch)
    ensures GetCachedFile(dir, smbPath).Some? ==>
              f == Fetch(dir, GetCachedFile(dir, smbPath), false)
    ensures GetCachedFile(dir, smbPath).None? ==> f.streamOpened
    ensures f.file.Some? ==> f.file.value == CacheFileName(smbPath) &&
                             GetCachedFile(f.dir, smbPath) == f.file
    ensures f.file.None? ==> smbPath !in share.files || !share.files[smbPath].copy.Complete?
  {
    var hit := GetCachedFile(dir, smbPath);
    if hit.Some? then Fetch(dir, hit, false)
    else if smbPath !in share.files then Fetch(dir, None, true)
    else
      var r := CacheAudioFile(dir, smbPath, share.files[smbPath].copy, now);
      CacheThenGet(dir, smbPath, share.files[smbPath].copy, now);
      Fetch(r.0, r.1, true)
  }

  function Lookup<K, V>(m: map<K, V>, k: K): Option<V> {
    if k in m then Some(m[k]) else None
  }

  /** `extractTrackInfo`: null when the audio cannot be cached; otherwise a track named by its
      tags, falling back to the file name and to "Unknown Artist"/"Unknown Album". */
  function ExtractTrackInfo(repo: Repository, share: Share, smbPath: string, fileName: string, now: int)
    : (r: (Repository, Option<Track>))
    ensures r.1.Some? ==> r.1.value.filePath == Some(smbPath) && r.1.value.albumArtUrl.None?
    ensures r.1.Some? ==> ParseLong(r.1.value.id) == Some(HashCode(smbPath))
    ensures r.1.Some? <==> FetchAudio(repo.dir, share, smbPath, now).file.Some?
    ensures r.0.lyricsCache == repo.lyricsCache
  {
    var f := FetchAudio(repo.dir, share, smbPath, now);
    if f.file.None? then (repo.(dir := f.dir), None)
    else
      var meta := Lookup(share.metadata, smbPath);
      var cache := if meta.Some? then repo.metadataCache[smbPath := meta.value] else repo.metadataCache;
      var title := if meta.Some? && meta.value.title.Some? then meta.value.title.value
                   else SubstringBeforeLast(fileName, '.');
      var artist := if meta.Some? && meta.value.artist.Some? then meta.value.artist.value
                    else "Unknown Artist";
      var album := if meta.Some? && meta.value.album.Some? then meta.value.album.value
                   else "Unknown Album";
      var art := if meta.Some? then meta.value.albumArtData else None;
      LongRoundTrip(HashCode(smbPath));
      (Repository(f.dir, cache, repo.lyricsCache),
       Some(Track(LongToString(HashCode(smbPath)), title, artist, album, None, None, Some(smbPath), art)))
  }

  /** The title, artist and album come from the tags when present and otherwise from the fixed
      fallbacks; the embedded picture is carried over. */
  lemma TrackNaming(repo: Repository, share: Share, smbPath: string, fileName: string, now: int)
    requires ExtractTrackInfo(repo, share, smbPath, fileName, now).1.Some?
    ensures var t := ExtractTrackInfo(repo, share, smbPath, fileName, now).1.value;
            var meta := Lookup(share.metadata, smbPath);
            (meta.Some? && meta.value.title.Some? ==> t.title == meta.value.title.value) &&
            (meta.None? || meta.value.title.None? ==>
               t.title == SubstringBeforeLast(fileName, '.') &&
               ('.' in fileName ==> fileName == t.title + "." + SubstringAfterLast(fileName, '.')) &&
               ('.' !in fileName ==> t.title == fileName)) &&
            (meta.Some? && meta.value.artist.Some? ==> t.artist == meta.value.artist.value) &&
            (meta.None? || meta.value.artist.None? ==> t.artist == "Unknown Artist") &&
            (meta.Some? && meta.value.album.Some? ==> t.album == meta.value.album.value) &&
            (meta.None? || meta.value.album.None? ==> t.album == "Unknown Album") &&
            (meta.Some? ==> t.albumArtData == meta.value.albumArtData)
  {
    var meta := Lookup(share.metadata, smbPath);
    if meta.None? || meta.value.title.None? {
      SplitAtLast(fileName, '.');
    }
  }

  /** `xs` is `ys` with some elements left out, order kept. */
  ghost predicate Subsequence<T>(xs: seq<T>, ys: seq<T>)
    decreases |ys|
  {
    if |xs| == 0 then true
    else if |ys| == 0 then false
    else (xs[0] == ys[0] && Subsequence(xs[1..], ys[1..])) || Subsequence(xs, ys[1..])
  }

  function SomePaths(files: seq<SmbAudioFile>): seq<Option<string>> {
    if |files| == 0 then [] else [Some(files[0].path)] + SomePaths(files[1..])
  }

  function PathsOfTracks(tracks: seq<Track>): seq<Option<string>> {
    if |tracks| == 0 then [] else [tracks[0].filePath] + PathsOfTracks(tracks[1..])
  }

  /** Every track's id parses back to the hash of its file path. */
  ghost predicate IdsNamePaths(tracks: seq<Track>) {
    forall i :: 0 <= i < |tracks| ==>
      tracks[i].filePath.Some? && ParseLong(tracks[i].id) == Some(HashCode(tracks[i].filePath.value))
  }

  /** `loadMusicLibrary` after the scan: each file in scan order becomes a track unless it cannot
      be cached, in which case it is dropped. */
  function LoadFiles(repo: Repository, share: Share, files: seq<SmbAudioFile>, now: int)
    : (r: (Repository, seq<Track>))
    ensures |r.1| <= |files|
    ensures Subsequence(PathsOfTracks(r.1), SomePaths(files))
    ensures IdsNamePaths(r.1)
    ensures r.0.lyricsCache == repo.lyricsCache
    decreases |files|
  {
    if |files| == 0 then (repo, [])
    else
      var one := ExtractTrackInfo(repo, share, files[0].path, files[0].name, now);
      var rest := LoadFiles(one.0, share, files[1..], now);
      if one.1.Some? then
        var tracks := [one.1.value] + rest.1;
        assert tracks[1..] == rest.1;
        (rest.0, tracks)
      else
        (rest.0, rest.1)
  }

  /** The states a stateful step passes through over `xs`: each element is handled in the
      state the previous one left. */
  function StatesAlong<S, A, B>(s: S, xs: seq<A>, step: (S, A) -> (S, Option<B>)): (states: seq<S>)
    ensures |states| == |xs| + 1 && states[0] == s
    ensures forall k :: 0 <= k < |xs| ==> states[k + 1] == step(states[k], xs[k]).0
    decreases |xs|
  {
    if |xs| == 0 then [s]
    else
      var rest := StatesAlong(step(s, xs[0]).0, xs[1..], step);
      assert forall k :: 1 <= k < |xs| ==> xs[k] == xs[1..][k - 1];
      [s] + rest
  }

  /** What each element maps to, in the state it is handled in. */
  function Outputs<S, A, B>(s: S, xs: seq<A>, step: (S, A) -> (S, Option<B>)): (os: seq<Option<B>>)
    ensures |os| == |xs|
  {
    var states := StatesAlong(s, xs, step);
    seq(|xs|, k requires 0 <= k < |xs| => step(states[k], xs[k]).1)
  }

  lemma OutputsCons<S, A, B>(s: S, xs: seq<A>, step: (S, A) -> (S, Option<B>))
    requires |xs| > 0
    ensures Outputs(s, xs, step) == [step(s, xs[0]).1] + Outputs(step(s, xs[0]).0, xs[1..], step)
  {
    var states := StatesAlong(s, xs, step);
    assert states[1..] == StatesAlong(step(s, xs[0]).0, xs[1..], step);
    var os, rest := Outputs(s, xs, step), Outputs(step(s, xs[0]).0, xs[1..], step);
    forall k | 0 <= k < |rest|
      ensures os[k + 1] == rest[k]
    {
      assert xs[k + 1] == xs[1..][k] && states[k + 1] == states[1..][k];
    }
    assert os == [step(s, xs[0]).1] + rest;
  }

  /** Converting one scanned file, as `mapIndexedNotNull` does for each in turn. */
  function ConvertStep(share: Share, now: int): (Repository, SmbAudioFile) -> (Repository, Option<Track>) {
    (repo: Repository, f: SmbAudioFile) => ExtractTrackInfo(repo, share, f.path, f.name, now)
  }

  /** What each scanned file converts to, null for one that cannot be cached. */
  function Conversions(repo: Repository, share: Share, files: seq<SmbAudioFile>, now: int)
    : (cs: seq<Option<Track>>)
    ensures |cs| == |files|
  {
    Outputs(repo, files, ConvertStep(share, now))
  }

  /** `mapIndexedNotNull`: the library is the scanned files' conversions in scan order, with
      exactly the failed ones left out. */
  lemma {:induction false} LoadFilesMatchesReference(repo: Repository, share: Share, files: seq<SmbAudioFile>, now: int)
    ensures LoadFiles(repo, share, files, now).1 == Somes(Conversions(repo, share, files, now))
    decreases |files|
  {
    if |files| > 0 {
      var step := ConvertStep(share, now);
      var one := step(repo, files[0]);
      LoadFilesMatchesReference(one.0, share, files[1..], now);
      OutputsCons(repo, files, step);
      SomesCons(one.1, Conversions(one.0, share, files[1..], now));
    }
  }

  /** In particular a file is dropped only when it cannot be cached: when every file's
      conversion succeeds in its turn, every file becomes a track. */
  lemma LoadFilesKeepsCachedFiles(repo: Repository, share: Share, files: seq<SmbAudioFile>, now: int)
    requires forall k :: 0 <= k < |files| ==> Conversions(repo, share, files, now)[k].Some?
    ensures |LoadFiles(repo, share, files, now).1| == |files|
  {
    LoadFilesMatchesReference(repo, share, files, now);
    AllSomes(Conversions(repo, share, files, now));
  }

  /** `loadMusicLibrary(limit)`: scan, then convert. */
  function LoadMusicLibrary(repo: Repository, share: Share, root: seq<Entry>, limit: int, now: int)
    : (r: (Repository, seq<Track>))
    ensures |r.1| <= |ScanForAudioFiles(root, limit, share.existing)|
    ensures |r.1| <= if limit < 0 then 0 else limit
  {
    LoadFiles(repo, share, ScanForAudioFiles(root, limit, share.existing), now)
  }

  /** `getAudioFile`: null without a file path; otherwise the cache-first fetch. */
  function GetAudioFile(repo: Repository, share: Share, track: Track, now: int)
    : (r: (Repository, Option<string>, bool))
    ensures track.filePath.None? ==> r == (repo, None, false)
    ensures track.filePath.Some? && GetCachedFile(repo.dir, track.filePath.value).Some? ==>
              r == (repo, GetCachedFile(repo.dir, track.filePath.value), false)
    ensures r.1.Some? ==> GetCachedFile(r.0.dir, track.filePath.value) == r.1
  {
    if track.filePath.None? then (repo, None, false)
    else
      var f := FetchAudio(repo.dir, share, track.filePath.value, now);
      (repo.(dir := f.dir), f.file, f.streamOpened)
  }

  /** The external lyrics file next to an audio file. */
  function LrcPathOf(smbPath: string): string {
    SubstringBeforeLast(smbPath, '.') + ".lrc"
  }

  /** `getLyrics`: a remembered answer, remembered null included, is returned as it is;
      otherwise embedded lyrics win over the `.lrc` file, and whatever is found, null when
      nothing is, is remembered. */
  function GetLyrics(repo: Repository, share: Share, track: Track): (r: (Repository, Option<Lyrics>))
    ensures track.filePath.None? ==> r == (repo, None)
    ensures track.filePath.Some? && track.filePath.value in repo.lyricsCache ==>
              r == (repo, repo.lyricsCache[track.filePath.value])
    ensures track.filePath.Some? ==>
              r.0 == repo.(lyricsCache := repo.lyricsCache[track.filePath.value := r.1])
  {
    match track.filePath
    case None => (repo, None)
    case Some(path) =>
      if path in repo.lyricsCache then (repo, repo.lyricsCache[path])
      else
        var meta := Lookup(repo.metadataCache, path);
        var found :=
          if meta.Some? && meta.value.embeddedLyrics.Some? then Some(Parse(meta.value.embeddedLyrics.value))
          else if LrcPathOf(path) in share.existing && LrcPathOf(path) in share.files then
            Some(Parse(share.files[LrcPathOf(path)].text))
          else None;
        (repo.(lyricsCache := repo.lyricsCache[path := found]), found)
  }

  /** Asking twice gives the same answer and changes nothing the second time, whatever the
      share holds by then. */
  lemma GetLyricsIsMemoised(repo: Repository, share: Share, later: Share, track: Track)
    ensures var first := GetLyrics(repo, share, track);
            GetLyrics(first.0, later, track) == first
  {
  }

  /** Where a fresh lookup's answer comes from: embedded lyrics if the file's tags had any,
      else the `.lrc` file if it exists and opens, else nothing. */
  lemma LyricsSourceOrder(repo: Repository, share: Share, track: Track)
    requires track.filePath.Some? && track.filePath.value !in repo.lyricsCache
    ensures var path := track.filePath.value;
            var meta := Lookup(repo.metadataCache, path);
            var r := GetLyrics(repo, share, track).1;
            (meta.Some? && meta.value.embeddedLyrics.Some? ==> r == Some(Parse(meta.value.embeddedLyrics.value))) &&
            (!(meta.Some? && meta.value.embeddedLyrics.Some?) ==>
               (r.Some? <==> LrcPathOf(path) in share.existing && LrcPathOf(path) in share.files))
  {
  }

  /** Track conversion records the tags that `getLyrics` later consults. */
  lemma ExtractRecordsMetadata(repo: Repository, share: Share, smbPath: string, fileName: string, now: int)
    requires ExtractTrackInfo(repo, share, smbPath, fileName, now).1.Some?
    requires smbPath in share.metadata
    ensures Lookup(ExtractTrackInfo(repo, share, smbPath, fileName, now).0.metadataCache, smbPath) ==
              Some(share.metadata[smbPath])
  {
  }
}
