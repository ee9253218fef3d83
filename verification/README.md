# JellyTunes core in Dafny

A verified model of the logic at the heart of JellyTunes, an Android TV and mobile music player.
It plays a library found on an SMB share, or songs from Navidrome (Subsonic API) and Jellyfin
servers. The model covers:

- the LRC lyric parser, and the Compose lyric views' choice of the current line;
- the older `View`-based lyric list and its one-highlight rule;
- the playback service's queue and index;
- theme cycling and the colour tables;
- the on-disk audio cache: file naming, eviction and clearing;
- the SMB scan, and the SMB repository's track building, audio fetch and lyrics memoisation;
- the Subsonic and Jellyfin URL and credential builders, and how their replies become results;
- the TV screen's key mapping, lyric window, marquee and `formatTime`;
- the mobile screen's swipe decision, transitions and album-cover fallback.

Everything outside the program is an input: server replies (already decoded into an abstract
JSON value), the share's directory tree and files, what tag extraction yields, row geometry,
random draws and the clock. Kotlin's semantics are written out where they matter:
- `String.hashCode` wraps to 32 bits, and `Long` timestamps wrap to 64 bits;
- `/` and `%` truncate toward zero;
- `Double.toInt` and `Double.toLong` truncate toward zero and saturate;
- `"%02x"` prints a signed byte plus 256;
- `sortBy` is stable;
- `shuffled` is the Fisher–Yates pass of `Collections.shuffle`.

One module per source component; shared helpers live in `Wrappers`, `KotlinText`, `Decimal`,
`JavaHash`, `StableSort`, `Utf8Hex`, `Urls` and `Json`. `AppConfig.NAVIDROME_SERVER_URL` is used
by both repositories, but `AppConfig.kt` does not define it, so the server URL is a parameter.
Paths below are relative to the repository root's source tree.

## Model

| member | source | states |
|---|---|---|
| LrcParser.MatchTimeTagAt | app/src/main/java/com/jellytunes/tv/data/metadata/LrcParser.kt:17 | a time-tag match starts with '[' and ends with ']'; its minutes and seconds are the two digits at the places the pattern fixes, and its fraction is the two or three digits after '.' or ':', or empty exactly when ']' follows the seconds |
| LrcParser.MatchSpellsTag | app/src/main/java/com/jellytunes/tv/data/metadata/LrcParser.kt:17 | the matched text is exactly the tag's bracketed spelling, with the line's separator |
| LrcParser.TagIsMatched | app/src/main/java/com/jellytunes/tv/data/metadata/LrcParser.kt:17 | every well-formed tag text in a line is matched where it stands, as a whole, so a three-digit fraction is taken whole and a two-digit one is not over-read |
| LrcParser.ScanIsLossless | app/src/main/java/com/jellytunes/tv/data/metadata/LrcParser.kt:45-47 | the left-to-right scan for time tags spells the line exactly, and each tag piece is one whole match, so the tags found and the text left by removing them come from the same scan |
| LrcParser.MatchIsLocal | app/src/main/java/com/jellytunes/tv/data/metadata/LrcParser.kt:17 | whether a time tag matches depends only on the characters it covers |
| LrcParser.FindMeta | app/src/main/java/com/jellytunes/tv/data/metadata/LrcParser.kt:32 | a found metadata tag carries one of the keys the pattern alternates (ti, ar, al, au, by, offset) |
| LrcParser.FindMetaIsLeftmost | app/src/main/java/com/jellytunes/tv/data/metadata/LrcParser.kt:32 | the search returns the match at the leftmost position from which a metadata tag matches, and nothing exactly when no position does |
| LrcParser.MatchMetaAt | app/src/main/java/com/jellytunes/tv/data/metadata/LrcParser.kt:18 | a metadata match is a key, ':', a value without ']', and ']', standing in the line at that position |
| LrcParser.MetaTagIsMatched | app/src/main/java/com/jellytunes/tv/data/metadata/LrcParser.kt:18 | every metadata tag in a line is matched where it stands, with its key and its whole value |
| LrcParser.FindMetaIsLeftmostTag | app/src/main/java/com/jellytunes/tv/data/metadata/LrcParser.kt:32 | the search finds the leftmost metadata tag of the line, and nothing exactly when the line holds none |
| LrcParser.FractionIsPadded | app/src/main/java/com/jellytunes/tv/data/metadata/LrcParser.kt:53 | the fraction is right-padded with '0' to three digits before it is read, so "50" is 500 ms and "123" is 123 ms |
| LrcParser.TagMillisFormula | app/src/main/java/com/jellytunes/tv/data/metadata/LrcParser.kt:51-53 | a tag's time is minutes times 60000 plus seconds times 1000 plus the padded fraction; seconds are not range-checked, and a tag's time is at most 99:99.999 |
| LrcParser.Stamp | app/src/main/java/com/jellytunes/tv/data/metadata/LrcParser.kt:49-55 | one entry per time tag, in tag order, each with the line's text and its tag time plus the offset |
| LrcParser.LineEntries | app/src/main/java/com/jellytunes/tv/data/metadata/LrcParser.kt:45-57 | every entry a line emits has non-empty, trimmed text |
| LrcParser.LineEntriesShape | app/src/main/java/com/jellytunes/tv/data/metadata/LrcParser.kt:45-56 | a line with k time tags and non-empty remaining text emits exactly k entries sharing that text, at tag time plus offset with 64-bit wrap-around; with no tag or no text it emits nothing |
| LrcParser.NonLyricLinesEmitNothing | app/src/main/java/com/jellytunes/tv/data/metadata/LrcParser.kt:28-42 | blank lines and lines carrying a metadata tag emit no lyric line |
| LrcParser.FoldMatchesReference | app/src/main/java/com/jellytunes/tv/data/metadata/LrcParser.kt:20-58 | after any number of input lines the loop's state equals an independent definition: the entries of every earlier line in order under the offset in force at that line, and the last ti, ar and al values |
| LrcParser.Parse | app/src/main/java/com/jellytunes/tv/data/metadata/LrcParser.kt:20-69 | every parsed line has non-empty, trimmed text |
| LrcParser.ExampleParses | app/src/main/java/com/jellytunes/tv/data/metadata/LrcParser.kt:20-69 | a title tag followed by a line with one time tag parses to one line at the tag's time, with the text after the tag, and the tag's title |
| LrcParser.ParseSortedAndStable | app/src/main/java/com/jellytunes/tv/data/metadata/LrcParser.kt:61 | the parsed lines are sorted by time, are a permutation of the emitted entries, and entries with equal time keep their source order |
| LrcParser.ParseMetadata | app/src/main/java/com/jellytunes/tv/data/metadata/LrcParser.kt:32-42 | title, artist and album are the trimmed values of the last ti, ar and al tags, or null when there is none |
| LrcParser.NonBlank | app/src/main/java/com/jellytunes/tv/data/metadata/LrcParser.kt:73 | the kept lines are non-blank and no more than the input's |
| LrcParser.NonBlankMatchesReference | app/src/main/java/com/jellytunes/tv/data/metadata/LrcParser.kt:73 | the result is exactly the lines that are not blank, judged one by one, in input order |
| LrcParser.ParsePlainText | app/src/main/java/com/jellytunes/tv/data/metadata/LrcParser.kt:71-78 | the i-th non-blank line, trimmed, is timed at i times 5000 ms; there is no title, artist or album |
| StableSort.SortBy | app/src/main/java/com/jellytunes/tv/data/metadata/LrcParser.kt:61 | sorting by a key gives a permutation of the input of the same length |
| StableSort.SortBySorted | app/src/main/java/com/jellytunes/tv/data/metadata/LrcParser.kt:61 | the result is sorted by the key |
| StableSort.SortByStable | app/src/main/java/com/jellytunes/tv/data/metadata/LrcParser.kt:61 | for every key value, the elements with that key keep their relative order |
| LyricsSync.CurrentLineIndex | app/src/main/java/com/jellytunes/tv/ui/lyrics/LyricsView.kt:44-47 | for non-empty lyrics the current index is a valid line index |
| LyricsSync.CurrentLineIsLastStarted | app/src/main/java/com/jellytunes/tv/ui/lyrics/LyricsView.kt:44-47 | the current index is the last line whose time is at or before the position, or 0 when no line has started |
| LyricsSync.CurrentLineMonotone | app/src/main/java/com/jellytunes/tv/ui/lyrics/LyricsView.kt:45 | on time-sorted lines the current index never decreases as the position grows |
| LyricsSync.RoleOf | app/src/main/java/com/jellytunes/tv/ui/lyrics/LyricsView.kt:66-67 | a line is current, past or future exactly when its index equals, is below or is above the current index |
| LyricsSync.RenderFull | app/src/main/java/com/jellytunes/tv/ui/lyrics/LyricsView.kt:27-39 | null or empty lyrics render only the "Pure Music" placeholder; otherwise every line has a row |
| LyricsSync.ExactlyOneCurrentRow | app/src/main/java/com/jellytunes/tv/ui/lyrics/LyricsView.kt:44-67 | with lyrics exactly one row is current, it is the row scrolled to, and exactly the rows above it are past |
| LyricsSync.RenderCompact | app/src/main/java/com/jellytunes/tv/ui/lyrics/LyricsView.kt:99-111 | null or empty lyrics render only the placeholder in the compact view |
| LyricsSync.CompactShowsCurrentAndNext | app/src/main/java/com/jellytunes/tv/ui/lyrics/LyricsView.kt:113-147 | the compact view shows the current line, and the next line exactly when it exists |
| Themes.IndexOf | app/src/main/java/com/jellytunes/tv/ui/theme/JellyTunesColors.kt:140 | the index names the theme's position among the entries |
| Themes.GetNextTheme | app/src/main/java/com/jellytunes/tv/ui/theme/JellyTunesColors.kt:138-142 | the successor cycles AMBER, FOREST, SUNSET, BURGUNDY and back to AMBER |
| Themes.GetPreviousTheme | app/src/main/java/com/jellytunes/tv/ui/theme/JellyTunesColors.kt:144-148 | the cycle backwards, case by case: AMBER to BURGUNDY, FOREST to AMBER, SUNSET to FOREST, BURGUNDY to SUNSET |
| Themes.NextPreviousInverse | app/src/main/java/com/jellytunes/tv/ui/theme/JellyTunesColors.kt:138-148 | previous undoes next and next undoes previous |
| Themes.NextHasPeriodFour | app/src/main/java/com/jellytunes/tv/ui/theme/JellyTunesColors.kt:138-142 | four steps of next return to the start and fewer steps never do |
| Themes.ThemeInvariants | app/src/main/java/com/jellytunes/tv/ui/theme/JellyTunesColors.kt:45-127 | in every scheme the name is the capitalised enum name, the progress indicator is the primary colour, the glow is the primary colour at alpha 0x40, and the overlay end is the background |
| Themes.ThemesDistinct | app/src/main/java/com/jellytunes/tv/ui/theme/JellyTunesColors.kt:129-136 | different theme types give different schemes |
| Themes.DefaultColors | app/src/main/java/com/jellytunes/tv/ui/theme/JellyTunesColors.kt:151 | the default scheme is the Amber one |
| Playback.PlayCurrentTrack | app/src/main/java/com/jellytunes/tv/service/AudioPlaybackService.kt:141-144 | an index outside the queue changes nothing; otherwise the indexed track becomes current and the lyrics are cleared |
| Playback.PlayNext | app/src/main/java/com/jellytunes/tv/service/AudioPlaybackService.kt:195-198 | an empty queue fails with division by zero; otherwise the index moves one slot on, wrapping from the last slot to 0 |
| Playback.PlayPrevious | app/src/main/java/com/jellytunes/tv/service/AudioPlaybackService.kt:200-207 | the index moves one slot back, from 0 to the last slot; with an empty queue it becomes -1 or one less |
| Playback.NextPreviousInverse | app/src/main/java/com/jellytunes/tv/service/AudioPlaybackService.kt:195-207 | on a non-empty queue previous undoes next and next undoes previous |
| Playback.NextTimesWraps | app/src/main/java/com/jellytunes/tv/service/AudioPlaybackService.kt:195-198 | k presses of next from slot i land on slot (i + k) mod the queue size |
| Playback.Shuffled | app/src/main/java/com/jellytunes/tv/service/AudioPlaybackService.kt:131 | shuffling yields a permutation of the tracks |
| Playback.LoadMusicLibrary | app/src/main/java/com/jellytunes/tv/service/AudioPlaybackService.kt:124-139 | an empty library changes nothing; otherwise the queue becomes a permutation of the tracks, the index 0, and the first queued track current |
| Playback.OnEvent | app/src/main/java/com/jellytunes/tv/service/AudioPlaybackService.kt:62-83 | ready, buffering and idle change nothing; an end or a player error moves to the next track; loaded lyrics become current |
| Playback.EventsPreserveValid | app/src/main/java/com/jellytunes/tv/service/AudioPlaybackService.kt:62-83 | every event keeps the index inside a non-empty queue |
| AudioCache.CacheFileNameParts | app/src/main/java/com/jellytunes/tv/data/cache/AudioCacheManager.kt:25-26 | a cache name splits at its first '_' into the path's hash code, which reads back as a number, and the path's last segment, which holds no '/' |
| AudioCache.CacheFileNameCollision | app/src/main/java/com/jellytunes/tv/data/cache/AudioCacheManager.kt:25-26 | two paths share a cache file exactly when their hash codes and last segments agree |
| AudioCache.GetCachedFile | app/src/main/java/com/jellytunes/tv/data/cache/AudioCacheManager.kt:47-52 | the cached file is found exactly when a file with the derived name exists |
| AudioCache.EvictCount | app/src/main/java/com/jellytunes/tv/data/cache/AudioCacheManager.kt:70-74 | the deletion loop stops at the first point where the remaining size is at most 80% of the cap, and not earlier |
| AudioCache.CleanupKeepsTheRest | app/src/main/java/com/jellytunes/tv/data/cache/AudioCacheManager.kt:62-76 | cleanup loses and invents no file, and the kept size is the original size minus the deleted size |
| AudioCache.CleanupUnderCap | app/src/main/java/com/jellytunes/tv/data/cache/AudioCacheManager.kt:66 | at or under the cap nothing is deleted |
| AudioCache.CleanupEvictsOldest | app/src/main/java/com/jellytunes/tv/data/cache/AudioCacheManager.kt:66-74 | over the cap the deleted files are a prefix of the files sorted oldest first, just enough to reach 80% of the cap, and none is newer than any kept file |
| AudioCache.CacheAudioFile | app/src/main/java/com/jellytunes/tv/data/cache/AudioCacheManager.kt:23-45 | an existing cache file is returned untouched with no cleanup; otherwise the cache is cleaned up; a stream that cannot be opened adds no file, and a copy stores the file under the derived name, returned only when the copy completes |
| AudioCache.CacheThenGet | app/src/main/java/com/jellytunes/tv/data/cache/AudioCacheManager.kt:23-52 | afterwards the path's file is found exactly when it was there before or a write began, a broken copy included; a returned file is found |
| AudioCache.ClearCache | app/src/main/java/com/jellytunes/tv/data/cache/AudioCacheManager.kt:78-79 | afterwards no path has a cached file |
| JavaHash.HashCode | app/src/main/java/com/jellytunes/tv/data/cache/AudioCacheManager.kt:25 | a string's hash code is a 32-bit integer |
| JavaHash.HashIsWrappedPolynomial | app/src/main/java/com/jellytunes/tv/data/cache/AudioCacheManager.kt:25 | the hash code is the polynomial in 31 over the UTF-16 code units, wrapped to 32 bits |
| Decimal.LongRoundTrip | app/src/main/java/com/jellytunes/tv/data/repository/SmbMusicRepository.kt:78 | a 64-bit integer's decimal text reads back to the same integer |
| TimeFormat.FormatTimeRoundTrip | app/src/main/java/com/jellytunes/tv/ui/player/PlayerScreen.kt:737-742 | for a non-negative time the seconds field is two digits below 60, and reading the clock back gives the whole seconds of the time; the mobile screen's formatter at ui/player/MobilePlayerScreen.kt:632-637 is the same code |
| PlayerScreen.OnKeyEvent | app/src/main/java/com/jellytunes/tv/ui/player/PlayerScreen.kt:122-140 | a key-down of centre or enter toggles play, right goes next, left goes previous; exactly those events are consumed |
| PlayerScreen.LyricWindow | app/src/main/java/com/jellytunes/tv/ui/player/PlayerScreen.kt:293-301 | up to three lines all show; beyond that, from one line before the current one, three lines or as many as remain before the end; the start and end are 32-bit integer arithmetic, so the list call throws exactly when the current index is two or more past the end or is the smallest or largest `Int`, where a bound wraps around |
| PlayerScreen.PaddedRows | app/src/main/java/com/jellytunes/tv/ui/player/PlayerScreen.kt:304-306 | always exactly three rows: the window, then blank lines |
| PlayerScreen.HighlightAsWritten | app/src/main/java/com/jellytunes/tv/ui/player/PlayerScreen.kt:307-314 | with more than three lines the highlighted row is always row 1 |
| PlayerScreen.LyricsPanelAsWritten | app/src/main/java/com/jellytunes/tv/ui/player/PlayerScreen.kt:271-321 | no lyrics show the message; a window that cannot be cut throws, exactly in the cases where the window throws; otherwise three rows, the window padded with blank lines; up to three lines the current index is highlighted, and beyond three lines always row 1 |
| PlayerScreen.PanelHighlightsCurrentLine | app/src/main/java/com/jellytunes/tv/ui/player/PlayerScreen.kt:293-314 | for a current index inside the lyrics the highlighted row shows the current line |
| PlayerScreen.AsWrittenAgreesPastTheFirstLine | app/src/main/java/com/jellytunes/tv/ui/player/PlayerScreen.kt:307-314 | the highlight as written agrees with the intended one unless there are more than three lines and the first is current |
| PlayerScreen.AsWrittenHighlightsWrongLine | app/src/main/java/com/jellytunes/tv/ui/player/PlayerScreen.kt:311 | with four lines and the first one current, the highlighted row shows the second line |
| PlayerScreen.RowTexts | app/src/main/java/com/jellytunes/tv/ui/player/PlayerScreen.kt:321 | a row's text is the line's text, or the note when that is empty, never blank |
| PlayerScreen.MarqueeTick | app/src/main/java/com/jellytunes/tv/ui/player/PlayerScreen.kt:762-779 | each pass moves the offset by one in the current direction and keeps the bounds |
| PlayerScreen.MarqueeStep | app/src/main/java/com/jellytunes/tv/ui/player/PlayerScreen.kt:760-783 | ticks and measurements keep the invariant; when no scrolling is needed the offset resets to 0 |
| PlayerScreen.Translation | app/src/main/java/com/jellytunes/tv/ui/player/PlayerScreen.kt:804 | the text is not moved while it fits, and never by more than 80 |
| PlayerScreen.MarqueeStaysInBounds | app/src/main/java/com/jellytunes/tv/ui/player/PlayerScreen.kt:750-804 | any sequence of ticks and measurements keeps the text within 80 pixels either side |
| PlayerScreen.MiniDisplay | app/src/main/java/com/jellytunes/tv/ui/player/PlayerScreen.kt:820-828 | no lyrics show the message and an empty second line; otherwise the current line, never blank, or the note when the index is outside the lyrics, and the next line only when it exists |
| ServerLyrics.Shown | app/src/main/java/com/jellytunes/tv/ui/player/PlayerScreen.kt:321 | a shown line is never blank: the text, or the note for empty text |
| MobilePlayer.DragStart | app/src/main/java/com/jellytunes/tv/ui/player/MobilePlayerScreen.kt:108-112 | a drag starts from offset 0 |
| MobilePlayer.DragBy | app/src/main/java/com/jellytunes/tv/ui/player/MobilePlayerScreen.kt:133-142 | only the vertical component accumulates |
| MobilePlayer.DragEnd | app/src/main/java/com/jellytunes/tv/ui/player/MobilePlayerScreen.kt:113-132 | beyond the threshold a downward swipe goes to the previous track and an upward one to the next; otherwise nothing; the offset resets |
| MobilePlayer.OnDrag | app/src/main/java/com/jellytunes/tv/ui/player/MobilePlayerScreen.kt:107-142 | start resets and drags, moves add the vertical amount, an end decides the swipe by the threshold and resets; a cancelled gesture changes nothing, since no cancel handler is passed |
| MobilePlayer.CancelLeavesContentDisplaced | app/src/main/java/com/jellytunes/tv/ui/player/MobilePlayerScreen.kt:107-151 | after a start, moves and a cancel, the content stays displaced by the rounded total of the moves |
| MobilePlayer.RoundToInt | app/src/main/java/com/jellytunes/tv/ui/player/MobilePlayerScreen.kt:151 | rounding gives the nearest integer, halves upward |
| MobilePlayer.ContentOffset | app/src/main/java/com/jellytunes/tv/ui/player/MobilePlayerScreen.kt:146 | the content follows the finger only while dragging |
| MobilePlayer.MovesAccumulate | app/src/main/java/com/jellytunes/tv/ui/player/MobilePlayerScreen.kt:133-136 | after a sequence of moves the offset is the sum of their vertical parts |
| MobilePlayer.GestureDecidesOnDy | app/src/main/java/com/jellytunes/tv/ui/player/MobilePlayerScreen.kt:108-136 | a whole gesture swipes by its total vertical travel alone |
| MobilePlayer.TransitionFor | app/src/main/java/com/jellytunes/tv/ui/player/MobilePlayerScreen.kt:153-164 | a changed track slides, a changed theme alone fades, an unchanged key does not animate |
| MobilePlayer.InitialArt | app/src/main/java/com/jellytunes/tv/ui/player/MobilePlayerScreen.kt:327-329 | a track starts with the album URL, else the artist URL, and the default cover hidden |
| MobilePlayer.OnLoadErrorAsWritten | app/src/main/java/com/jellytunes/tv/ui/player/MobilePlayerScreen.kt:339-346 | a failed album URL with an artist URL present switches to the artist URL, any other failure shows the default cover; the state is left unchanged exactly when the failed URL is both the album and the artist URL |
| MobilePlayer.CoverOf | app/src/main/java/com/jellytunes/tv/ui/player/MobilePlayerScreen.kt:305-364 | no track shows the default cover; decodable embedded art wins; a remote image only while its load has not failed |
| MobilePlayer.CoverPriority | app/src/main/java/com/jellytunes/tv/ui/player/MobilePlayerScreen.kt:309-331 | the cover is embedded art, then the album URL, then the artist URL, then the default |
| MobilePlayer.FallbackReachesDefault | app/src/main/java/com/jellytunes/tv/ui/player/MobilePlayerScreen.kt:339-346 | with the corrected branch, at most two failed loads lead to the default cover |
| MobilePlayer.AsWrittenSameUrlNeverFallsBack | app/src/main/java/com/jellytunes/tv/ui/player/MobilePlayerScreen.kt:341-342 | as written, when the album URL equals the artist URL a failed load changes nothing, and the screen shows no cover at all instead of the default one |
| MobilePlayer.AsWrittenAgreesOnDistinctUrls | app/src/main/java/com/jellytunes/tv/ui/player/MobilePlayerScreen.kt:339-346 | where the two URLs differ, the as-written and corrected branches agree |
| Navidrome.EncodedPassword | app/src/main/java/com/jellytunes/tv/data/repository/NavidromeRepository.kt:37 | the encoded password is "enc:" followed by two lower-case hex digits per UTF-8 byte |
| Navidrome.PasswordRoundTrip | app/src/main/java/com/jellytunes/tv/data/repository/NavidromeRepository.kt:37 | decoding the enc: form gives back the password |
| Utf8Hex.Utf8RoundTrip | app/src/main/java/com/jellytunes/tv/data/repository/NavidromeRepository.kt:37 | the UTF-8 bytes of a string decode back to the string |
| Utf8Hex.HexRoundTrip | app/src/main/java/com/jellytunes/tv/data/repository/NavidromeRepository.kt:37 | the hex spelling of signed bytes reads back to the same bytes, bytes at or above 0x80 included |
| Navidrome.EncodedPasswordIsPlain | app/src/main/java/com/jellytunes/tv/data/repository/NavidromeRepository.kt:37-41 | the encoded password needs no escaping inside a query |
| Navidrome.PingUrlParameters | app/src/main/java/com/jellytunes/tv/data/repository/NavidromeRepository.kt:38-44 | the login request carries exactly u, p, f=json, v=1.16.1 and c=JellyTunes |
| Navidrome.RandomSongsUrl | app/src/main/java/com/jellytunes/tv/data/repository/NavidromeRepository.kt:94-100 | the request ends with the size parameter |
| Navidrome.RandomSongsUrlParameters | app/src/main/java/com/jellytunes/tv/data/repository/NavidromeRepository.kt:94-100 | the random-songs request carries exactly u, p, f=json, v=1.16.1, c=JellyTunes and then the size |
| Navidrome.StreamUrl | app/src/main/java/com/jellytunes/tv/data/repository/NavidromeRepository.kt:163-172 | a stream URL is always returned |
| Navidrome.SongUrlParameters | app/src/main/java/com/jellytunes/tv/data/repository/NavidromeRepository.kt:163-172 | read back, the stream URL carries the credential parameters and then the id |
| Navidrome.CoverArtUrl | app/src/main/java/com/jellytunes/tv/data/repository/NavidromeRepository.kt:174-186 | null exactly for an empty id; otherwise the URL ends with size=300 |
| Navidrome.CoverArtUrlParameters | app/src/main/java/com/jellytunes/tv/data/repository/NavidromeRepository.kt:174-186 | read back, the cover URL carries the credential parameters, the id, then size=300 |
| Navidrome.ApiError | app/src/main/java/com/jellytunes/tv/data/repository/NavidromeRepository.kt:74-76 | a failed status gives "Subsonic API error: " and the server's message, or "Unknown error" |
| Navidrome.Authenticate | app/src/main/java/com/jellytunes/tv/data/repository/NavidromeRepository.kt:34-87 | success exactly when the reply is successful, parses and has status ok, and then the response is built from the user name with an empty token; an unsuccessful reply fails with its code and body, or "No error body"; another status fails with the Subsonic API error; an I/O failure or a body that cannot be parsed is caught as a failure |
| Navidrome.SongOf | app/src/main/java/com/jellytunes/tv/data/repository/NavidromeRepository.kt:122-144 | id and title default to ""; artist, album and cover art are the string fields or null; track, year, duration, bit rate and disc number are the numeric fields truncated to `Int`, size to `Long`; every other field is its string field or null |
| Navidrome.IntField | app/src/main/java/com/jellytunes/tv/data/repository/NavidromeRepository.kt:128 | a numeric field is present exactly when the value is a number, and is then that number truncated to `Int` |
| Navidrome.LongField | app/src/main/java/com/jellytunes/tv/data/repository/NavidromeRepository.kt:139 | a 64-bit field is present exactly when the value is a number, and is then that number truncated to `Long` |
| Navidrome.GetRandomSongs | app/src/main/java/com/jellytunes/tv/data/repository/NavidromeRepository.kt:89-161 | an I/O failure is caught; an unsuccessful reply fails with its code; a body that does not parse throws; a status other than "ok" fails with the API error; an "ok" reply with no song list succeeds with no songs, one with a non-map entry throws, and otherwise it succeeds with one song per entry, in order |
| Navidrome.SongsOf | app/src/main/java/com/jellytunes/tv/data/repository/NavidromeRepository.kt:118-147 | no song list gives no songs; a non-map entry throws; otherwise one song per entry, in order |
| Navidrome.LineText | app/src/main/java/com/jellytunes/tv/data/repository/NavidromeRepository.kt:229 | the text is the value of the first entry not keyed start when that value is a string, and empty when it is not a string or every entry is keyed start |
| Navidrome.LineOf | app/src/main/java/com/jellytunes/tv/data/repository/NavidromeRepository.kt:230-233 | start is the truncated number when present, else 0; the value is the line text |
| Navidrome.GetLyricsBySongId | app/src/main/java/com/jellytunes/tv/data/repository/NavidromeRepository.kt:190-254 | an I/O failure is caught; an unsuccessful reply fails with its code; a body that cannot be parsed throws; a status other than "ok" fails with the API error; for "ok", missing or empty lyrics or lines give an empty list, a first entry or element that is not a map throws, and otherwise there is one line per element of the first entry, in order |
| Navidrome.LyricLinesOf | app/src/main/java/com/jellytunes/tv/data/repository/NavidromeRepository.kt:217-240 | missing or empty entries or lines give no lines; a non-map first entry or element throws; otherwise one line per element, in order |
| Navidrome.OnlyFirstLyricsEntryCounts | app/src/main/java/com/jellytunes/tv/data/repository/NavidromeRepository.kt:221-224 | structured-lyrics entries after the first are never read |
| Navidrome.Perform | app/src/main/java/com/jellytunes/tv/data/repository/NavidromeRepository.kt:23-254 | each public call replies with its own result (a login succeeds exactly on a parsed "ok" reply, a cover URL is null exactly for an empty id) and no call assigns the token or the salt |
| Navidrome.RunKeepsFields | app/src/main/java/com/jellytunes/tv/data/repository/NavidromeRepository.kt:23-254 | a session leaves the client as it was, and each reply is what its call gives on a fresh client, so no reply depends on earlier calls |
| Navidrome.NeverAuthenticated | app/src/main/java/com/jellytunes/tv/data/repository/NavidromeRepository.kt:188 | the client is never authenticated, whatever calls it makes |
| Jellyfin.Authenticate | app/src/main/java/com/jellytunes/tv/data/repository/JellyfinRepository.kt:23-59 | a decoded reply with a user stores its token and user id and succeeds with the reply; a decoded reply without a user stores the token and then throws; a body that cannot be decoded throws; an I/O failure, or an unsuccessful reply with its code and body or "No error body", fails and leaves the session unchanged |
| Jellyfin.LoginAuthenticates | app/src/main/java/com/jellytunes/tv/data/repository/JellyfinRepository.kt:43-54 | after a successful login the client is authenticated exactly when the reply held both a token and a user id |
| Jellyfin.GetRandomAudioItems | app/src/main/java/com/jellytunes/tv/data/repository/JellyfinRepository.kt:61-85 | unauthenticated, it fails with "Not authenticated" and builds no request; otherwise it sends one request for the user's items with the token; an unsuccessful reply fails with its code; an I/O failure is caught; a decoded reply succeeds with its item list, and one that cannot be decoded throws |
| Jellyfin.StreamUrl | app/src/main/java/com/jellytunes/tv/data/repository/JellyfinRepository.kt:87-91 | a stream URL exists exactly when the client is authenticated |
| Jellyfin.StreamUrlParameters | app/src/main/java/com/jellytunes/tv/data/repository/JellyfinRepository.kt:89 | read back, the stream URL carries static=true and the session's user id |
| Jellyfin.ImageUrl | app/src/main/java/com/jellytunes/tv/data/repository/JellyfinRepository.kt:93-99 | the image URL always ends with quality=90 |
| Jellyfin.ImageUrlParameters | app/src/main/java/com/jellytunes/tv/data/repository/JellyfinRepository.kt:93-99 | read back, the image URL carries the tag exactly when one is given, then quality=90 |
| SmbConfig.SmbUrl | app/src/main/java/com/jellytunes/tv/data/smb/SmbConfig.kt:9-10 | the share URL starts with smb:// and ends with '/' |
| SmbConfig.SmbUrlRoundTrip | app/src/main/java/com/jellytunes/tv/data/smb/SmbConfig.kt:10 | host and share are read back from the share URL |
| SmbConfig.FormatsWellFormed | app/src/main/java/com/jellytunes/tv/data/smb/SmbConfig.kt:13-15 | there are seven distinct formats, each lower case and starting with '.' |
| SmbScanner.FindLrcFile | app/src/main/java/com/jellytunes/tv/data/smb/SmbMusicScanner.kt:57-63 | the lyrics path is returned exactly when the derived path exists |
| SmbScanner.LrcCandidateReplacesLastExtension | app/src/main/java/com/jellytunes/tv/data/smb/SmbMusicScanner.kt:58-60 | the derived path replaces only the last extension with .lrc, and appends .lrc to a name without '.' |
| SmbScanner.ScanMatchesReference | app/src/main/java/com/jellytunes/tv/data/smb/SmbMusicScanner.kt:20-55 | the bounded walk yields exactly the first files of an unbounded depth-first walk that skips hidden directories and unreadable entries |
| SmbScanner.ScanForAudioFiles | app/src/main/java/com/jellytunes/tv/data/smb/SmbMusicScanner.kt:14-18 | the result is the first maxFiles audio files in depth-first order, never more than maxFiles |
| SmbScanner.DirectoryBeforeLaterSiblings | app/src/main/java/com/jellytunes/tv/data/smb/SmbMusicScanner.kt:29-36 | a visible directory's files come after earlier siblings' files and before later siblings' files |
| SmbScanner.SkippedEntriesDoNotMatter | app/src/main/java/com/jellytunes/tv/data/smb/SmbMusicScanner.kt:33-53 | a hidden directory's contents never affect the scan, and an unreadable entry is skipped without stopping the scan |
| SmbScanner.FoundFilesAreAudio | app/src/main/java/com/jellytunes/tv/data/smb/SmbMusicScanner.kt:38-47 | every file found has a supported extension in any letter case, and a lyrics path only when it exists |
| SmbRepository.FetchAudio | app/src/main/java/com/jellytunes/tv/data/repository/SmbMusicRepository.kt:57-60 | a cached file is used without opening the share; otherwise the copied file is found in the cache afterwards, and the fetch fails only when the share cannot be opened or the copy breaks |
| SmbRepository.ExtractTrackInfo | app/src/main/java/com/jellytunes/tv/data/repository/SmbMusicRepository.kt:51-86 | a track exists exactly when the audio could be cached; its id reads back to the path's hash code, its file path is the path, and it has no album URL |
| SmbRepository.TrackNaming | app/src/main/java/com/jellytunes/tv/data/repository/SmbMusicRepository.kt:73-84 | the title is the tag title, or the file name before its last '.'; the artist and album are the tag values when present and otherwise Unknown Artist and Unknown Album; the embedded picture is carried over |
| SmbRepository.ExtractRecordsMetadata | app/src/main/java/com/jellytunes/tv/data/repository/SmbMusicRepository.kt:63-66 | extracted tags are remembered for the lyrics lookup |
| SmbRepository.LoadFiles | app/src/main/java/com/jellytunes/tv/data/repository/SmbMusicRepository.kt:40-48 | no more tracks than files; their paths are a subsequence of the scan's; every id parses back to its path's hash |
| SmbRepository.LoadFilesMatchesReference | app/src/main/java/com/jellytunes/tv/data/repository/SmbMusicRepository.kt:40-48 | the tracks are exactly the scanned files' conversions in scan order, each converted in the state the previous one left, with exactly the failed ones left out |
| SmbRepository.LoadFilesKeepsCachedFiles | app/src/main/java/com/jellytunes/tv/data/repository/SmbMusicRepository.kt:40-48 | when every file converts in its turn, every file becomes a track |
| SmbRepository.LoadMusicLibrary | app/src/main/java/com/jellytunes/tv/data/repository/SmbMusicRepository.kt:35-49 | the library has no more tracks than the scan and the limit allow |
| SmbRepository.GetAudioFile | app/src/main/java/com/jellytunes/tv/data/repository/SmbMusicRepository.kt:88-95 | no file path gives null; a cached file is returned without opening a stream; a returned file is in the cache |
| SmbRepository.GetLyrics | app/src/main/java/com/jellytunes/tv/data/repository/SmbMusicRepository.kt:97-127 | no file path gives null; a remembered answer, null included, is returned unchanged; otherwise the answer is remembered |
| SmbRepository.GetLyricsIsMemoised | app/src/main/java/com/jellytunes/tv/data/repository/SmbMusicRepository.kt:101-103 | asking twice gives the same answer and changes nothing, whatever the share holds by then |
| SmbRepository.LyricsSourceOrder | app/src/main/java/com/jellytunes/tv/data/repository/SmbMusicRepository.kt:105-126 | embedded lyrics win; otherwise lyrics are found exactly when the .lrc file exists and opens |
| LegacyLyricsView.SetLyrics | app/src/main/java/com/jellytunes/tv/ui/player/LyricsView.kt:28-43 | the current line is forgotten; one white row per line, empty text shown as the note, or the single grey message for no lines |
| LegacyLyricsView.SetCurrentLine | app/src/main/java/com/jellytunes/tv/ui/player/LyricsView.kt:45-64 | an unchanged index is a no-op; otherwise the index becomes current, row texts stay, and the view scrolls only to an existing row |
| LegacyLyricsView.SetCurrentLineKeepsOneHighlight | app/src/main/java/com/jellytunes/tv/ui/player/LyricsView.kt:49-60 | exactly the current line's row is highlighted, so never two rows |
| LegacyLyricsView.Click | app/src/main/java/com/jellytunes/tv/ui/player/LyricsView.kt:66-86 | no click ever seeks: the handler looks the listener up on the row's parent, the lyrics view itself, which is not a listener |
| LegacyLyricsView.ClickVia | app/src/main/java/com/jellytunes/tv/ui/player/LyricsView.kt:78-84 | with the listener looked up on a given view, a click seeks to the line's start exactly when that view listens and the line exists |
| LegacyLyricsView.ScrollTarget | app/src/main/java/com/jellytunes/tv/ui/player/LyricsView.kt:104-107 | the scroll target is never negative |
| LegacyLyricsView.ScrollCentresRow | app/src/main/java/com/jellytunes/tv/ui/player/LyricsView.kt:98-107 | unless clamped at the top, the row's centre lies within one pixel of the visible centre, whatever truncating division does with odd heights |

## Left out

- Network I/O: OkHttp execution and Gson decoding are not modelled. A reply is a status code and a body that is already decoded (or not decodable). A caught exception's message is the constant `CAUGHT_EXCEPTION`, not the exception's own text.
- Navidrome request URLs are built from the pieces, not put through OkHttp's URL canonicalisation. Read-back lemmas assume names and ids need no escaping.
- The MD5 `generateToken` (NavidromeRepository.kt:27-32): a library hash that nothing calls.
- The Retrofit interfaces (`NavidromeApiService.kt`, `JellyfinApiService.kt`): annotations only, with no behaviour.
- The Android `LruCache` album-art cache (AudioCacheManager.kt:13-15, 54-60): a foreign container.
- File-system failures in the cache other than a write: a failed `delete`, or `listFiles` returning null. Java leaves the order of `listFiles` unspecified, so after a cleanup the kept files are listed oldest first.
- SMB transport (`SmbClient.kt`): listing, existence checks and streams are inputs. A directory whose listing fails has an empty listing; an entry whose attributes throw is `Unreadable`.
- Metadata extraction (`AudioMetadataExtractor.kt`): its result per file is an input. Only the fields the repository reads are kept.
- Reading an `.lrc` file's text is assumed not to fail.
- ExoPlayer, MediaSession, coroutine dispatch, the 500 ms position poll, `togglePlayPause` and `seekTo`. Only the queue, the index and the current track and lyrics are modelled. The asynchronous fetch in `playCurrentTrack` shows up as `OnEvent` events.
- `durationMs` and the `Track` fields nothing modelled reads. `Track` here carries the fields the code uses, `filePath` and `albumArtData` included.
- Compose rendering: colours, fonts, animation specs and layout. The drag offset is a real number rather than a 32-bit float. The marquee's delays are not modelled, only its sequence of steps.
- Text: `lowercase()` and `isWhitespace` are ASCII and explicit lists; `toLongOrNull` accepts ASCII digits only; a string with a lone surrogate is outside the UTF-8 round trip.
- The Jellyfin login request body, which is built by string interpolation, is not modelled.
- Playback.LoadMusicLibrary: requires at most 100 tracks and well-formed random draws. The library call never returns more than its limit, and the draws stand for `Random.nextInt`.
- LegacyLyricsView.SetCurrentLine: requires the view's own invariant (rows match the cached views) and a geometry for every row.
- TimeFormat.FormatTimeRoundTrip: covers non-negative times only; a negative position prints with a sign in both fields.
- SmbConfig.SmbUrlRoundTrip: requires a host without '/'.

## Findings

| source | as written | input that shows it | evidently intended | confidence | as-written member | corrected member |
|---|---|---|---|---|---|---|
| app/src/main/java/com/jellytunes/tv/ui/player/PlayerScreen.kt:311 | with more than three lines the highlighted row is `currentIndex - currentIndex + 1`, always row 1 | four lines, current index 0 (or null): row 1 shows line 1 but line 0 is current | highlight the current line's place in the window, `currentIndex - startIndex` | high; not executed | PlayerScreen.AsWrittenHighlightsWrongLine | PlayerScreen.PanelHighlightsCurrentLine |
| app/src/main/java/com/jellytunes/tv/ui/player/MobilePlayerScreen.kt:341-342 | on a failed load of the album URL with an artist URL present, switch to the artist URL even when it is the same URL | a track whose album URL equals its artist URL, and the load fails: the state does not change, so the default cover never shows | switch only to a different URL, otherwise show the default cover | medium; not executed | MobilePlayer.AsWrittenSameUrlNeverFallsBack | MobilePlayer.FallbackReachesDefault |
| app/src/main/java/com/jellytunes/tv/ui/player/LyricsView.kt:82 | the row's click handler casts `parent`, which inside the row's `apply` block is the row's parent, the lyrics view; that class does not implement `LyricsInteractionListener`, so the cast is always null | any click on a lyric row, even with the lyrics view inside a listener: nothing seeks | look the listener up on the lyrics view's own parent | medium; not executed | LegacyLyricsView.ClickIgnoresListeningParent | LegacyLyricsView.ClickIntended |
| app/src/main/java/com/jellytunes/tv/data/cache/AudioCacheManager.kt:36-43 | a copy that throws part-way returns null but leaves the partly written file, which `getCachedFile` then serves | a share stream that fails after ten bytes: the next lookup hits a ten-byte file | delete the partial file when the copy throws | medium; not executed | AudioCache.AsWrittenServesBrokenCopy | AudioCache.IntendedServesOnlyCompleteCopies |
| app/src/main/java/com/jellytunes/tv/ui/player/MobilePlayerScreen.kt:107-132 | `detectDragGestures` gets no `onDragCancel`, so a cancelled gesture leaves `isDragging` set and the offset in place | drag 100 pixels down, then the gesture is cancelled: the content stays 100 pixels down until the next drag starts | reset the drag on cancel as on an end that swipes nowhere | medium; not executed | MobilePlayer.CancelledDragStaysDisplaced | MobilePlayer.OnDragCancelIntended |

The corrected members state what the code evidently means; the rest of the model keeps the code's own behaviour, so the repository model still serves a broken cache copy.
