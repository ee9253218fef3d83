/** `NavidromeLyricsModels.kt`: the server's lyric line, and how the screens print one. */
module ServerLyrics {
  import opened KotlinText

  /** `data.model.LyricsLine`: a start time in milliseconds and the line's text. */
  datatype LyricsLine = LyricsLine(start: int, value: string)

  /** The message shown when there are no lyrics at all. */
  const NO_LYRICS: string := "暂无歌词"

  /** The musical note that stands in for an empty line. */
  const NOTE: string := "♪"

  /** A line's text, or the note when the text is empty: a line is never printed blank. */
  function Shown(value: string): (r: string)
    ensures r != []
    ensures value != [] ==> r == value
    ensures value == [] ==> r == NOTE
  {
    IfEmpty(value, NOTE)
  }
}
