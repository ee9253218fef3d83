/** The track record shared by the player, the service and the repositories. */
module Tracks {
  import opened Wrappers

  /** A byte of file content. */
  type Byte = b: int | 0 <= b < 256

  /** `Track`: the fields the core reads. `filePath` locates a library file on the share and
      `albumArtData` is the cover picture embedded in that file, when there is one. */
  datatype Track = Track(
    id: string,
    title: string,
    artist: string,
    album: string,
    albumArtUrl: Option<string>,
    artistImageUrl: Option<string>,
    filePath: Option<string>,
    albumArtData: Option<seq<Byte>>)
}
