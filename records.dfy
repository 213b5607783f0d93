/** The records the program writes out, and the ways a run can abort. */
module Records {
  import Y = Youtube3

  datatype PlaylistItem = PlaylistItem(
    title: string,
    link: string,
    publishedAt: string,
    positionInPlaylist: Y.uint32,
    description: string)

  datatype Playlist = Playlist(
    title: string,
    description: string,
    channelTitle: string,
    tags: string,
    publishedAt: string,
    id: string,
    status: string,
    items: seq<PlaylistItem>)

  datatype SimplePlaylistItem = SimplePlaylistItem(
    title: string,
    channelName: string,
    link: string,
    id: string)

  /** The panics of the core: `expect` on a failed call, `unwrap` on absent items, a vector index out of range. */
  datatype Failure =
    | RequestFailed(message: string)
    | ItemsMissing
    | IndexOutOfBounds

  /** `Playlist::new`. */
  function NewPlaylist(): Playlist {
    Playlist("", "", "", "", "", "", "", [])
  }

  /** `PlaylistItem::new`. */
  function NewPlaylistItem(): PlaylistItem {
    PlaylistItem("", "", "", 0, "")
  }
}
