/**
 * The shapes of the YouTube Data API v3 objects that the core reads. Every
 * field is optional, as in the client library; only the fields the core
 * looks at are kept.
 */
module Youtube3 {
  import opened Wrappers

  newtype uint32 = x: int | 0 <= x < 0x1_0000_0000

  datatype PlaylistStatus = PlaylistStatus(privacyStatus: Option<string>)

  datatype PlaylistSnippet = PlaylistSnippet(
    title: Option<string>,
    description: Option<string>,
    channelTitle: Option<string>,
    tags: Option<seq<string>>,
    publishedAt: Option<string>)

  datatype Playlist = Playlist(
    id: Option<string>,
    status: Option<PlaylistStatus>,
    snippet: Option<PlaylistSnippet>)

  datatype PlaylistItemSnippet = PlaylistItemSnippet(
    title: Option<string>,
    description: Option<string>,
    publishedAt: Option<string>,
    position: Option<uint32>)

  datatype PlaylistItemContentDetails = PlaylistItemContentDetails(
    videoId: Option<string>,
    videoPublishedAt: Option<string>)

  datatype PlaylistItem = PlaylistItem(
    snippet: Option<PlaylistItemSnippet>,
    contentDetails: Option<PlaylistItemContentDetails>)

  /**
   * What one `list(...).page_token(..).doit()` call yields: either the call
   * fails, or a page of results with an optional cursor for the next page.
   */
  datatype Reply<T> =
    | CallFailed
    | Page(items: Option<seq<T>>, nextPageToken: Option<string>)
}
