/**
 * `get_text`, `parse_playlist` and `parse_playlist_item`: turning the
 * API's partially filled objects into fully populated records.
 *
 * NormalizePlaylist and NormalizeItem say, field by field, what each record
 * holds; ParsePlaylist and ParsePlaylistItem build it the way the program
 * does, starting from `new()` and assigning fields one after another.
 */
module Normalize {
  import opened Wrappers
  import opened Text
  import opened Records
  import Y = Youtube3

  const NoTitle := "NO_TITLE"
  const UnknownStatus := "Unknown"
  const TagSeparator := ", "
  const WatchUrlPrefix := "https://www.youtube.com/watch?v="

  /** `get_text`: the text when present, the default otherwise; it never fails. */
  function GetText(option: Option<string>, default: string): (text: string)
    ensures option.Some? ==> text == option.value
    ensures option.None? ==> text == default
  {
    match option
    case Some(t) => t
    case None => default
  }

  /** The canonical watch URL of a video. */
  function WatchUrl(videoId: string): string {
    WatchUrlPrefix + videoId
  }

  /** What `parse_playlist` produces: id and status from the top level, the rest from the snippet if there is one. */
  function NormalizePlaylist(p: Y.Playlist): Playlist {
    var id := if p.id.Some? then p.id.value else "";
    var status := if p.status.Some? && p.status.value.privacyStatus.Some? then p.status.value.privacyStatus.value else UnknownStatus;
    match p.snippet
    case None => Playlist("", "", "", "", "", id, status, [])
    case Some(s) =>
      Playlist(
        if s.title.Some? then s.title.value else NoTitle,
        if s.description.Some? then s.description.value else "",
        if s.channelTitle.Some? then s.channelTitle.value else NoTitle,
        if s.tags.Some? then Join(s.tags.value, TagSeparator) else "",
        if s.publishedAt.Some? then s.publishedAt.value else NoTitle,
        id, status, [])
  }

  /** `parse_playlist`. */
  method ParsePlaylist(playlist: Y.Playlist) returns (info: Playlist)
    ensures info == NormalizePlaylist(playlist)
  {
    var defaultStatus := Y.PlaylistStatus(Some(UnknownStatus));
    var playlistId := GetText(playlist.id, "");
    var playlistStatus := GetText(playlist.status.UnwrapOr(defaultStatus).privacyStatus, UnknownStatus);

    info := NewPlaylist();

    if playlist.snippet.Some? {
      var snippet := playlist.snippet.value;
      info := info.(title := snippet.title.UnwrapOr(NoTitle));
      info := info.(description := snippet.description.UnwrapOr(""));
      info := info.(channelTitle := snippet.channelTitle.UnwrapOr(NoTitle));
      info := info.(tags := Join(snippet.tags.UnwrapOr([]), TagSeparator));
      info := info.(publishedAt := snippet.publishedAt.UnwrapOr(NoTitle));
    }

    info := info.(id := playlistId);
    info := info.(status := playlistStatus);
  }

  /** The id and the status come from the top-level object alone, whatever the snippet holds. */
  lemma PlaylistIdAndStatus(p: Y.Playlist, snippet: Option<Y.PlaylistSnippet>)
    ensures NormalizePlaylist(p).id == GetText(p.id, "")
    ensures NormalizePlaylist(p).status ==
      if p.status.Some? then GetText(p.status.value.privacyStatus, UnknownStatus) else UnknownStatus
    ensures NormalizePlaylist(p.(snippet := snippet)).id == NormalizePlaylist(p).id
    ensures NormalizePlaylist(p.(snippet := snippet)).status == NormalizePlaylist(p).status
  {
  }

  /** Without a snippet the descriptive fields keep the empty strings of `Playlist::new` and there are no items. */
  lemma PlaylistWithoutSnippet(p: Y.Playlist)
    requires p.snippet.None?
    ensures var r := NormalizePlaylist(p);
      r.title == "" && r.description == "" && r.channelTitle == "" && r.tags == "" && r.publishedAt == "" && r.items == []
  {
  }

  /** With a snippet: absent title, channel title and date become "NO_TITLE", an absent description or tag list "". */
  lemma PlaylistSnippetDefaults(p: Y.Playlist)
    requires p.snippet.Some?
    ensures var s, r := p.snippet.value, NormalizePlaylist(p);
      r.title == GetText(s.title, NoTitle)
      && r.description == GetText(s.description, "")
      && r.channelTitle == GetText(s.channelTitle, NoTitle)
      && r.tags == (if s.tags.Some? then Join(s.tags.value, TagSeparator) else "")
      && r.publishedAt == GetText(s.publishedAt, NoTitle)
      && r.items == []
  {
  }

  /** Tags are flattened with ", " between them. */
  lemma TagsJoined()
    ensures Join(["a", "b", "c"], TagSeparator) == "a, b, c"
  {
  }

  /** A remote playlist that carries every field of a record, with its tags as a one-element list. */
  function EmbedPlaylist(pl: Playlist): Y.Playlist {
    Y.Playlist(
      Some(pl.id),
      Some(Y.PlaylistStatus(Some(pl.status))),
      Some(Y.PlaylistSnippet(Some(pl.title), Some(pl.description), Some(pl.channelTitle), Some([pl.tags]), Some(pl.publishedAt))))
  }

  /** Normalizing an object whose fields are all present reproduces them verbatim. */
  lemma PlaylistRoundTrip(pl: Playlist)
    ensures NormalizePlaylist(EmbedPlaylist(pl)) == pl.(items := [])
  {
    JoinSingle(pl.tags, TagSeparator);
  }

  /** Normalizing an object whose fields are all absent yields exactly the defaults the code writes. */
  lemma PlaylistAllAbsent()
    ensures NormalizePlaylist(Y.Playlist(None, None, Some(Y.PlaylistSnippet(None, None, None, None, None))))
         == Playlist(NoTitle, "", NoTitle, "", NoTitle, "", UnknownStatus, [])
    ensures NormalizePlaylist(Y.Playlist(None, None, None))
         == Playlist("", "", "", "", "", "", UnknownStatus, [])
    ensures NormalizePlaylist(Y.Playlist(None, Some(Y.PlaylistStatus(None)), None)).status == UnknownStatus
  {
  }

  /**
   * What `parse_playlist_item` produces: nothing but `PlaylistItem::new` without a snippet;
   * with one, the link from the content details and everything else from the snippet.
   */
  function NormalizeItem(item: Y.PlaylistItem): PlaylistItem {
    match item.snippet
    case None => NewPlaylistItem()
    case Some(s) =>
      PlaylistItem(
        GetText(s.title, ""),
        if item.contentDetails.Some? then WatchUrl(GetText(item.contentDetails.value.videoId, "")) else "",
        GetText(s.publishedAt, ""),
        s.position.UnwrapOr(0),
        GetText(s.description, ""))
  }

  /** `parse_playlist_item`: the content details' date is written first and then overwritten by the snippet's. */
  method ParsePlaylistItem(item: Y.PlaylistItem) returns (info: PlaylistItem)
    ensures info == NormalizeItem(item)
  {
    info := NewPlaylistItem();

    match item.snippet {
      case Some(snippet) =>
        info := info.(title := GetText(snippet.title, ""));

        match item.contentDetails {
          case Some(details) =>
            var videoId := GetText(details.videoId, "");
            info := info.(publishedAt := GetText(details.videoPublishedAt, ""));
            info := info.(link := WatchUrl(videoId));
          case None =>
        }

        info := info.(positionInPlaylist := snippet.position.UnwrapOr(0));
        info := info.(publishedAt := GetText(snippet.publishedAt, ""));
        info := info.(description := GetText(snippet.description, ""));
      case None =>
    }
  }

  /** The item list of a playlist: each fetched item normalized, in fetch order. */
  function NormalizeAll(items: seq<Y.PlaylistItem>): (r: seq<PlaylistItem>)
    ensures |r| == |items| && forall k :: 0 <= k < |items| ==> r[k] == NormalizeItem(items[k])
  {
    seq(|items|, k requires 0 <= k < |items| => NormalizeItem(items[k]))
  }

  /** Without a snippet the item is `PlaylistItem::new`, even when content details are present. */
  lemma ItemWithoutSnippet(item: Y.PlaylistItem)
    requires item.snippet.None?
    ensures NormalizeItem(item) == PlaylistItem("", "", "", 0, "")
  {
  }

  /**
   * With a snippet: the link is the watch URL of the content details' video
   * (or "" without content details), the position defaults to 0, and the
   * publication date is the snippet's, whatever the content details say.
   */
  lemma ItemWithSnippet(item: Y.PlaylistItem, details: Option<Y.PlaylistItemContentDetails>)
    requires item.snippet.Some?
    ensures var s, r := item.snippet.value, NormalizeItem(item);
      r.title == GetText(s.title, "")
      && r.link == (if item.contentDetails.Some? then WatchUrlPrefix + GetText(item.contentDetails.value.videoId, "") else "")
      && r.positionInPlaylist == (if s.position.Some? then s.position.value else 0)
      && r.publishedAt == GetText(s.publishedAt, "")
      && r.description == GetText(s.description, "")
    ensures NormalizeItem(item.(contentDetails := details)).publishedAt == NormalizeItem(item).publishedAt
  {
  }

  /** A remote item that carries every field of a record whose link is empty or a watch URL. */
  function EmbedItem(it: PlaylistItem): Y.PlaylistItem
    requires it.link == "" || WatchUrlPrefix <= it.link
  {
    Y.PlaylistItem(
      Some(Y.PlaylistItemSnippet(Some(it.title), Some(it.description), Some(it.publishedAt), Some(it.positionInPlaylist))),
      if it.link == "" then None
      else Some(Y.PlaylistItemContentDetails(Some(it.link[|WatchUrlPrefix|..]), None)))
  }

  /** Normalizing an item whose fields are all present reproduces them verbatim. */
  lemma ItemRoundTrip(it: PlaylistItem)
    requires it.link == "" || WatchUrlPrefix <= it.link
    ensures NormalizeItem(EmbedItem(it)) == it
  {
    if it.link != "" {
      assert it.link == WatchUrlPrefix + it.link[|WatchUrlPrefix|..];
    }
  }
}
