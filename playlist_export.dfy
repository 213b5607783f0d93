/**
 * The `SavePlaylistsToJson` arm: fetch every playlist, normalize it, fetch
 * and normalize its items, and skip (with a diagnostic) the playlists
 * without an id.
 */
module PlaylistExport {
  import opened Wrappers
  import opened Seqs
  import opened Records
  import opened Pagination
  import opened Normalize
  import Y = Youtube3

  predicate HasId(p: Y.Playlist) {
    p.id.Some?
  }

  /** The record written for a playlist with its fetched items. */
  function Exported(p: Y.Playlist, items: seq<Y.PlaylistItem>): Playlist {
    NormalizePlaylist(p).(items := NormalizeAll(items))
  }

  /** The outcome for one playlist: skipped without an id, else its record or the panic of fetching its items. */
  function ExportOne(p: Y.Playlist, itemPages: string -> seq<Y.Reply<Y.PlaylistItem>>): Result<Option<Playlist>, Failure> {
    match p.id
    case None => Ok(None)
    case Some(id) =>
      match Fetched(itemPages(id), ItemsError(id))
      case Err(e) => Err(e)
      case Ok(items) => Ok(Some(Exported(p, items)))
  }

  /** The records for the playlists in order, or the first panic. */
  function ExportAll(ps: seq<Y.Playlist>, itemPages: string -> seq<Y.Reply<Y.PlaylistItem>>): Result<seq<Playlist>, Failure>
    decreases |ps|
  {
    if ps == [] then Ok([])
    else
      match ExportAll(ps[..|ps| - 1], itemPages)
      case Err(e) => Err(e)
      case Ok(out) =>
        match ExportOne(ps[|ps| - 1], itemPages)
        case Err(e) => Err(e)
        case Ok(None) => Ok(out)
        case Ok(Some(pl)) => Ok(out + [pl])
  }

  /** A panic on a prefix of the playlists is the outcome of the whole run. */
  lemma {:induction false} ExportAllErrPersists(ps: seq<Y.Playlist>, i: nat, itemPages: string -> seq<Y.Reply<Y.PlaylistItem>>)
    requires i <= |ps| && ExportAll(ps[..i], itemPages).Err?
    ensures ExportAll(ps, itemPages) == ExportAll(ps[..i], itemPages)
    decreases |ps| - i
  {
    if i < |ps| {
      var init := ps[..|ps| - 1];
      assert init[..i] == ps[..i];
      ExportAllErrPersists(init, i, itemPages);
    } else {
      assert ps[..i] == ps;
    }
  }

  /**
   * The run succeeds exactly when the items of every playlist with an id
   * can be fetched; it then writes one record per such playlist, in fetch
   * order, whose items are its fetched items normalized one by one.
   */
  lemma {:induction false} ExportAllKeepsIdentified(ps: seq<Y.Playlist>, itemPages: string -> seq<Y.Reply<Y.PlaylistItem>>)
    ensures ExportAll(ps, itemPages).Ok? <==>
      forall k :: 0 <= k < |ps| && ps[k].id.Some? ==> Fetched(itemPages(ps[k].id.value), ItemsError(ps[k].id.value)).Ok?
    ensures ExportAll(ps, itemPages).Ok? ==>
      var kept, out := Filter(ps, HasId), ExportAll(ps, itemPages).value;
      |out| == |kept|
      && forall k :: 0 <= k < |kept| ==> out[k] == Exported(kept[k], AllItems(itemPages(kept[k].id.value)))
    decreases |ps|
  {
    if ps != [] {
      var init, last := ps[..|ps| - 1], ps[|ps| - 1];
      assert ps == init + [last];
      ExportAllKeepsIdentified(init, itemPages);
      FilterAppend(init, [last], HasId);
      assert Filter([last], HasId) == if HasId(last) then [last] else [];
      if last.id.Some? {
        FetchedOk(itemPages(last.id.value), ItemsError(last.id.value));
      }
    }
  }

  /** One more playlist: the outcome so far, extended by that playlist's outcome. */
  lemma ExportAllStep(ps: seq<Y.Playlist>, i: nat, itemPages: string -> seq<Y.Reply<Y.PlaylistItem>>)
    requires i < |ps|
    ensures ExportAll(ps[..i + 1], itemPages) ==
      match ExportAll(ps[..i], itemPages)
      case Err(e) => Err(e)
      case Ok(out) =>
        match ExportOne(ps[i], itemPages)
        case Err(e) => Err(e)
        case Ok(None) => Ok(out)
        case Ok(Some(pl)) => Ok(out + [pl])
  {
    assert ps[..i + 1][..i] == ps[..i];
  }

  /** The inner loop of the arm: each fetched item normalized, in order. */
  method ParseItems(items: seq<Y.PlaylistItem>) returns (playlistItems: seq<PlaylistItem>)
    ensures playlistItems == NormalizeAll(items)
  {
    playlistItems := [];
    for j := 0 to |items|
      invariant playlistItems == NormalizeAll(items[..j])
    {
      var playlistItem := ParsePlaylistItem(items[j]);
      playlistItems := playlistItems + [playlistItem];
    }
    assert items[..|items|] == items;
  }

  /** The `SavePlaylistsToJson` arm up to the serialization of its output. */
  method SavePlaylists(playlistPages: seq<Y.Reply<Y.Playlist>>, itemPages: string -> seq<Y.Reply<Y.PlaylistItem>>)
    returns (r: Result<seq<Playlist>, Failure>)
    requires Linked(playlistPages)
    requires forall id :: Linked(itemPages(id))
    ensures Fetched(playlistPages, PlaylistsError).Err? ==> r == Err(Fetched(playlistPages, PlaylistsError).error)
    ensures Fetched(playlistPages, PlaylistsError).Ok? ==> r == ExportAll(Fetched(playlistPages, PlaylistsError).value, itemPages)
  {
    var outputPlaylists: seq<Playlist> := [];
    var playlists := RequestPlaylists(playlistPages);
    if playlists.Err? {
      r := Err(playlists.error);
      return;
    }
    var ps := playlists.value;

    for i := 0 to |ps|
      invariant ExportAll(ps[..i], itemPages) == Ok(outputPlaylists)
    {
      var p := ps[i];
      var playlist := ParsePlaylist(p);
      ExportAllStep(ps, i, itemPages);

      match p.id {
        case Some(id) =>
          var items := ParsePlaylistItems(itemPages(id), id);
          if items.Err? {
            ExportAllErrPersists(ps, i + 1, itemPages);
            r := Err(items.error);
            return;
          }
          var playlistItems := ParseItems(items.value);
          playlist := playlist.(items := playlistItems);
        case None =>
          continue;
      }

      outputPlaylists := outputPlaylists + [playlist];
    }

    assert ps[..|ps|] == ps;
    r := Ok(outputPlaylists);
  }
}
