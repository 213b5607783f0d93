# youtube-list core, modelled in Dafny

`youtube-list` is a command-line tool with two commands. One exports all of
a user's playlists and their items through the YouTube Data API v3. The other
turns a saved Watch Later HTML page into a list of videos. This project models
the part of `src/main.rs` that shapes the data:

- the cursor-driven pagination loops (`request_playlists`, `parse_playlist_items`);
- the normalization of API objects with optional fields into fully populated
  records (`get_text`, `parse_playlist`, `parse_playlist_item`);
- the video-id extraction from a watch link (`split_video_id`);
- the body of the `SavePlaylistsToJson` arm: normalize each playlist, fetch
  and normalize its items, skip playlists without an id;
- the body of the `SaveWatchLaterHtmlToJson` arm: build one item per content
  block, then keep only the items with a non-empty id.

Modules, one file each:

| file | module | what it holds |
|---|---|---|
| wrappers.dfy | `Wrappers` | `Option` with `unwrap_or`, `Result` |
| seqs.dfy | `Seqs` | order-preserving `Filter` |
| text.dfy | `Text` | Rust's `split` (with the pattern search it runs), `join` and `trim` on strings |
| youtube3.dfy | `Youtube3` | the API objects and one list call's reply |
| records.dfy | `Records` | `Playlist`, `PlaylistItem`, `SimplePlaylistItem`, the `new()` constructors, the panics |
| pagination.dfy | `Pagination` | the paging loop and the remote lister |
| normalize.dfy | `Normalize` | `get_text`, `parse_playlist`, `parse_playlist_item` |
| watch_later.dfy | `WatchLater` | `split_video_id`, per-block assembly, the final filter |
| playlist_export.dfy | `PlaylistExport` | the playlist-export loop |

Modelling choices:

- **Remote listing.** The remote listing is a finite sequence of replies. Page 0 answers
  the empty cursor, and page `i + 1` answers the cursor that page `i` handed out.
  `Serve` is the lister: it maps a cursor to its reply, and a cursor it never
  handed out to a failed call.
- **Paging loop.** `FetchAll` is the loop. It records the cursor of every call it makes
  and is proved equal to `Fetched`. `Fetched` is the declarative result: every page's
  items in page order, or the first panic.
- **Panics.** A panic is an `Err` of type `Failure`:
  - `expect` on a failed call gives `RequestFailed` with the message the code passes to `expect` (the API error's text is dropped);
  - `unwrap` on a page without items gives `ItemsMissing`;
  - `parts[1]` on a link without `watch?v=` gives `IndexOutOfBounds`.
- **Normalization.** `NormalizePlaylist` and `NormalizeItem` state field by field what
  each record holds. `ParsePlaylist` and `ParsePlaylistItem` build the record the
  program's way: they start from `new()` and assign the fields in order, including
  the overwrite of `published_at`. Each method is proved equal to its function.
- **Content blocks.** A block is what the three selectors found in it: the title text,
  the channel text, and for the link element its `href` attribute if present.
- **Integers.** `position_in_playlist` is a `uint32` newtype. No arithmetic is done on it.

Three behaviours of the code a reader may not expect, modelled as the code has them:

- With no snippet, `parse_playlist` leaves title, description, channel title,
  tags and date as the empty strings of `Playlist::new`. They are not `"NO_TITLE"`.
- `split_video_id` needs only `watch?v=`. Without `&list=`, the id runs to the
  end of the piece after `watch?v=`. A second `watch?v=` also ends the piece,
  because `split` cuts at every occurrence.
- A link element without `href` becomes `""`. `split_video_id("")` then panics,
  so such a block aborts the whole Watch Later run. It is not dropped.

## Model

| member | source | states |
|---|---|---|
| `Normalize.GetText` | src/main.rs:171-176 | the contained string when present, the default otherwise; total |
| `Normalize.ParsePlaylist` | src/main.rs:178-213 | the step-by-step construction from `Playlist::new` equals the field-by-field normal form |
| `Normalize.PlaylistIdAndStatus` | src/main.rs:179-191 | id is the playlist id or `""`; status is `privacy_status`, or `"Unknown"` when the status object or its field is absent; neither depends on the snippet |
| `Normalize.PlaylistWithoutSnippet` | src/main.rs:193-195 | without a snippet, title, description, channel title, tags and date stay `""`, and there are no items |
| `Normalize.PlaylistSnippetDefaults` | src/main.rs:195-207 | with a snippet: title, channel title and date default to `"NO_TITLE"`, description to `""`, and tags are the list joined with `", "` or `""` |
| `Normalize.TagsJoined` | src/main.rs:202 | `["a","b","c"]` flattens to `"a, b, c"` |
| `Normalize.PlaylistRoundTrip` | src/main.rs:178-213 | an object carrying every field of a record normalizes back to that record |
| `Normalize.PlaylistAllAbsent` | src/main.rs:178-213 | all fields absent give exactly the defaults (`"NO_TITLE"`, `""`, `"Unknown"`), with an empty snippet and with no snippet; a status object without `privacy_status` also gives `"Unknown"` |
| `Normalize.ParsePlaylistItem` | src/main.rs:215-240 | the step-by-step construction equals the normal form: the content details' date is overwritten by the snippet's |
| `Normalize.ItemWithoutSnippet` | src/main.rs:215-240 | without a snippet the item equals `PlaylistItem::new()` (all `""`, position 0), even with content details |
| `Normalize.ItemWithSnippet` | src/main.rs:218-234 | link is the watch URL of the video id (or of `""`) with content details and `""` without them; position defaults to 0; the date is the snippet's whatever the content details hold |
| `Normalize.ItemRoundTrip` | src/main.rs:215-240 | an object carrying every field of an item whose link is empty or a watch URL normalizes back to that item |
| `Text.IndexOf` | src/main.rs:243 | the index of the first occurrence of the pattern, or none exactly when it does not occur |
| `Text.Split` | src/main.rs:243-246 | at least one piece, the first a prefix of the input; more than one exactly when the pattern occurs; no piece contains the pattern |
| `Text.JoinSplit` | src/main.rs:243-246 | joining the pieces of a split with the pattern gives the input back |
| `Text.JoinSnoc` | src/main.rs:202 | joining one more tag adds the separator and that tag at the end |
| `Text.TrimStart` | src/main.rs:350 | a suffix of the input; only whitespace was removed and the result does not start with whitespace |
| `Text.TrimEnd` | src/main.rs:359 | the second half of `trim`: a prefix of the input; only whitespace was removed and the result does not end with whitespace |
| `Text.Trim` | src/main.rs:350 | a piece of the input with only whitespace on either side and none at its own ends |
| `Text.TrimIsBothEnds` | src/main.rs:359 | `trim` is `trim_start` followed by `trim_end` |
| `Pagination.ServeCursor` | src/main.rs:127-128 | in a linked listing the lister answers the cursor of page `i` with page `i`, and a cursor past the last page with a failed call |
| `Pagination.FetchAll` | src/main.rs:117-140 | the result is the fetch outcome; the first call uses `""` and each later call the previous reply's `next_page_token`; on success every page was requested, on failure exactly the pages up to the first faulty reply |
| `Pagination.RequestPlaylists` | src/main.rs:117-140 | fetches the playlists, failing with "Error fetching playlists" |
| `Pagination.ParsePlaylistItems` | src/main.rs:142-169 | fetches a playlist's items, failing with a message naming the playlist id |
| `Pagination.FetchedOk` | src/main.rs:131-136 | a fetch succeeds exactly when every page carries items and the last hands out no cursor, and it then yields all items in page order |
| `Pagination.PageItemsInPlace` | src/main.rs:131 | each page's items appear as one block, between those of the earlier and those of the later pages: no reordering, no deduplication |
| `Pagination.FetchedAtFault` | src/main.rs:121-131 | the first failed call aborts with `expect`'s message, and the first page without items with `unwrap`'s panic |
| `Pagination.FetchedStale` | src/main.rs:121-129 | a cursor the remote does not serve, or no reply at all, is a failed call |
| `Seqs.Filter` | src/main.rs:390 | no longer than the input; every element kept satisfies the predicate; every input element that satisfies it is kept |
| `Seqs.FilterAppend` | src/main.rs:390 | filtering distributes over concatenation, so relative order is preserved |
| `Seqs.FilterPartition` | src/main.rs:390 | the kept and the dropped elements together number the input |
| `WatchLater.SplitVideoId` | src/main.rs:242-249 | requires `watch?v=` in the link (otherwise `parts[1]` panics); the result contains neither `watch?v=` nor `&list=` |
| `WatchLater.SplitVideoIdExtracts` | src/main.rs:242-249 | for `p + "watch?v=" + id + "&list=" + r`, with `p` free of `watch?v=` and `id` of both markers, the result is `id` |
| `WatchLater.SplitVideoIdWithoutList` | src/main.rs:242-249 | for `p + "watch?v=" + id` without `&list=`, the result is `id` |
| `WatchLater.SplitVideoIdExample` | src/main.rs:242-249 | `https://x/watch?v=ABC123&list=XYZ` gives `ABC123` |
| `WatchLater.WatchUrlRoundTrip` | src/main.rs:227 | the watch URL built for an item gives its video id back |
| `WatchLater.AssembleItem` | src/main.rs:344-387 | a block either panics with an index out of bounds or yields an item whose id holds neither marker |
| `WatchLater.AssembleItemFields` | src/main.rs:349-385 | a block panics exactly when it has a link element whose `href` (or `""` when absent) holds no `watch?v=`; otherwise the title and channel are the trimmed texts or `""`, the link is the `href` or `""`, and the id is `""` without a link element and `split_video_id` of the link with one |
| `WatchLater.MissingHrefPanics` | src/main.rs:367-370 | a link element without `href` defaults to `""`, which holds no `watch?v=`, so the run panics |
| `WatchLater.LinklessBlockDropped` | src/main.rs:373-376 | a block without a link element yields `""` link and id and is dropped by the filter |
| `WatchLater.WatchLinkBlockKept` | src/main.rs:367-372 | a block linking to a watch URL with a non-empty id yields that id and is kept |
| `WatchLater.KeepIdentified` | src/main.rs:390 | every kept item has a non-empty id and comes from the input; every input item with a non-empty id is kept |
| `WatchLater.KeepIdentifiedInOrder` | src/main.rs:390 | kept items keep their original relative order |
| `WatchLater.KeepIdentifiedCount` | src/main.rs:390 | exactly the items with an empty id are dropped |
| `WatchLater.AssembledAt` | src/main.rs:344-387 | the assembly holds, at each position, the item built from the block at that position |
| `WatchLater.ExtractWatchLater` | src/main.rs:343-390 | succeeds exactly when no block panics, and then yields the items of all blocks, in order, minus those with an empty id |
| `PlaylistExport.ExportAllErrPersists` | src/main.rs:291-313 | a panic while exporting a playlist aborts the whole export |
| `PlaylistExport.ExportAllKeepsIdentified` | src/main.rs:291-313 | the export succeeds exactly when every playlist with an id has fetchable items; it then holds one record per such playlist, in fetch order, with that playlist's items normalized in order |
| `PlaylistExport.ParseItems` | src/main.rs:298-302 | the items of a playlist are its fetched items, each normalized, in order |
| `PlaylistExport.SavePlaylists` | src/main.rs:287-313 | a failed playlist fetch is the outcome; otherwise the outcome is the export of the fetched playlists, skipping those without an id |

## Left out

- OAuth setup, reading the secrets file and building the `YouTube` client (src/main.rs:258-284). This is network and authentication plumbing.
- Command-line parsing and the default file names (src/main.rs:21-37, 80-88, 315-319, 392-396).
- HTML parsing and CSS selector matching (src/main.rs:336-347). A content block is given as what the selectors found in it. The text of an element, which `text()` collects, is given as one string.
- JSON serialization, reading the input file, writing the output file and the printed count, and the branch for a missing input file (src/main.rs:321-325, 332, 398-405). These are library calls and I/O.
- The `println!`/`eprintln!` diagnostics, including the one for a skipped playlist (src/main.rs:307). The skip itself is modelled.
- The request parameters handed to the remote: the `snippet` parts, `mine(true)` and the page size `MAX_RESULTS = 40` (src/main.rs:19, 124-126, 150, 152). They have no local behaviour.
- The panic message texts of `unwrap` and of the out-of-range index. The kind of panic is modelled. For `expect`, only the caller's message is kept; the `: {err:?}` text of the API error that Rust appends to it is dropped.
- Pagination.FetchAll: requires `Linked`: a finite listing whose replies all hand out a cursor except the last, with no cursor handed out twice. A remote that keeps handing out fresh cursors, or one that leads back to an earlier page, would keep the loop running forever, and that is not modelled. A failed call is therefore always the last reply.
- PlaylistExport.SavePlaylists: the item listing of every playlist id must be linked in the same sense.
