/**
 * The cursor-driven loops of `request_playlists` and `parse_playlist_items`.
 *
 * The remote listing is a finite sequence of replies: page 0 is served for
 * the empty cursor and page i + 1 for the cursor that page i hands out.
 */
module Pagination {
  import opened Wrappers
  import opened Records
  import Y = Youtube3

  const PlaylistsError := "Error fetching playlists"

  function ItemsError(playlistId: string): string {
    "Error requesting playlist items for playlist_id: " + playlistId
  }

  /** The reply hands out a cursor for a further page. */
  predicate Issues<T>(reply: Y.Reply<T>) {
    reply.Page? && reply.nextPageToken.Some?
  }

  /** The reply is a page that carries its items. */
  predicate Good<T>(reply: Y.Reply<T>) {
    reply.Page? && reply.items.Some?
  }

  /** The cursor that requests page `i`: empty for the first page, else the one page `i - 1` handed out. */
  function CursorAt<T>(pages: seq<Y.Reply<T>>, i: nat): Option<string> {
    if i == 0 then Some("")
    else if i <= |pages| && pages[i - 1].Page? then pages[i - 1].nextPageToken
    else None
  }

  /**
   * A finite listing: every reply but the last hands out a cursor, and no
   * cursor is handed out twice (a cursor that led back to an earlier page
   * would make the loop run forever).
   */
  predicate Linked<T>(pages: seq<Y.Reply<T>>) {
    (forall k :: 0 <= k < |pages| - 1 ==> Issues(pages[k]))
    && (forall i: nat, j: nat :: i < j <= |pages| && CursorAt(pages, j).Some? ==> CursorAt(pages, i) != CursorAt(pages, j))
  }

  /** The remote lister: the reply for a cursor, or a failed call for a cursor it never handed out. */
  function Serve<T>(pages: seq<Y.Reply<T>>, token: string): Y.Reply<T> {
    ServeFrom(pages, token, 0)
  }

  function ServeFrom<T>(pages: seq<Y.Reply<T>>, token: string, from: nat): Y.Reply<T>
    decreases |pages| - from
  {
    if from >= |pages| then Y.CallFailed
    else if CursorAt(pages, from) == Some(token) then pages[from]
    else ServeFrom(pages, token, from + 1)
  }

  lemma {:induction false} ServeFromFinds<T>(pages: seq<Y.Reply<T>>, token: string, from: nat, i: nat)
    requires from <= i <= |pages|
    requires forall j: nat :: from <= j < i ==> CursorAt(pages, j) != Some(token)
    requires i < |pages| ==> CursorAt(pages, i) == Some(token)
    ensures ServeFrom(pages, token, from) == if i < |pages| then pages[i] else Y.CallFailed
    decreases i - from
  {
    if from < i {
      ServeFromFinds(pages, token, from + 1, i);
    }
  }

  /** In a linked listing the lister answers the cursor of page `i` with page `i`, and a stale last cursor with a failure. */
  lemma ServeCursor<T>(pages: seq<Y.Reply<T>>, i: nat)
    requires Linked(pages) && i <= |pages| && CursorAt(pages, i).Some?
    ensures Serve(pages, CursorAt(pages, i).value) == if i < |pages| then pages[i] else Y.CallFailed
  {
    ServeFromFinds(pages, CursorAt(pages, i).value, 0, i);
  }

  /** The items of a page; a reply without items adds nothing. */
  function PageItems<T>(reply: Y.Reply<T>): seq<T> {
    if Good(reply) then reply.items.value else []
  }

  /** The items of all pages, concatenated in page order. */
  function AllItems<T>(pages: seq<Y.Reply<T>>): seq<T>
    decreases |pages|
  {
    if pages == [] then [] else AllItems(pages[..|pages| - 1]) + PageItems(pages[|pages| - 1])
  }

  lemma {:induction false} AllItemsAppend<T>(a: seq<Y.Reply<T>>, b: seq<Y.Reply<T>>)
    ensures AllItems(a + b) == AllItems(a) + AllItems(b)
    decreases |b|
  {
    if b != [] {
      var b' := b[..|b| - 1];
      assert (a + b)[..|a + b| - 1] == a + b';
      assert (a + b)[|a + b| - 1] == b[|b| - 1];
      AllItemsAppend(a, b');
    } else {
      assert a + b == a;
    }
  }

  /**
   * No reordering: the items of page `i` sit, as a block, between the items
   * of the pages before it and those of the pages after it.
   */
  lemma {:induction false} PageItemsInPlace<T>(pages: seq<Y.Reply<T>>, i: nat)
    requires i < |pages|
    ensures AllItems(pages) == AllItems(pages[..i]) + PageItems(pages[i]) + AllItems(pages[i + 1..])
  {
    var before, page, after := pages[..i], [pages[i]], pages[i + 1..];
    assert pages == (before + page) + after;
    calc {
      AllItems(pages);
      AllItems((before + page) + after);
      { AllItemsAppend(before + page, after); }
      AllItems(before + page) + AllItems(after);
      { AllItemsAppend(before, page); }
      AllItems(before) + AllItems(page) + AllItems(after);
      { AllItemsSingle(pages[i]); }
      AllItems(before) + PageItems(pages[i]) + AllItems(after);
    }
  }

  lemma AllItemsSingle<T>(reply: Y.Reply<T>)
    ensures AllItems([reply]) == PageItems(reply)
  {
    assert [reply][..0] == [];
  }

  /** The index of the first reply that is not a page with items (|pages| if there is none). */
  function FirstFault<T>(pages: seq<Y.Reply<T>>): (k: nat)
    ensures k <= |pages|
    ensures forall j :: 0 <= j < k ==> Good(pages[j])
    ensures k < |pages| ==> !Good(pages[k])
    decreases |pages|
  {
    if pages == [] || !Good(pages[0]) then 0 else 1 + FirstFault(pages[1..])
  }

  /** The listing ends cleanly: every page carries its items and the last one hands out no cursor. */
  predicate Complete<T>(pages: seq<Y.Reply<T>>) {
    |pages| > 0 && (forall k :: 0 <= k < |pages| ==> Good(pages[k])) && !Issues(pages[|pages| - 1])
  }

  /**
   * What fetching a whole listing yields: every page's items in page order,
   * or the panic of the first call that went wrong: `expect` (with `context`)
   * on a failed call, `unwrap` on a page without items.
   */
  function Fetched<T>(pages: seq<Y.Reply<T>>, context: string): Result<seq<T>, Failure> {
    var k := FirstFault(pages);
    if k < |pages| then Err(if pages[k].CallFailed? then RequestFailed(context) else ItemsMissing)
    else if Complete(pages) then Ok(AllItems(pages))
    else Err(RequestFailed(context))
  }

  /** A fetch succeeds exactly on a complete listing, and then yields the concatenation of all pages. */
  lemma FetchedOk<T>(pages: seq<Y.Reply<T>>, context: string)
    ensures Fetched(pages, context).Ok? <==> Complete(pages)
    ensures Complete(pages) ==> Fetched(pages, context) == Ok(AllItems(pages))
  {
  }

  /** The fetch fails at the first reply that is not a page with items. */
  lemma FetchedAtFault<T>(pages: seq<Y.Reply<T>>, i: nat, context: string)
    requires i < |pages| && !Good(pages[i]) && forall k :: 0 <= k < i ==> Good(pages[k])
    ensures Fetched(pages, context) == Err(if pages[i].CallFailed? then RequestFailed(context) else ItemsMissing)
  {
    var k := FirstFault(pages);
    assert k == i;
  }

  /** With every page good, a last page that still hands out a cursor (or no page at all) means a failed call. */
  lemma FetchedStale<T>(pages: seq<Y.Reply<T>>, context: string)
    requires forall k :: 0 <= k < |pages| ==> Good(pages[k])
    requires |pages| == 0 || Issues(pages[|pages| - 1])
    ensures Fetched(pages, context) == Err(RequestFailed(context))
  {
  }

  /**
   * The loop of `request_playlists` / `parse_playlist_items`: start from the
   * empty cursor, append each page's items, follow `next_page_token` until
   * it is absent. `requests` records the cursor of every call made.
   */
  method FetchAll<T>(pages: seq<Y.Reply<T>>, context: string) returns (r: Result<seq<T>, Failure>, ghost requests: seq<string>)
    requires Linked(pages)
    ensures r == Fetched(pages, context)
    ensures 1 <= |requests| <= |pages| + 1 && requests[0] == ""
    ensures forall k :: 0 < k < |requests| ==> pages[k - 1].Page? && pages[k - 1].nextPageToken == Some(requests[k])
    ensures r.Ok? ==> |requests| == |pages|
    ensures r.Err? ==> |requests| == FirstFault(pages) + 1
  {
    var currPageToken := "";
    var items: seq<T> := [];
    ghost var i: nat := 0;
    requests := [currPageToken];
    while true
      invariant i <= |pages| && CursorAt(pages, i) == Some(currPageToken)
      invariant |requests| == i + 1 && requests[0] == "" && requests[i] == currPageToken
      invariant forall k :: 0 < k < |requests| ==> pages[k - 1].Page? && pages[k - 1].nextPageToken == Some(requests[k])
      invariant forall k :: 0 <= k < i ==> Good(pages[k])
      invariant items == AllItems(pages[..i])
      decreases |pages| - i
    {
      ServeCursor(pages, i);
      var result := Serve(pages, currPageToken);
      if result.CallFailed? {
        if i < |pages| {
          FetchedAtFault(pages, i, context);
        } else {
          FetchedStale(pages, context);
        }
        r := Err(RequestFailed(context));
        return;
      }
      if result.items.None? {
        FetchedAtFault(pages, i, context);
        r := Err(ItemsMissing);
        return;
      }
      NextItems(pages, i);
      items := items + result.items.value;
      match result.nextPageToken {
        case Some(token) =>
          currPageToken := token;
        case None =>
          assert pages[..i + 1] == pages;
          r := Ok(items);
          return;
      }
      i := i + 1;
      requests := requests + [currPageToken];
    }
  }

  lemma NextItems<T>(pages: seq<Y.Reply<T>>, i: nat)
    requires i < |pages| && Good(pages[i])
    ensures AllItems(pages[..i + 1]) == AllItems(pages[..i]) + pages[i].items.value
  {
    assert pages[..i + 1] == pages[..i] + [pages[i]];
    AllItemsAppend(pages[..i], [pages[i]]);
    AllItemsSingle(pages[i]);
  }

  /** `request_playlists`. */
  method RequestPlaylists(pages: seq<Y.Reply<Y.Playlist>>) returns (r: Result<seq<Y.Playlist>, Failure>)
    requires Linked(pages)
    ensures r == Fetched(pages, PlaylistsError)
  {
    ghost var requests;
    r, requests := FetchAll(pages, PlaylistsError);
  }

  /** `parse_playlist_items`: the same loop over the items of one playlist. */
  method ParsePlaylistItems(pages: seq<Y.Reply<Y.PlaylistItem>>, playlistId: string) returns (r: Result<seq<Y.PlaylistItem>, Failure>)
    requires Linked(pages)
    ensures r == Fetched(pages, ItemsError(playlistId))
  {
    ghost var requests;
    r, requests := FetchAll(pages, ItemsError(playlistId));
  }
}
