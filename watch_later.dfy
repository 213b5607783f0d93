/**
 * `split_video_id` and the `SaveWatchLaterHtmlToJson` arm: one
 * `SimplePlaylistItem` per content block of a saved Watch Later page, then
 * only the items whose id is not empty.
 *
 * The HTML parsing and selector matching are not modelled: a content block
 * is what the three selectors found in it.
 */
module WatchLater {
  import opened Wrappers
  import opened Text
  import opened Seqs
  import opened Records
  import Normalize

  const WatchMarker := "watch?v="
  const ListMarker := "&list="

  /**
   * `split_video_id`: the piece after the first `watch?v=` (up to a further
   * `watch?v=`, if any), cut at its first `&list=`. Indexing the second piece
   * of the split panics when `watch?v=` is absent, hence the precondition.
   */
  function SplitVideoId(link: string): (id: string)
    requires Contains(link, WatchMarker)
    ensures !Contains(id, WatchMarker) && !Contains(id, ListMarker)
  {
    var parts := Split(link, WatchMarker);
    var parts' := Split(parts[1], ListMarker);
    PrefixKeepsAbsence(parts[1], parts'[0], WatchMarker);
    parts'[0]
  }

  /** A character of `pat` that `s` lacks rules out every occurrence of `pat` in `s`. */
  lemma MissingCharExcludes(s: string, pat: string, c: char)
    requires c in pat && c !in s
    ensures !Contains(s, pat)
  {
    var m :| 0 <= m < |pat| && pat[m] == c;
    forall j: nat | j <= |s| - |pat| ensures !OccursAt(s, pat, j) {
      assert j + m < |s|;
      assert s[j..j + |pat|][m] == s[j + m];
    }
  }

  /** No later character of `pat` equals its first. */
  predicate HeadUnique(pat: string) {
    |pat| > 0 && forall k :: 0 < k < |pat| ==> pat[k] != pat[0]
  }

  lemma MarkerFacts()
    ensures HeadUnique(WatchMarker) && HeadUnique(ListMarker)
    ensures WatchMarker[0] !in ListMarker && ListMarker[0] !in WatchMarker
    ensures '?' in WatchMarker && '&' in ListMarker
  {
  }

  /** If `a` lacks `pat` and `b` starts with it, the first occurrence in `a + b` is where `b` starts. */
  lemma FoundAtJunction(a: string, b: string, pat: string)
    requires HeadUnique(pat) && !Contains(a, pat) && pat <= b
    ensures IndexOf(a + b, pat) == Some(|a|)
  {
    var s := a + b;
    assert s[|a|..|a| + |pat|] == b[..|pat|];
    assert OccursAt(s, pat, |a|);
    forall j: nat | j < |a| ensures !OccursAt(s, pat, j) {
      if j + |pat| <= |a| {
        assert s[j..j + |pat|] == a[j..j + |pat|];
        assert !OccursAt(a, pat, j);
      } else if j + |pat| <= |s| {
        assert s[|a|] == pat[0];
        assert s[j..j + |pat|][|a| - j] == s[|a|];
        assert pat[|a| - j] != pat[0];
      }
    }
  }

  /**
   * If `a` lacks `pat`, and `m` neither contains the first character of
   * `pat` nor starts with a character of `pat`, then `pat` does not occur in
   * `a + m + rest` before the end of `m`.
   */
  lemma NotFoundBeforeBarrier(a: string, m: string, rest: string, pat: string)
    requires |pat| > 0 && |m| > 0 && !Contains(a, pat)
    requires pat[0] !in m && m[0] !in pat
    ensures forall j: nat :: j < |a| + |m| ==> !OccursAt(a + m + rest, pat, j)
  {
    var s := a + m + rest;
    forall j: nat | j < |a| + |m| ensures !OccursAt(s, pat, j) {
      if j + |pat| > |s| {
      } else if j + |pat| <= |a| {
        assert s[j..j + |pat|] == a[j..j + |pat|];
        assert !OccursAt(a, pat, j);
      } else if j <= |a| {
        assert s[|a|] == m[0];
        assert s[j..j + |pat|][|a| - j] == s[|a|];
        assert pat[|a| - j] in pat;
      } else {
        assert s[j] == m[j - |a|];
        assert s[j..j + |pat|][0] == s[j];
      }
    }
  }

  /**
   * For `link = p + "watch?v=" + id + "&list=" + rest`, where `p` holds no
   * `watch?v=` and `id` neither marker, `split_video_id` returns `id`.
   */
  lemma {:induction false} SplitVideoIdExtracts(p: string, id: string, rest: string)
    requires !Contains(p, WatchMarker) && !Contains(id, WatchMarker) && !Contains(id, ListMarker)
    ensures Contains(p + WatchMarker + id + ListMarker + rest, WatchMarker)
    ensures SplitVideoId(p + WatchMarker + id + ListMarker + rest) == id
  {
    MarkerFacts();
    var after := id + ListMarker + rest;
    var link := p + WatchMarker + after;
    assert p + WatchMarker + id + ListMarker + rest == link;
    FoundAtJunction(p, WatchMarker + after, WatchMarker);
    assert link == p + (WatchMarker + after);
    SplitSecond(link, WatchMarker, p, after);
    var segment := Split(after, WatchMarker)[0];
    IdBeforeList(id, rest, segment);
  }

  /** The piece of `id + "&list=" + rest` before any `watch?v=` still holds all of `id + "&list="`; cutting it at `&list=` gives `id`. */
  lemma IdBeforeList(id: string, rest: string, segment: string)
    requires !Contains(id, WatchMarker) && !Contains(id, ListMarker)
    requires segment == Split(id + ListMarker + rest, WatchMarker)[0]
    ensures Split(segment, ListMarker)[0] == id
  {
    var n := |id| + |ListMarker|;
    SegmentKeepsList(id, rest, segment);
    MarkerFacts();
    assert segment == id + (ListMarker + segment[n..]);
    FoundAtJunction(id, ListMarker + segment[n..], ListMarker);
    SplitFirst(segment, ListMarker);
  }

  /** No `watch?v=` starts inside `id + "&list="`, so the first piece of the split keeps all of it. */
  lemma SegmentKeepsList(id: string, rest: string, segment: string)
    requires !Contains(id, WatchMarker)
    requires segment == Split(id + ListMarker + rest, WatchMarker)[0]
    ensures |id| + |ListMarker| <= |segment| && segment[..|id| + |ListMarker|] == id + ListMarker
  {
    var after := id + ListMarker + rest;
    var n := |id| + |ListMarker|;
    MarkerFacts();
    NotFoundBeforeBarrier(id, ListMarker, rest, WatchMarker);
    SplitFirst(after, WatchMarker);
    match IndexOf(after, WatchMarker)
    case None =>
      assert segment == after;
    case Some(i) =>
      assert i >= n;
      assert segment == after[..i];
    assert after[..n] == id + ListMarker;
  }

  /** Without `&list=` the id runs to the end of the link. */
  lemma SplitVideoIdWithoutList(p: string, id: string)
    requires !Contains(p, WatchMarker) && !Contains(id, WatchMarker) && !Contains(id, ListMarker)
    ensures Contains(p + WatchMarker + id, WatchMarker)
    ensures SplitVideoId(p + WatchMarker + id) == id
  {
    MarkerFacts();
    var link := p + WatchMarker + id;
    assert link == p + (WatchMarker + id);
    FoundAtJunction(p, WatchMarker + id, WatchMarker);
    SplitSecond(link, WatchMarker, p, id);
    SplitFirst(id, WatchMarker);
    SplitFirst(id, ListMarker);
  }

  /** The watch URLs that `parse_playlist_item` builds give their video id back. */
  lemma WatchUrlRoundTrip(videoId: string)
    requires !Contains(videoId, WatchMarker) && !Contains(videoId, ListMarker)
    ensures Contains(Normalize.WatchUrl(videoId), WatchMarker)
    ensures SplitVideoId(Normalize.WatchUrl(videoId)) == videoId
  {
    var p := "https://www.youtube.com/";
    MarkerFacts();
    MissingCharExcludes(p, WatchMarker, '?');
    assert Normalize.WatchUrl(videoId) == p + WatchMarker + videoId;
    SplitVideoIdWithoutList(p, videoId);
  }

  lemma SplitVideoIdExample()
    ensures Contains("https://x/watch?v=ABC123&list=XYZ", WatchMarker)
    ensures SplitVideoId("https://x/watch?v=ABC123&list=XYZ") == "ABC123"
  {
    MarkerFacts();
    MissingCharExcludes("https://x/", WatchMarker, '?');
    MissingCharExcludes("ABC123", WatchMarker, '?');
    MissingCharExcludes("ABC123", ListMarker, '&');
    assert "https://x/watch?v=ABC123&list=XYZ" == "https://x/" + WatchMarker + "ABC123" + ListMarker + "XYZ";
    SplitVideoIdExtracts("https://x/", "ABC123", "XYZ");
  }

  /**
   * What the selectors found in one content block: the text of the first
   * `#video-title` element, the text of the first `#text` element, and for
   * the first `#content > a` element its `href` attribute, if any.
   */
  datatype ContentBlock = ContentBlock(
    titleText: Option<string>,
    channelText: Option<string>,
    link: Option<Option<string>>)

  /**
   * The item built from one block: trimmed texts defaulting to "", link and
   * id "" when there is no link element; an absent `href` reads as "", and
   * a link without `watch?v=` makes `split_video_id` panic.
   */
  function AssembleItem(block: ContentBlock): (r: Result<SimplePlaylistItem, Failure>)
    ensures r.Err? ==> r.error == IndexOutOfBounds
    ensures r.Ok? ==> !Contains(r.value.id, WatchMarker) && !Contains(r.value.id, ListMarker)
  {
    var itemTitle := if block.titleText.Some? then Trim(block.titleText.value) else "";
    var itemChannel := if block.channelText.Some? then Trim(block.channelText.value) else "";
    match block.link
    case None => Ok(SimplePlaylistItem(itemTitle, itemChannel, "", ""))
    case Some(href) =>
      var itemLink := href.UnwrapOr("");
      if Contains(itemLink, WatchMarker) then
        Ok(SimplePlaylistItem(itemTitle, itemChannel, itemLink, SplitVideoId(itemLink)))
      else
        Err(IndexOutOfBounds)
  }

  /**
   * Field by field: a block panics exactly when it has a link element whose
   * `href` (or "" when absent) holds no `watch?v=`; otherwise the title and
   * channel are the trimmed texts or "", the link is the `href` or "", and
   * the id is "" without a link element and `split_video_id` of the link with one.
   */
  lemma AssembleItemFields(block: ContentBlock)
    ensures AssembleItem(block).Err? <==> block.link.Some? && !Contains(block.link.value.UnwrapOr(""), WatchMarker)
    ensures var r := AssembleItem(block);
      r.Ok? ==>
        r.value.title == (if block.titleText.Some? then Trim(block.titleText.value) else "")
        && r.value.channelName == (if block.channelText.Some? then Trim(block.channelText.value) else "")
        && r.value.link == (if block.link.Some? then block.link.value.UnwrapOr("") else "")
        && (block.link.None? ==> r.value.id == "")
        && (block.link.Some? ==> Contains(r.value.link, WatchMarker) && r.value.id == SplitVideoId(r.value.link))
  {
  }

  /** A link element without `href` yields "", which `split_video_id` cannot split: the run panics. */
  lemma MissingHrefPanics(titleText: Option<string>, channelText: Option<string>)
    ensures !Contains("", WatchMarker)
    ensures AssembleItem(ContentBlock(titleText, channelText, Some(None))) == Err(IndexOutOfBounds)
  {
  }

  /** A block without a link element yields empty link and id, so it is filtered out. */
  lemma LinklessBlockDropped(block: ContentBlock)
    requires block.link.None?
    ensures AssembleItem(block).Ok?
    ensures AssembleItem(block).value.link == "" && AssembleItem(block).value.id == ""
    ensures KeepIdentified([AssembleItem(block).value]) == []
  {
  }

  /** A block whose link is a watch URL of a non-empty id yields that id and is kept. */
  lemma WatchLinkBlockKept(block: ContentBlock, p: string, id: string, rest: string)
    requires block.link == Some(Some(p + WatchMarker + id + ListMarker + rest))
    requires !Contains(p, WatchMarker) && !Contains(id, WatchMarker) && !Contains(id, ListMarker)
    requires id != ""
    ensures AssembleItem(block).Ok? && AssembleItem(block).value.id == id
    ensures KeepIdentified([AssembleItem(block).value]) == [AssembleItem(block).value]
  {
    SplitVideoIdExtracts(p, id, rest);
  }

  predicate HasVideoId(item: SimplePlaylistItem) {
    item.id != ""
  }

  /** The final filter: the items whose id is not empty, in their original order. */
  function KeepIdentified(items: seq<SimplePlaylistItem>): (r: seq<SimplePlaylistItem>)
    ensures |r| <= |items|
    ensures forall k :: 0 <= k < |r| ==> r[k].id != "" && r[k] in items
    ensures forall k :: 0 <= k < |items| && items[k].id != "" ==> items[k] in r
  {
    Filter(items, HasVideoId)
  }

  /** Dropping items commutes with concatenation, so the kept items keep their relative order. */
  lemma KeepIdentifiedInOrder(a: seq<SimplePlaylistItem>, b: seq<SimplePlaylistItem>)
    ensures KeepIdentified(a + b) == KeepIdentified(a) + KeepIdentified(b)
  {
    FilterAppend(a, b, HasVideoId);
  }

  /** Exactly the items with an empty id are dropped. */
  lemma KeepIdentifiedCount(items: seq<SimplePlaylistItem>)
    ensures |KeepIdentified(items)| == |items| - |Filter(items, Not(HasVideoId))|
  {
    FilterPartition(items, HasVideoId);
  }

  /** The items of all blocks, in block order, when none of them panics. */
  function Assembled(blocks: seq<ContentBlock>): (items: seq<SimplePlaylistItem>)
    requires forall k :: 0 <= k < |blocks| ==> AssembleItem(blocks[k]).Ok?
    ensures |items| == |blocks|
    decreases |blocks|
  {
    if blocks == [] then []
    else
      var last := |blocks| - 1;
      assert forall k :: 0 <= k < last ==> blocks[..last][k] == blocks[k];
      Assembled(blocks[..last]) + [AssembleItem(blocks[last]).value]
  }

  lemma AssembledStep(blocks: seq<ContentBlock>, i: nat)
    requires i < |blocks| && forall k :: 0 <= k <= i ==> AssembleItem(blocks[k]).Ok?
    ensures Assembled(blocks[..i + 1]) == Assembled(blocks[..i]) + [AssembleItem(blocks[i]).value]
  {
    assert blocks[..i + 1][..i] == blocks[..i];
  }

  /** Item `k` of the assembly is the item built from block `k`. */
  lemma {:induction false} AssembledAt(blocks: seq<ContentBlock>, k: nat)
    requires forall j :: 0 <= j < |blocks| ==> AssembleItem(blocks[j]).Ok?
    requires k < |blocks|
    ensures Assembled(blocks)[k] == AssembleItem(blocks[k]).value
    decreases |blocks|
  {
    var last := |blocks| - 1;
    var init := blocks[..last];
    if k < last {
      assert init[k] == blocks[k];
      assert forall j :: 0 <= j < |init| ==> init[j] == blocks[j];
      AssembledAt(init, k);
    }
  }

  /** The `SaveWatchLaterHtmlToJson` arm, from the matched content blocks to the items it writes out. */
  method ExtractWatchLater(blocks: seq<ContentBlock>) returns (r: Result<seq<SimplePlaylistItem>, Failure>)
    ensures r.Ok? <==> forall k :: 0 <= k < |blocks| ==> AssembleItem(blocks[k]).Ok?
    ensures r.Ok? ==> r.value == KeepIdentified(Assembled(blocks))
    ensures r.Err? ==> r.error == IndexOutOfBounds
  {
    var playlistItems: seq<SimplePlaylistItem> := [];
    for i := 0 to |blocks|
      invariant forall k :: 0 <= k < i ==> AssembleItem(blocks[k]).Ok?
      invariant playlistItems == Assembled(blocks[..i])
    {
      var item := AssembleItem(blocks[i]);
      if item.Err? {
        r := Err(item.error);
        return;
      }
      AssembledStep(blocks, i);
      playlistItems := playlistItems + [item.value];
    }
    assert blocks[..|blocks|] == blocks;
    r := Ok(KeepIdentified(playlistItems));
  }
}
