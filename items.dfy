/**
 * The per-item part both handler variants share: reading one listing node
 * into an `Item` (trim, default), collecting the items in document order,
 * and turning each item into a feed item, failing the whole feed on the
 * first duration that does not parse or item the library refuses.
 */
module Items {
  import opened Wrappers
  import opened GoText
  import opened Duration
  import opened PodcastLib
  import opened Rumble

  /** One listing node's strings as the selectors read them; a missing node or attribute reads as "". */
  datatype Selection = Selection(
    badgeText: string,        // text of div.videostream__badge
    titleText: string,        // text of h3.thumbnail__title
    descriptionText: string,  // text of div.videostream__description
    datetime: string,         // datetime attribute of div.videostream__data time
    href: string,             // href attribute of a.videostream__link
    thumbnailSrc: string)     // src attribute of img.thumbnail__image

  /** The handlers' `Item` record. */
  datatype Item = Item(
    title: string,
    description: string,
    duration: string,
    publishTime: string,
    thumbnailSrc: string,
    link: string)

  const UnknownTitle: string := "unknown title"
  const UnknownDescription: string := "unknown description"

  // ---------------------------------------------------------------------
  // Extraction
  // ---------------------------------------------------------------------

  /** The body of the per-node callback. */
  function ExtractItem(sel: Selection): Item
  {
    var title := TrimSpace(sel.titleText);
    var description := TrimSpace(sel.descriptionText);
    Item(
      title := if title == "" then UnknownTitle else title,
      description := if description == "" then UnknownDescription else description,
      duration := TrimSpace(sel.badgeText),
      publishTime := sel.datetime,
      thumbnailSrc := sel.thumbnailSrc,
      link := if sel.href == "" then BaseURL else sel.href)
  }

  /** One item per listing node, in document order. */
  function Extracted(listing: seq<Selection>): seq<Item>
    decreases |listing|
  {
    if listing == [] then []
    else Extracted(listing[..|listing| - 1]) + [ExtractItem(listing[|listing| - 1])]
  }

  /** Extraction keeps count and order: item k comes from node k. */
  lemma {:induction false} ExtractedAt(listing: seq<Selection>)
    ensures |Extracted(listing)| == |listing|
    ensures forall k :: 0 <= k < |listing| ==> Extracted(listing)[k] == ExtractItem(listing[k])
    decreases |listing|
  {
    if listing != [] {
      var init := listing[..|listing| - 1];
      ExtractedAt(init);
      var e, last := Extracted(listing), ExtractItem(listing[|listing| - 1]);
      assert e == Extracted(init) + [last];
      forall k | 0 <= k < |listing|
        ensures e[k] == ExtractItem(listing[k])
      {
        if k < |init| {
          assert e[k] == Extracted(init)[k] && init[k] == listing[k];
        }
      }
    }
  }

  /** The `Each` loop appending one item per node. */
  method ExtractItems(listing: seq<Selection>) returns (items: seq<Item>)
    ensures items == Extracted(listing)
  {
    items := [];
    var i := 0;
    while i < |listing|
      invariant 0 <= i <= |listing|
      invariant items == Extracted(listing[..i])
    {
      var item := ExtractItem(listing[i]);
      assert listing[..i + 1][..i] == listing[..i];
      items := items + [item];
      i := i + 1;
    }
    assert listing[..i] == listing;
  }

  /**
   * Title and description are the trimmed text, or the "unknown" default
   * when nothing but white space was read, so they are never empty; the
   * badge is trimmed and is empty exactly when it held only white space; a
   * missing href becomes the base URL.
   */
  lemma {:induction false} ExtractItemSpec(sel: Selection)
    ensures ExtractItem(sel).title != "" && ExtractItem(sel).description != ""
    ensures AllSpace(sel.titleText) ==> ExtractItem(sel).title == UnknownTitle
    ensures !AllSpace(sel.titleText) ==> ExtractItem(sel).title == TrimSpace(sel.titleText)
    ensures AllSpace(sel.descriptionText) ==> ExtractItem(sel).description == UnknownDescription
    ensures !AllSpace(sel.descriptionText) ==> ExtractItem(sel).description == TrimSpace(sel.descriptionText)
    ensures ExtractItem(sel).duration == "" <==> AllSpace(sel.badgeText)
    ensures ExtractItem(sel).link == if sel.href == "" then BaseURL else sel.href
    ensures ExtractItem(sel).link != ""
  {
    TrimSpaceSpec(sel.titleText);
    TrimSpaceSpec(sel.descriptionText);
    TrimSpaceSpec(sel.badgeText);
  }

  // ---------------------------------------------------------------------
  // Assembly
  // ---------------------------------------------------------------------

  /** Why a feed was not produced: a badge that did not parse, or an item the library refused. */
  datatype FeedError = BadDuration(cause: DurationError) | AddItemFailed

  /** The item's publish time: zero when the page gave none. */
  function PubDate(publishTime: string): Time
  {
    if publishTime == "" then Zero else At(publishTime)
  }

  function WithImage(fi: FeedItem, src: string): FeedItem
  {
    if src != "" then fi.AddImage(src) else fi
  }

  /** The feed item built from one `Item`, or the duration error that stops the feed. */
  function ToFeedItem(item: Item): (r: Result<FeedItem, FeedError>)
  {
    var fi := FeedItem(item.title, BaseURL + item.link, item.description, PubDate(item.publishTime), None, None);
    if item.duration == "" then Ok(WithImage(fi, item.thumbnailSrc))
    else
      match ParseDuration(item.duration)
      case Err(e) => Err(BadDuration(e))
      case Ok(seconds) => Ok(WithImage(fi.AddDuration(seconds), item.thumbnailSrc))
  }

  /** The item becomes a feed item and the library takes it. */
  predicate Admitted(item: Item, accepts: FeedItem -> bool)
  {
    ToFeedItem(item).Ok? && accepts(ToFeedItem(item).value)
  }

  /** The error an item that is not admitted stops the feed with. */
  function Refusal(item: Item, accepts: FeedItem -> bool): FeedError
  {
    if ToFeedItem(item).Err? then ToFeedItem(item).error else AddItemFailed
  }

  /** The items added in order; the first item not admitted stops everything with its error. */
  function Assemble(items: seq<Item>, accepts: FeedItem -> bool): (r: Result<seq<FeedItem>, FeedError>)
    decreases |items|
  {
    if items == [] then Ok([])
    else
      match Assemble(items[..|items| - 1], accepts)
      case Err(e) => Err(e)
      case Ok(done) =>
        var last := items[|items| - 1];
        if Admitted(last, accepts) then Ok(done + [ToFeedItem(last).value])
        else Err(Refusal(last, accepts))
  }

  /** Assembling one more item: it is added when admitted, otherwise its refusal ends the feed. */
  lemma {:induction false} AssembleStep(items: seq<Item>, i: nat, accepts: FeedItem -> bool)
    requires i < |items| && Assemble(items[..i], accepts).Ok?
    ensures ToFeedItem(items[i]).Err? ==> Assemble(items[..i + 1], accepts) == Err(ToFeedItem(items[i]).error)
    ensures ToFeedItem(items[i]).Ok? && !accepts(ToFeedItem(items[i]).value) ==>
              Assemble(items[..i + 1], accepts) == Err(AddItemFailed)
    ensures ToFeedItem(items[i]).Ok? && accepts(ToFeedItem(items[i]).value) ==>
              Assemble(items[..i + 1], accepts) == Ok(Assemble(items[..i], accepts).value + [ToFeedItem(items[i]).value])
  {
    assert items[..i + 1][..i] == items[..i];
    assert items[..i + 1][i] == items[i];
  }

  /** Once a prefix has failed, the whole sequence fails with the same error. */
  lemma {:induction false} AssembleErrSticks(items: seq<Item>, k: nat, accepts: FeedItem -> bool)
    requires k <= |items| && Assemble(items[..k], accepts).Err?
    ensures Assemble(items, accepts) == Assemble(items[..k], accepts)
    decreases |items|
  {
    if k == |items| {
      assert items[..k] == items;
    } else {
      var init := items[..|items| - 1];
      assert init[..k] == items[..k];
      AssembleErrSticks(init, k, accepts);
    }
  }

  /**
   * The body of the item loop up to `AddItem`: a feed item with the item's
   * title, description, the base URL followed by its link and its publish
   * time; then a duration when the badge is non-empty (or the parse error),
   * then an image when there is a thumbnail.
   */
  method BuildFeedItem(it: Item) returns (r: Result<FeedItem, FeedError>)
    ensures r == ToFeedItem(it)
  {
    var publishTime := Zero;
    if it.publishTime != "" {
      publishTime := At(it.publishTime);
    }
    var fi := FeedItem(it.title, BaseURL + it.link, it.description, publishTime, None, None);
    if it.duration != "" {
      var d := ParseDuration(it.duration);
      if d.Err? {
        return Err(BadDuration(d.error));
      }
      fi := fi.AddDuration(d.value);
    }
    if it.thumbnailSrc != "" {
      fi := fi.AddImage(it.thumbnailSrc);
    }
    return Ok(fi);
  }

  /**
   * The loop over the items: build each feed item, add it to `p`, and stop at
   * the first failure. The feed's header is untouched; on success exactly the
   * assembled items were appended.
   */
  method AddItems(p: Podcast, items: seq<Item>, accepts: FeedItem -> bool) returns (err: Option<FeedError>)
    modifies p
    ensures Assemble(items, accepts).Ok? ==>
              err == None && p.Doc() == old(p.Doc()).(items := old(p.items) + Assemble(items, accepts).value)
    ensures Assemble(items, accepts).Err? ==>
              err == Some(Assemble(items, accepts).error)
              && p.Doc() == old(p.Doc()).(items := p.items) && old(p.items) <= p.items
  {
    ghost var done: seq<FeedItem> := [];
    var i := 0;
    while i < |items|
      invariant 0 <= i <= |items|
      invariant Assemble(items[..i], accepts) == Ok(done)
      invariant p.Doc() == old(p.Doc()).(items := old(p.items) + done)
    {
      var built := BuildFeedItem(items[i]);
      AssembleStep(items, i, accepts);
      if built.Err? {
        AssembleErrSticks(items, i + 1, accepts);
        return Some(built.error);
      }
      var fi := built.value;
      var ok := p.AddItem(fi, accepts);
      if !ok {
        AssembleErrSticks(items, i + 1, accepts);
        return Some(AddItemFailed);
      }
      done := done + [fi];
      i := i + 1;
    }
    assert items[..i] == items;
    return None;
  }

  // ---------------------------------------------------------------------
  // What assembly promises
  // ---------------------------------------------------------------------

  /**
   * The feed is produced exactly when every item is admitted, and then it has
   * one feed item per item, in the same order.
   */
  lemma {:induction false} AssembleOk(items: seq<Item>, accepts: FeedItem -> bool)
    ensures Assemble(items, accepts).Ok? <==> forall k :: 0 <= k < |items| ==> Admitted(items[k], accepts)
    ensures Assemble(items, accepts).Ok? ==>
              |Assemble(items, accepts).value| == |items|
              && forall k :: 0 <= k < |items| ==> ToFeedItem(items[k]) == Ok(Assemble(items, accepts).value[k])
    decreases |items|
  {
    if items != [] {
      var init, last := items[..|items| - 1], items[|items| - 1];
      AssembleOk(init, accepts);
      var whole := Assemble(items, accepts);
      if Assemble(init, accepts).Err? {
        var k :| 0 <= k < |init| && !Admitted(init[k], accepts);
        assert items[k] == init[k];
      } else if Admitted(last, accepts) {
        var done := Assemble(init, accepts).value;
        assert whole.value == done + [ToFeedItem(last).value];
        forall k | 0 <= k < |items|
          ensures Admitted(items[k], accepts) && ToFeedItem(items[k]) == Ok(whole.value[k])
        {
          if k < |init| {
            assert items[k] == init[k] && whole.value[k] == done[k];
          }
        }
      }
    }
  }

  /** A failed feed reports the error of the first item that was not admitted. */
  lemma {:induction false} AssembleFirstFailure(items: seq<Item>, accepts: FeedItem -> bool)
    requires Assemble(items, accepts).Err?
    ensures exists k :: 0 <= k < |items| && !Admitted(items[k], accepts)
                        && (forall j :: 0 <= j < k ==> Admitted(items[j], accepts))
                        && Assemble(items, accepts).error == Refusal(items[k], accepts)
    decreases |items|
  {
    var init := items[..|items| - 1];
    var last := |items| - 1;
    assert forall k :: 0 <= k < |init| ==> init[k] == items[k];
    if Assemble(init, accepts).Err? {
      AssembleFirstFailure(init, accepts);
      var k :| 0 <= k < |init| && !Admitted(init[k], accepts)
               && (forall j :: 0 <= j < k ==> Admitted(init[j], accepts))
               && Assemble(init, accepts).error == Refusal(init[k], accepts);
      assert items[k] == init[k];
    } else {
      AssembleOk(init, accepts);
      assert !Admitted(items[last], accepts);
    }
  }

  /**
   * What one listing node becomes in the feed: the trimmed or defaulted title
   * and description, the base URL followed by the href (or by the base URL
   * again when there is none), the publish time when there is one, a duration
   * exactly when the badge held more than white space, and an image exactly
   * when there is a thumbnail.
   */
  ghost predicate Renders(sel: Selection, fi: FeedItem)
  {
    && fi.title == (if AllSpace(sel.titleText) then UnknownTitle else TrimSpace(sel.titleText))
    && fi.description == (if AllSpace(sel.descriptionText) then UnknownDescription else TrimSpace(sel.descriptionText))
    && fi.link == BaseURL + (if sel.href == "" then BaseURL else sel.href)
    && fi.pubDate == (if sel.datetime == "" then Zero else At(sel.datetime))
    && (fi.duration.Some? <==> !AllSpace(sel.badgeText))
    && (fi.duration.Some? ==> ParseDuration(TrimSpace(sel.badgeText)) == Ok(fi.duration.value))
    && fi.image == (if sel.thumbnailSrc != "" then Some(sel.thumbnailSrc) else None)
  }

  /**
   * A feed built from a listing has one item per node, in document order,
   * each rendering its node; every title and description is non-empty and
   * every link starts with the base URL.
   */
  lemma {:induction false} ListingFeed(listing: seq<Selection>, accepts: FeedItem -> bool)
    requires Assemble(Extracted(listing), accepts).Ok?
    ensures |Assemble(Extracted(listing), accepts).value| == |listing|
    ensures forall k :: 0 <= k < |listing| ==> Renders(listing[k], Assemble(Extracted(listing), accepts).value[k])
    ensures forall k :: 0 <= k < |listing| ==>
              var fi := Assemble(Extracted(listing), accepts).value[k];
              fi.title != "" && fi.description != "" && BaseURL <= fi.link
  {
    var items := Extracted(listing);
    var out := Assemble(items, accepts).value;
    AssembleOk(items, accepts);
    ExtractedAt(listing);
    forall k | 0 <= k < |listing|
      ensures Renders(listing[k], out[k])
      ensures out[k].title != "" && out[k].description != "" && BaseURL <= out[k].link
    {
      ExtractItemSpec(listing[k]);
      assert items[k] == ExtractItem(listing[k]);
    }
  }

  /** A node whose badge does not parse aborts the whole feed, wherever it stands. */
  lemma {:induction false} DurationFailureAborts(listing: seq<Selection>, k: nat, accepts: FeedItem -> bool)
    requires k < |listing| && !AllSpace(listing[k].badgeText)
    requires ParseDuration(TrimSpace(listing[k].badgeText)).Err?
    ensures Assemble(Extracted(listing), accepts).Err?
  {
    ExtractedAt(listing);
    ExtractItemSpec(listing[k]);
    AssembleOk(Extracted(listing), accepts);
  }

  /** The library takes every feed item the listing's nodes build. */
  predicate TakesListing(listing: seq<Selection>, accepts: FeedItem -> bool)
  {
    forall k :: 0 <= k < |listing| && ToFeedItem(ExtractItem(listing[k])).Ok? ==>
      accepts(ToFeedItem(ExtractItem(listing[k])).value)
  }

  /**
   * Conversely, when every badge is blank or parses and the library takes
   * every item, the whole listing becomes a feed.
   */
  lemma {:induction false} ListingAccepted(listing: seq<Selection>, accepts: FeedItem -> bool)
    requires forall k :: 0 <= k < |listing| ==>
               AllSpace(listing[k].badgeText) || ParseDuration(TrimSpace(listing[k].badgeText)).Ok?
    requires TakesListing(listing, accepts)
    ensures Assemble(Extracted(listing), accepts).Ok?
  {
    var items := Extracted(listing);
    ExtractedAt(listing);
    forall k | 0 <= k < |items|
      ensures Admitted(items[k], accepts)
    {
      ExtractItemSpec(listing[k]);
    }
    AssembleOk(items, accepts);
  }
}
