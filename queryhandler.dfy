// The query-parameter variant of the service: the link arrives as `?link=`,
// the feed's title and artwork are scraped from the channel header, and the
// feed is dated by one reading of the clock.

module QueryHandler {
  import opened Wrappers
  import opened GoText
  import opened PodcastLib
  import opened Rumble
  import opened Items
  import opened Duration

  /** A fetched channel page, as the header and listing selectors see it. */
  datatype Page = Page(
    headerTitle: string,         // text of the channel header's h1, untrimmed
    headerThumb: string,         // src of the channel header's image, "" when absent
    listing: seq<Selection>)     // the listing's video nodes, in document order

  /** What the service answers for a link. */
  type Reply = Response<FeedError, FeedDoc>

  /**
   * The feed built for `link` from `page` when the clock reads `now`: the
   * scraped header title as it stands, the link itself, an empty
   * description, `now` as both dates, artwork when the header has an image,
   * and the assembled items; or the first item error.
   */
  function ChannelFeed(link: string, page: Page, now: Time, accepts: FeedItem -> bool): (r: Result<FeedDoc, FeedError>)
  {
    match Assemble(Extracted(page.listing), accepts)
    case Err(e) => Err(e)
    case Ok(out) =>
      var image := if page.headerThumb != "" then Some(page.headerThumb) else None;
      Ok(FeedDoc(page.headerTitle, link, "", now, now, image, out))
  }

  /** Builds the podcast for a page: header first, then the items one by one. */
  method GetFeed(link: string, page: Page, now: Time, accepts: FeedItem -> bool) returns (r: Result<Podcast, FeedError>)
    ensures r.Ok? ==> fresh(r.value)
    ensures ChannelFeed(link, page, now, accepts).Ok? ==>
              r.Ok? && r.value.Doc() == ChannelFeed(link, page, now, accepts).value
    ensures ChannelFeed(link, page, now, accepts).Err? ==>
              r == Err(ChannelFeed(link, page, now, accepts).error)
  {
    var items := ExtractItems(page.listing);
    var p := new Podcast.New(page.headerTitle, link, "", now, now);
    if page.headerThumb != "" {
      p.AddImage(page.headerThumb);
    }
    var err := AddItems(p, items, accepts);
    if err.Some? {
      return Err(err.value);
    }
    return Ok(p);
  }

  /**
   * Answers a request: a missing link or one that does not hold the base URL
   * exactly once is a bad request; otherwise the page's feed is served, or
   * the item error is reported.
   */
  method FeedHandler(link: string, page: Page, now: Time, accepts: FeedItem -> bool) returns (resp: Reply)
    ensures link == "" ==> resp == BadRequest("link is required")
    ensures link != "" && CountOcc(link, BaseURL) != 1 ==>
              resp == BadRequest("link must start with https://rumble.com")
    ensures CountOcc(link, BaseURL) == 1 && ChannelFeed(link, page, now, accepts).Ok? ==>
              resp == Served(ChannelFeed(link, page, now, accepts).value)
    ensures CountOcc(link, BaseURL) == 1 && ChannelFeed(link, page, now, accepts).Err? ==>
              resp == ServerError(ChannelFeed(link, page, now, accepts).error)
  {
    CheckLinkSpec(link);
    var bad := CheckLink(link);
    if bad.Some? {
      return BadRequest(bad.value.Message());
    }
    var feed := GetFeed(link, page, now, accepts);
    if feed.Err? {
      return ServerError(feed.error);
    }
    return Served(feed.value.Doc());
  }

  /**
   * A channel feed names the link it was asked for, has no description, is
   * dated `now` twice, carries the header image as its artwork exactly when
   * there is one, and holds one rendered item per listing node.
   */
  lemma {:induction false} ChannelFeedShape(link: string, page: Page, now: Time, accepts: FeedItem -> bool)
    requires ChannelFeed(link, page, now, accepts).Ok?
    ensures var doc := ChannelFeed(link, page, now, accepts).value;
      && doc.title == page.headerTitle && doc.link == link && doc.description == ""
      && doc.pubDate == now && doc.lastBuildDate == now
      && doc.image == (if page.headerThumb != "" then Some(page.headerThumb) else None)
      && |doc.items| == |page.listing|
      && forall k :: 0 <= k < |page.listing| ==> Renders(page.listing[k], doc.items[k])
  {
    ListingFeed(page.listing, accepts);
  }

  /** The feed fails exactly when some listing node is not admitted. */
  lemma {:induction false} ChannelFeedFails(link: string, page: Page, now: Time, accepts: FeedItem -> bool)
    ensures ChannelFeed(link, page, now, accepts).Err? <==>
              exists k :: 0 <= k < |page.listing| && !Admitted(ExtractItem(page.listing[k]), accepts)
  {
    ExtractedAt(page.listing);
    AssembleOk(Extracted(page.listing), accepts);
  }

  /**
   * A listing whose badges read "3:45", "1:02:10" and only white space, all
   * taken by the library, gives a feed whose items last 225 s, 3730 s and
   * carry no duration, in that order.
   */
  lemma {:induction false} BadgeDurations(link: string, page: Page, now: Time, accepts: FeedItem -> bool)
    requires |page.listing| == 3
    requires page.listing[0].badgeText == "3:45"
    requires page.listing[1].badgeText == "1:02:10"
    requires page.listing[2].badgeText == " \n"
    requires TakesListing(page.listing, accepts)
    ensures ChannelFeed(link, page, now, accepts).Ok?
    ensures var items := ChannelFeed(link, page, now, accepts).value.items;
      |items| == 3 && items[0].duration == Some(225) && items[1].duration == Some(3730) && items[2].duration == None
  {
    var listing := page.listing;
    var b2 := listing[2].badgeText;
    assert AllSpace(b2) by { assert IsSpace(b2[0]) && IsSpace(b2[1]); }
    BadgeParses(listing[0], "3:45", 225);
    BadgeParses(listing[1], "1:02:10", 3730);
    forall k | 0 <= k < |listing|
      ensures AllSpace(listing[k].badgeText) || ParseDuration(TrimSpace(listing[k].badgeText)).Ok?
    {
      assert k == 0 || k == 1 || k == 2;
    }
    ListingAccepted(listing, accepts);
    ChannelFeedShape(link, page, now, accepts);
    var items := ChannelFeed(link, page, now, accepts).value.items;
    RenderedDuration(listing[0], items[0], 225);
    RenderedDuration(listing[1], items[1], 3730);
    assert Renders(listing[2], items[2]);
  }

  /** The two badges of the example parse to their seconds. */
  lemma {:induction false} BadgeParses(sel: Selection, badge: string, seconds: int)
    requires (badge, seconds) == ("3:45", 225) || (badge, seconds) == ("1:02:10", 3730)
    requires sel.badgeText == badge
    ensures !AllSpace(sel.badgeText) && ParseDuration(TrimSpace(sel.badgeText)) == Ok(seconds)
  {
    TrimSpaceKeeps(badge);
    assert !IsSpace(badge[0]);
    if badge == "3:45" {
      MinutesSecondsExample();
    } else {
      HoursMinutesSecondsExample();
    }
  }

  /** The duration a rendered item carries is the one its badge parses to. */
  lemma {:induction false} RenderedDuration(sel: Selection, fi: FeedItem, seconds: int)
    requires Renders(sel, fi)
    requires !AllSpace(sel.badgeText) && ParseDuration(TrimSpace(sel.badgeText)) == Ok(seconds)
    ensures fi.duration == Some(seconds)
  {
  }
}
