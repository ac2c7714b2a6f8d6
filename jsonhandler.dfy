// The JSON variant of the service: the caller posts the feed's title,
// description, link and dates; missing fields are filled in before the
// channel listing is turned into a feed without artwork.

module JsonHandler {
  import opened Wrappers
  import opened GoText
  import opened PodcastLib
  import opened Rumble
  import opened Items

  /** The decoded request body; a date the caller leaves out is `Zero`. */
  datatype Request = Request(
    title: string,
    description: string,
    link: string,
    publishTime: Time,
    updatedTime: Time)

  /** What the service answers for a request. */
  type Reply = Response<FeedError, FeedDoc>

  /**
   * The request with its gaps filled: the placeholder title and description
   * for empty ones, and the clock's readings for dates left at zero.
   */
  function Completed(req: Request, publishClock: Time, updatedClock: Time): (r: Request)
  {
    req.(title := if req.title == "" then UnknownTitle else req.title,
         description := if req.description == "" then UnknownDescription else req.description,
         publishTime := if req.publishTime == Zero then publishClock else req.publishTime,
         updatedTime := if req.updatedTime == Zero then updatedClock else req.updatedTime)
  }

  /**
   * The feed built for a request from a channel listing: the header is the
   * request's own, there is no artwork, and the items are the assembled
   * listing; or the first item error.
   */
  function RequestFeed(req: Request, listing: seq<Selection>, accepts: FeedItem -> bool): (r: Result<FeedDoc, FeedError>)
  {
    match Assemble(Extracted(listing), accepts)
    case Err(e) => Err(e)
    case Ok(out) => Ok(FeedDoc(req.title, req.link, req.description, req.publishTime, req.updatedTime, None, out))
  }

  /** Builds the podcast for a request: header first, then the items one by one. */
  method GetFeed(req: Request, listing: seq<Selection>, accepts: FeedItem -> bool) returns (r: Result<Podcast, FeedError>)
    ensures r.Ok? ==> fresh(r.value)
    ensures RequestFeed(req, listing, accepts).Ok? ==>
              r.Ok? && r.value.Doc() == RequestFeed(req, listing, accepts).value
    ensures RequestFeed(req, listing, accepts).Err? ==>
              r == Err(RequestFeed(req, listing, accepts).error)
  {
    var items := ExtractItems(listing);
    var p := new Podcast.New(req.title, req.link, req.description, req.publishTime, req.updatedTime);
    var err := AddItems(p, items, accepts);
    if err.Some? {
      return Err(err.value);
    }
    return Ok(p);
  }

  /** Fills the request's gaps one field at a time, as the handler does. */
  method FillDefaults(req0: Request, publishClock: Time, updatedClock: Time) returns (req: Request)
    ensures req == Completed(req0, publishClock, updatedClock)
  {
    req := req0;
    if req.title == "" {
      req := req.(title := UnknownTitle);
    }
    if req.description == "" {
      req := req.(description := UnknownDescription);
    }
    if req.publishTime == Zero {
      req := req.(publishTime := publishClock);
    }
    if req.updatedTime == Zero {
      req := req.(updatedTime := updatedClock);
    }
  }

  /**
   * Answers a posted body: an undecodable body is a bad request carrying the
   * decoder's message; a missing link or one that does not hold the base URL
   * exactly once is a bad request; otherwise the completed request's feed is
   * served, or the item error is reported. `publishClock` and `updatedClock`
   * are the two readings of the clock the handler may take.
   */
  method FeedHandler(body: Result<Request, string>, listing: seq<Selection>,
                     publishClock: Time, updatedClock: Time, accepts: FeedItem -> bool)
    returns (resp: Reply)
    ensures body.Err? ==> resp == BadRequest(body.error)
    ensures body.Ok? && body.value.link == "" ==> resp == BadRequest("link is required")
    ensures body.Ok? && body.value.link != "" && CountOcc(body.value.link, BaseURL) != 1 ==>
              resp == BadRequest("link must start with https://rumble.com")
    ensures body.Ok? && CountOcc(body.value.link, BaseURL) == 1 ==>
              var feed := RequestFeed(Completed(body.value, publishClock, updatedClock), listing, accepts);
              resp == if feed.Ok? then Served(feed.value) else ServerError(feed.error)
  {
    if body.Err? {
      return BadRequest(body.error);
    }
    var req := body.value;
    CheckLinkSpec(req.link);
    var bad := CheckLink(req.link);
    if bad.Some? {
      return BadRequest(bad.value.Message());
    }
    req := FillDefaults(req, publishClock, updatedClock);
    var feed := GetFeed(req, listing, accepts);
    if feed.Err? {
      return ServerError(feed.error);
    }
    return Served(feed.value.Doc());
  }

  /**
   * Completing a request keeps its link and every field the caller set,
   * puts the placeholders in an empty title or description and the matching
   * clock reading in a zero date, so nothing is left empty or, when the clock
   * readings are not zero, unset; completing twice changes nothing more.
   */
  lemma {:induction false} CompletedSpec(req: Request, publishClock: Time, updatedClock: Time)
    ensures var r := Completed(req, publishClock, updatedClock);
      && r.link == req.link
      && r.title != "" && r.description != ""
      && (req.title != "" ==> r.title == req.title)
      && (req.title == "" ==> r.title == UnknownTitle)
      && (req.description != "" ==> r.description == req.description)
      && (req.description == "" ==> r.description == UnknownDescription)
      && (req.publishTime != Zero ==> r.publishTime == req.publishTime)
      && (req.publishTime == Zero ==> r.publishTime == publishClock)
      && (req.updatedTime != Zero ==> r.updatedTime == req.updatedTime)
      && (req.updatedTime == Zero ==> r.updatedTime == updatedClock)
      && (publishClock != Zero ==> r.publishTime != Zero)
      && (updatedClock != Zero ==> r.updatedTime != Zero)
      && Completed(r, publishClock, updatedClock) == r
  {
  }

  /**
   * A served feed carries the caller's header: the link as sent, the title,
   * description and dates as sent or, where left out, their placeholders and
   * the clock readings (so the title and description are never empty and the
   * dates are set whenever the clock is); it has no artwork and one rendered
   * item per listing node.
   */
  lemma {:induction false} ServedFeedShape(req: Request, listing: seq<Selection>,
                                           publishClock: Time, updatedClock: Time, accepts: FeedItem -> bool)
    requires RequestFeed(Completed(req, publishClock, updatedClock), listing, accepts).Ok?
    ensures var doc := RequestFeed(Completed(req, publishClock, updatedClock), listing, accepts).value;
      && doc.link == req.link
      && doc.title == (if req.title == "" then UnknownTitle else req.title)
      && doc.description == (if req.description == "" then UnknownDescription else req.description)
      && doc.pubDate == (if req.publishTime == Zero then publishClock else req.publishTime)
      && doc.lastBuildDate == (if req.updatedTime == Zero then updatedClock else req.updatedTime)
      && doc.title != "" && doc.description != ""
      && (publishClock != Zero ==> doc.pubDate != Zero)
      && (updatedClock != Zero ==> doc.lastBuildDate != Zero)
      && doc.image == None
      && |doc.items| == |listing|
      && forall k :: 0 <= k < |listing| ==> Renders(listing[k], doc.items[k])
  {
    CompletedSpec(req, publishClock, updatedClock);
    ListingFeed(listing, accepts);
  }
}
