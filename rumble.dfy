/**
 * What the two handler variants share before any scraping: the site's base
 * URL, the test the caller's link must pass, and the shape of a reply.
 */
module Rumble {
  import opened Wrappers
  import opened GoText

  const BaseURL: string := "https://rumble.com"

  /** The two link rejections, both answered with status 400. */
  datatype LinkError = LinkRequired | NotRumbleLink
  {
    function Message(): string
    {
      match this
      case LinkRequired => "link is required"
      case NotRumbleLink => "link must start with https://rumble.com"
    }
  }

  /**
   * The handlers' link check: an empty link is missing; otherwise the link is
   * split on the base URL and must come apart into exactly two pieces.
   */
  function CheckLink(link: string): (r: Option<LinkError>)
  {
    if link == "" then Some(LinkRequired)
    else if |Split(link, BaseURL)| != 2 then Some(NotRumbleLink)
    else None
  }

  lemma {:induction false} BaseURLHeadUnique()
    ensures HeadUnique(BaseURL)
  {
    forall i | 0 < i < |BaseURL| ensures BaseURL[i] != BaseURL[0] {
      assert BaseURL[0] == 'h';
      assert BaseURL[i] in BaseURL[1..] by { assert BaseURL[i] == BaseURL[1..][i - 1]; }
      assert 'h' !in BaseURL[1..] by { assert BaseURL[1..] == "ttps://rumble.com"; }
    }
  }

  /**
   * A link is accepted exactly when the base URL occurs in it exactly once,
   * anywhere; it is reported missing exactly when it is empty.
   */
  lemma {:induction false} CheckLinkSpec(link: string)
    ensures CheckLink(link) == None <==> CountOcc(link, BaseURL) == 1
    ensures CheckLink(link) == Some(LinkRequired) <==> link == ""
  {
    BaseURLHeadUnique();
    SplitCount(link, BaseURL);
  }

  /** A channel link is accepted. */
  lemma {:induction false} ChannelLinkAccepted()
    ensures CheckLink("https://rumble.com/c/acme") == None
  {
    var link := BaseURL + "/c/acme";
    assert link == "https://rumble.com/c/acme";
    assert link[..|BaseURL|] == BaseURL;
    assert link[|BaseURL|..] == "/c/acme";
    assert Split("/c/acme", BaseURL) == ["/c/acme"];
  }

  /** The base URL need not come first: the link test is not a prefix test. */
  lemma {:induction false} EmbeddedLinkAccepted()
    ensures CheckLink("xhttps://rumble.com/a") == None
  {
    var link := "xhttps://rumble.com/a";
    assert link[..|BaseURL|] != BaseURL by { assert link[0] != BaseURL[0]; }
    assert link[1..] == BaseURL + "/a";
    assert (BaseURL + "/a")[..|BaseURL|] == BaseURL;
    assert (BaseURL + "/a")[|BaseURL|..] == "/a";
    assert Split("/a", BaseURL) == ["/a"];
  }

  /** A link holding the base URL twice is rejected, whatever lies between. */
  lemma {:induction false} DoubledLinkRejected(middle: string)
    ensures CheckLink(BaseURL + middle + BaseURL) == Some(NotRumbleLink)
  {
    var link := BaseURL + middle + BaseURL;
    CountBothEnds(BaseURL, middle);
    CheckLinkSpec(link);
    assert link != "";
  }

  /** A link without the scheme lacks the base URL and is rejected. */
  lemma {:induction false} SchemelessLinkRejected()
    ensures CheckLink("rumble.com/acme") == Some(NotRumbleLink)
  {
    var link := "rumble.com/acme";
    assert |link| < |BaseURL|;
  }

  /** A reply: a 400 with its message, a 500 with the pipeline's error, or the feed. */
  datatype Response<E, D> = BadRequest(message: string) | ServerError(cause: E) | Served(feed: D)
}
