/**
 * The slice of the podcast library the handlers use, reduced to what the
 * handlers put into it: `podcast.New`, `AddImage` and `AddItem` on the feed,
 * `AddDuration` and `AddImage` on an item. Encoding to XML is not modelled.
 */
module PodcastLib {
  import opened Wrappers

  /** A `time.Time`: the zero time, or an instant known only by the timestamp it came from. */
  datatype Time = Zero | At(stamp: string)

  datatype FeedItem = FeedItem(
    title: string,
    link: string,
    description: string,
    pubDate: Time,
    duration: Option<int>,   // seconds handed to AddDuration
    image: Option<string>)   // URL handed to AddImage
  {
    /** `Item.AddDuration(seconds)`. */
    function AddDuration(seconds: int): FeedItem
    {
      this.(duration := Some(seconds))
    }

    /** `Item.AddImage(url)`. */
    function AddImage(url: string): FeedItem
    {
      this.(image := Some(url))
    }
  }

  /** Everything a `Podcast` holds, as a value. */
  datatype FeedDoc = FeedDoc(
    title: string,
    link: string,
    description: string,
    pubDate: Time,
    lastBuildDate: Time,
    image: Option<string>,
    items: seq<FeedItem>)

  /** A `podcast.Podcast` under construction. */
  class Podcast {
    var title: string
    var link: string
    var description: string
    var pubDate: Time
    var lastBuildDate: Time
    var image: Option<string>
    var items: seq<FeedItem>

    function Doc(): FeedDoc
      reads this
    {
      FeedDoc(title, link, description, pubDate, lastBuildDate, image, items)
    }

    /** `podcast.New(title, link, description, pubDate, lastBuildDate)`: a feed with no image and no items. */
    constructor New(title: string, link: string, description: string, pubDate: Time, lastBuildDate: Time)
      ensures Doc() == FeedDoc(title, link, description, pubDate, lastBuildDate, None, [])
    {
      this.title := title;
      this.link := link;
      this.description := description;
      this.pubDate := pubDate;
      this.lastBuildDate := lastBuildDate;
      this.image := None;
      this.items := [];
    }

    /** `p.AddImage(url)`: sets the feed image and changes nothing else. */
    method AddImage(url: string)
      modifies this
      ensures Doc() == old(Doc()).(image := Some(url))
    {
      image := Some(url);
    }

    /**
     * `p.AddItem(item)`: appends the item, or reports an error and leaves the
     * feed as it was. Whether the library accepts an item is its own business,
     * given here as `accepts`.
     */
    method AddItem(item: FeedItem, accepts: FeedItem -> bool) returns (ok: bool)
      modifies this
      ensures ok == accepts(item)
      ensures Doc() == if ok then old(Doc()).(items := old(items) + [item]) else old(Doc())
    {
      ok := accepts(item);
      if ok {
        items := items + [item];
      }
    }
  }
}
