# rumblerss in Dafny

rumblerss turns the public video listing of a Rumble channel into a podcast
feed. A request names a channel link. The service checks that the link holds
the site's base URL `https://rumble.com`, fetches the page and reads one record
per video node: title, description, duration badge, publish time, thumbnail
and link. It normalises each record, parses the `mm:ss` or `hh:mm:ss` badge
into seconds, and adds the records in order to a podcast whose header comes
from the page (`feed.go`) or from the caller's JSON request (`main.go`).

The model covers:

- `parseDuration`, together with the parts of Go's `strings.Split` and
  `strconv.Atoi` it relies on, with int64 range errors.
- The link check both handlers apply.
- The per-node extraction loop shared by both variants, with Go's
  `strings.TrimSpace`.
- The loop that turns records into feed items and adds them to the podcast,
  stopping at the first failure.
- Both `FeedHandler`/`GetFeed` pairs, with the JSON handler's defaulting of
  missing request fields.

Modules:

- `Wrappers`: `Option` and `Result`.
- `GoText`: `Split`, `Join`, occurrence counting and `TrimSpace`.
- `Strconv`: `Atoi` and its inverse `Itoa`.
- `Duration`: `ParseDuration`.
- `PodcastLib`: the slice of the podcast library the program uses. It is a
  `Podcast` class whose fields change in place, a `FeedItem` value and its
  builder steps.
- `Rumble`: the base URL, the link check and the response shape.
- `Items`: extraction, per-item conversion and assembly.
- `QueryHandler`: `feed.go`.
- `JsonHandler`: `main.go`.

Timestamps are opaque: `Time` is either the zero time or a stamp. A node's
`datetime` attribute becomes a stamp when it is non-empty. The clock is a
parameter of each handler: `feed.go` reads it once, and `main.go` may read
it twice.

The podcast library's refusal of an item (`AddItem` returning an error) is
an oracle parameter `accepts`.

Durations are unbounded integers of seconds.

The code behaves as follows, in ways a reader might not expect:

- A badge that does not parse aborts the whole feed with that error. It is
  not a non-fatal zero duration.
- Duration components are `strconv.Atoi` numerals. They may carry a sign,
  and a negative value is accepted.
- The link check accepts any link containing the base URL exactly once,
  anywhere in the string. It is not a prefix or host check, and there is no
  link resolver.
- There is no text truncation and no cap on the number of items.
- An item's link is the base URL prepended to the node's `href`, even when
  that `href` is already absolute. A node with no `href` gets the base URL
  twice.

## Model

| member | source | states |
|---|---|---|
| Duration.ParseDuration | duration.go:10-45 | `parseDuration`: splits the badge on ":", refuses any count of pieces other than two or three, reads each piece with `Atoi` in the order hours, minutes, seconds, and totals the seconds; its properties are stated by `ParseDurationFormat`, `ParseMinutesSeconds`, `ParseHoursMinutesSeconds` and `ParseDurationOk` |
| GoText.Split | duration.go:11 | `strings.Split` with a non-empty separator: the pieces around each occurrence, cut left to right without overlap; stated by `SplitJoin`, `SplitPiecesFree` and `SplitCount` |
| GoText.TrimSpace | feed.go:96 | `strings.TrimSpace`: the input with Unicode white space cut from both ends; stated by `TrimSpaceSpec`, `TrimSpaceIdempotent` and `TrimSpaceKeeps` |
| Strconv.Atoi | duration.go:21 | `strconv.Atoi` on a 64-bit build: one optional sign, then decimal digits, with a syntax error or an int64 range error; stated by `AtoiSpec` and `AtoiItoa` |
| Rumble.CheckLink | feed.go:43-49 | the link test of both handlers (also main.go:106-114): empty is missing, and otherwise splitting on the base URL must give exactly two pieces; stated by `CheckLinkSpec` |
| Items.ExtractItem | feed.go:95-116 | the per-node callback: trimmed text with placeholders, trimmed badge, raw `datetime` and thumbnail, and the base URL for a missing `href`; stated by `ExtractItemSpec` |
| Items.Extracted | feed.go:93-119 | the records of the listing, one per node, in document order; stated by `ExtractedAt`, and computed by the loop `ExtractItems` |
| Items.ToFeedItem | feed.go:136-164 | one record's feed item: base URL prefixed to its link, its stamp, the parsed duration when the badge is not empty (or the parse error), and its thumbnail; stated through `Renders` by `ListingFeed`, and built step by step by `BuildFeedItem` |
| Items.Assemble | feed.go:135-169 | the items converted and added in order, stopping at the first record that fails to convert or that the library refuses; stated by `AssembleOk` and `AssembleFirstFailure`, and run in place by `AddItems` |
| QueryHandler.ChannelFeed | feed.go:121-171 | the query variant's feed: scraped title, the link, an empty description, the clock as both dates, the header image when present, and the assembled items; stated by `ChannelFeedShape` and `ChannelFeedFails`, and built by `GetFeed` |
| JsonHandler.Completed | main.go:115-127 | the request with placeholders for an empty title or description and the clock readings for zero dates; stated by `CompletedSpec`, and computed field by field by `FillDefaults` |
| JsonHandler.RequestFeed | main.go:195-238 | the JSON variant's feed: the request's header, no image, and the assembled items; stated by `ServedFeedShape`, and built by `GetFeed` |
| GoText.SplitJoin | duration.go:11 | joining the pieces of `strings.Split` with the separator gives back the input |
| GoText.SplitPiecesFree | duration.go:11 | no piece of a split contains the separator |
| GoText.SplitCount | feed.go:46-47 | for a separator whose first character does not recur in it (such as ":" and the base URL), the number of pieces is one more than the number of occurrences of the separator |
| GoText.TrimSpaceSpec | feed.go:96-102 | `TrimSpace` returns a slice of its input with only white space cut at either end, the result neither starts nor ends with white space, and it is empty exactly when the input is all white space |
| GoText.TrimSpaceIdempotent | feed.go:96-102 | trimming twice is trimming once |
| GoText.TrimSpaceKeeps | feed.go:96 | a string with no white space at either end is left unchanged by trimming |
| Strconv.AtoiSpec | duration.go:21-28 | `Atoi` succeeds exactly on an optionally signed decimal numeral whose value lies in int64, and returns that value; an out-of-range numeral is a range error |
| Strconv.AtoiItoa | duration.go:21 | every int64 survives being formatted in decimal and read back by `Atoi` |
| Duration.ParseDurationFormat | duration.go:11-14 | the badge is rejected as malformed, carrying the input, exactly when it has neither one nor two colons |
| Duration.ParseMinutesSeconds | duration.go:20-28 | for "mm:ss", a minutes error is reported first, then a seconds error, and otherwise the result is 60 * mm + ss with no bound on either part |
| Duration.ParseHoursMinutesSeconds | duration.go:29-44 | for "hh:mm:ss", errors are reported hours first, then minutes, then seconds, and otherwise the result is 3600 * hh + 60 * mm + ss |
| Duration.ParseFormattedMinutesSeconds | duration.go:20-28 | printing int64 minutes and seconds as "m:s" and parsing gives back 60 * m + s |
| Duration.ParseFormattedHoursMinutesSeconds | duration.go:29-44 | printing int64 parts as "h:m:s" and parsing gives back 3600 * h + 60 * m + s |
| Duration.ParseDurationOk | duration.go:10-45 | a successful parse implies one or two colons and every piece an int64 numeral |
| Duration.MalformedExamples | duration.go:12-14 | "", "5" and "1:2:3:4" are malformed |
| Duration.EmptyMinutesExample | duration.go:34-37 | "1::2" fails on its empty minutes |
| Duration.MissingMinutesExample | duration.go:21-24 | ":30" fails on its empty minutes |
| Duration.NonNumericExample | duration.go:21-24 | "ab:30" fails on its minutes |
| Duration.MinutesSecondsExample | duration.go:20-28 | "3:45" is 225 seconds |
| Duration.HoursMinutesSecondsExample | duration.go:29-44 | "1:02:10" is 3730 seconds |
| Duration.UncheckedSecondsExample | duration.go:25-28 | "0:75" is 75 seconds; seconds above 59 are not refused |
| Duration.UncheckedMinutesExample | duration.go:34-44 | "1:90:00" is 9000 seconds; minutes above 59 are not refused |
| Duration.NegativeExample | duration.go:21-28 | "-1:30" is -30 seconds; a signed component is accepted |
| Rumble.CheckLinkSpec | feed.go:43-49 | a link passes exactly when it contains the base URL exactly once; it is refused as missing exactly when it is empty |
| Rumble.ChannelLinkAccepted | main.go:110-114 | a channel link on the site passes |
| Rumble.EmbeddedLinkAccepted | main.go:110-114 | a link with text before the base URL also passes; the link test is not a prefix test |
| Rumble.DoubledLinkRejected | main.go:110-114 | a link holding the base URL twice, whatever lies between, is refused |
| Rumble.SchemelessLinkRejected | main.go:110-114 | a link without the scheme is refused |
| Items.ExtractItems | feed.go:93-119 | the loop over the listing nodes yields one record per node, in document order, each built from its node alone |
| Items.ExtractedAt | main.go:167-193 | the extracted records match the listing node for node |
| Items.ExtractItemSpec | feed.go:95-116 | a record's title and description are the trimmed node text, or the placeholder when that is blank; its duration text is empty exactly when the badge is blank; a missing link becomes the base URL |
| Items.BuildFeedItem | feed.go:135-164 | an item is built step by step into the feed item the assembly specification prescribes, or into the badge's parse error |
| Items.AddItems | feed.go:135-169 | adding the items changes only the podcast's item list. On success exactly the assembled items are appended; otherwise the first error is returned and the header is unchanged |
| Items.AssembleOk | main.go:202-238 | assembly succeeds exactly when every record converts and is taken by the library, and then yields one feed item per record, in order |
| Items.AssembleFirstFailure | main.go:202-238 | a failed assembly reports the error of the first record that is not admitted; every record before it was admitted |
| Items.ListingFeed | feed.go:93-169 | a successful feed holds one item per listing node, in order. Each item carries the node's trimmed or placeholder text, the base URL prefixed to its link, its stamp, a duration exactly when the badge is not blank, and its thumbnail |
| Items.DurationFailureAborts | feed.go:154-158 | a non-blank badge that does not parse makes the whole feed fail, wherever the node stands |
| Items.ListingAccepted | feed.go:135-171 | when every badge is blank or parses and the library takes every feed item the nodes build, the feed is built |
| QueryHandler.FeedHandler | feed.go:37-62 | an empty link is refused with "link is required"; a link without exactly one base URL is refused with "link must start with https://rumble.com"; otherwise the channel's feed is served, or its error reported |
| QueryHandler.GetFeed | feed.go:121-171 | the podcast built holds the scraped header title, the link, an empty description, one clock reading as both dates, the header image when there is one, and the assembled items; or the first item error |
| QueryHandler.ChannelFeedShape | feed.go:121-171 | a channel feed has the asked-for link, the scraped title, no description, both dates equal to the clock, the header image as its image exactly when there is one and no image otherwise, and one rendered item per node |
| QueryHandler.ChannelFeedFails | feed.go:135-169 | the feed fails exactly when some listing node is not admitted |
| QueryHandler.BadgeDurations | feed.go:154-160 | badges "3:45", "1:02:10" and blank give items lasting 225 s and 3730 s, and one with no duration, in that order |
| JsonHandler.FillDefaults | main.go:115-127 | the request's empty title and description get the placeholders, and zero dates get the clock readings, field by field |
| JsonHandler.CompletedSpec | main.go:115-127 | completing a request keeps its link and every field the caller set; an empty title becomes "unknown title", an empty description "unknown description", a zero publish time the first clock reading and a zero update time the second; so title and description are never empty, the dates are set when the clock is, and completing again changes nothing |
| JsonHandler.FeedHandler | main.go:94-133 | an undecodable body is refused with the decoder's message; the link is checked as in the query variant; otherwise the completed request's feed is served, or its error reported |
| JsonHandler.GetFeed | main.go:142-239 | the podcast built holds the request's title, link, description and dates, no image, and the assembled items; or the first item error |
| JsonHandler.ServedFeedShape | main.go:115-200 | a served feed has the caller's header: the link as sent, and the title, description, publish time and update time as sent or, where empty or zero, "unknown title", "unknown description" and the two clock readings; hence a non-empty title and description and set dates when the clock is set; no image and one rendered item per node |
| PodcastLib.Podcast.AddItem | feed.go:166-168 | an item the library takes is appended to the podcast and nothing else changes; a refused item leaves the podcast as it was |
| PodcastLib.Podcast.AddImage | feed.go:131-133 | the header image is set and nothing else changes |
| PodcastLib.Podcast.New | feed.go:123-129 | a new podcast has the given header, no image and no items |

## Left out

- HTTP serving, the echo router, the signal-driven shutdown and the goroutines in `run` are not modelled. They are I/O and concurrency.
- Fetching the page is not modelled: the client timeout, request construction and transport errors, and the non-200 status that returns no feed and no error.
- HTML parsing and the goquery selectors are inputs. A `Page` or `Selection` holds the strings the selectors would return.
- JSON decoding of the request body is an input: a decoded `Request`, or the decoder's message.
- Parsing `datetime` with the fixed layout is not modelled, and neither is the `log.Fatal` that ends the process on a bad stamp. A non-empty stamp is kept as an opaque value.
- The `err` check at the top of the item loop is not modelled. It can never fire, because `err` is nil there.
- `time.Duration` arithmetic is replaced by unbounded seconds. Its nanosecond overflow for huge badges and the float `Seconds()` round trip are not modelled.
- The podcast library's internals are not modelled: XML encoding, `AddDuration` and `AddImage` formatting, and why `AddItem` refuses an item. Refusal is the `accepts` oracle, and `Encode` errors are not modelled.
- In `main.go`, after a `GetFeed` error the handler still encodes the nil feed. The model ends with the server error.
- Error messages are not modelled as strings, except the two link-check messages. "invalid minutes: …" becomes `InvalidMinutes`, which carries the `Atoi` error, and likewise for hours and seconds. "error adding item: …" becomes `AddItemFailed`, which carries no cause because the library's reason is not modelled.
- Link resolution (`/c/` paths, scheme inference, host checks), text truncation, item-count limits and the live-broadcast flag are not modelled. The code has none of them.
- `Atoi` is modelled for a 64-bit build, where Go's `int` is 64 bits. On a 32-bit build the range check is against int32, so a badge component between the int32 and int64 bounds would be a range error there and a value here.
