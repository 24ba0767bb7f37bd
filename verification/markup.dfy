/** The markup builders of the front end (assets/js/application.js): the
    content of a release page and of the releases landing page, built from
    the configuration and a fetched playlist. `decodeURI` and `stripTags` are
    passed in as functions; the DOM, the fetches and the router are outside. */
module Markup {
  import opened Wrappers
  import opened Text

  /** A track of a fetched playlist */
  datatype PlaylistTrack = PlaylistTrack(title: string, location: string, creator: Option<string>)

  /** The `playlist` object of a fetched tracklist; every property may be absent */
  datatype Playlist = Playlist(title: Option<string>, creator: Option<string>, track: Option<seq<PlaylistTrack>>)

  /** A release entry of the configuration */
  datatype Release = Release(title: Option<string>, playlist: string, artwork: Option<string>, notes: Option<string>)

  /** Route parameters: the title as it appears in the URL, and the track
      number of a `release/:title/track/:trackNumber` route */
  datatype Params = Params(title: string, trackNumber: Option<nat>)

  /** What a handler renders: the content markup and the document title */
  datatype Rendered = Rendered(content: string, documentTitle: string)

  const PlayAll := "<a class=\"pt-play-all\" href=\"#\" title=\"Play/Pause\"><span class=\"play-btn\"><i class=\"fa fa-play\"></i></span><span class=\"pause-btn\"><i class=\"fa fa-pause\"></i></span></a>"

  /** A possibly undefined property in a string concatenation: JavaScript
      writes `undefined` */
  function JsText(v: Option<string>): string {
    v.GetOr("undefined")
  }

  /** `cassette.releases[key]` over the entries of the releases object */
  function Lookup(releases: seq<(string, Release)>, key: string): (r: Option<Release>)
    ensures r.Some? <==> exists i :: 0 <= i < |releases| && releases[i].0 == key
    ensures r.Some? ==> exists i :: 0 <= i < |releases| && releases[i] == (key, r.value)
    decreases |releases|
  {
    if |releases| == 0 then None
    else if releases[0].0 == key then Some(releases[0].1)
    else
      var r := Lookup(releases[1..], key);
      assert forall i :: 1 <= i < |releases| ==> releases[1..][i - 1] == releases[i];
      r
  }

  /** `Object.keys(cassette.releases)` */
  function Keys(releases: seq<(string, Release)>): (ks: seq<string>)
    ensures |ks| == |releases|
    ensures forall i :: 0 <= i < |ks| ==> ks[i] == releases[i].0
  {
    seq(|releases|, i requires 0 <= i < |releases| => releases[i].0)
  }

  // ------------------------------------------------------------ tracklist

  /** One list item of the tracklist, before it is written out */
  datatype TrackItem = TrackItem(highlighted: bool, permalink: string, soundId: string, href: string, caption: string)

  /** The artist span, present only when the track has a creator */
  function ArtistSpan(t: PlaylistTrack): string {
    match t.creator
    case Some(c) => "<span class=\"artist\">" + c + "</span>"
    case None => ""
  }

  /** The item for the track with the given id */
  function MakeItem(p: Params, t: PlaylistTrack, id: nat): TrackItem {
    TrackItem(
      p.trackNumber == Some(id),
      "release/" + p.title + "/track/" + Decimal(id),
      p.title + "_" + Decimal(id),
      t.location,
      t.title + ArtistSpan(t))
  }

  function ItemOpen(highlighted: bool): string {
    if highlighted then "<li class=\"highlight\">" else "<li>"
  }

  const PermalinkAttr := "<a data-pushtape-permalink = \""
  const SoundIdAttr := " data-pushtape-sound-id =\""

  /** The link of an item, the same whether or not it is highlighted */
  function Anchor(v: TrackItem): string {
    PermalinkAttr + v.permalink + "\"" + SoundIdAttr + v.soundId + "\"" + LinkTail(v)
  }

  /** The rest of the link after the sound id */
  function LinkTail(v: TrackItem): string {
    " href=\"" + v.href + "\">" + v.caption + "</a>"
  }

  function RenderItem(v: TrackItem): string {
    ItemOpen(v.highlighted) + Anchor(v) + "</li>\n"
  }

  /** The items of a tracklist: the track at position i gets id i */
  function Items(p: Params, tracks: seq<PlaylistTrack>): (items: seq<TrackItem>)
    ensures |items| == |tracks|
    ensures forall i :: 0 <= i < |tracks| ==> items[i] == MakeItem(p, tracks[i], i)
  {
    seq(|tracks|, i requires 0 <= i < |tracks| => MakeItem(p, tracks[i], i))
  }

  /** The written-out items, in order */
  function RenderedItems(p: Params, tracks: seq<PlaylistTrack>): (parts: seq<string>)
    ensures |parts| == |tracks|
    ensures forall i :: 0 <= i < |tracks| ==> parts[i] == RenderItem(MakeItem(p, tracks[i], i))
  {
    seq(|tracks|, i requires 0 <= i < |tracks| => RenderItem(MakeItem(p, tracks[i], i)))
  }

  const TracklistOpen := "<ul class=\"tracklist pt-list\">"

  /** The tracklist markup: the list of all items when the playlist has a
      non-empty `track` list, and nothing otherwise */
  function Tracklist(p: Params, track: Option<seq<PlaylistTrack>>): string {
    if track.Some? && |track.value| > 0 then TracklistOpen + Join(RenderedItems(p, track.value)) + "</ul>" else ""
  }

  /** The items loop, with the running `trackId` counter of `releaseMarkup` */
  method BuildItems(p: Params, tracks: seq<PlaylistTrack>) returns (html: string)
    ensures html == Join(RenderedItems(p, tracks))
  {
    ghost var parts := RenderedItems(p, tracks);
    var trackId: nat := 0;
    html := "";
    var index := 0;
    while index < |tracks|
      invariant 0 <= index <= |tracks|
      invariant trackId == index
      invariant html == Join(parts[..index])
    {
      var value := tracks[index];
      var item := MakeItem(p, value, trackId);
      JoinSnoc(parts, index);
      html := html + RenderItem(item);
      trackId := trackId + 1;
      index := index + 1;
    }
    assert parts[..|tracks|] == parts;
  }

  /** The tracklist markup as `releaseMarkup` builds it */
  method BuildTracklist(p: Params, track: Option<seq<PlaylistTrack>>) returns (html: string)
    ensures html == Tracklist(p, track)
    ensures html == "" <==> track.None? || |track.value| == 0
  {
    html := "";
    if track.Some? && |track.value| > 0 {
      var items := BuildItems(p, track.value);
      html := TracklistOpen + items + "</ul>";
    }
  }

  /** Ids count up from 0 in playlist order: the item written for the track
      at position i carries id i in its permalink and sound id, and links to
      that track's location. */
  lemma ItemIds(p: Params, tracks: seq<PlaylistTrack>, i: nat)
    requires i < |tracks|
    ensures Items(p, tracks)[i].permalink == "release/" + p.title + "/track/" + Decimal(i)
    ensures Items(p, tracks)[i].soundId == p.title + "_" + Decimal(i)
    ensures Items(p, tracks)[i].href == tracks[i].location
    ensures Items(p, tracks)[i].caption == tracks[i].title + ArtistSpan(tracks[i])
  {
  }

  /** An item's permalink and sound id, when free of double quotes, are
      read back unchanged from its written form. */
  lemma ItemAttributes(v: TrackItem)
    requires '"' !in v.permalink && '"' !in v.soundId
    ensures var html, lead := RenderItem(v), ItemOpen(v.highlighted) + PermalinkAttr;
      && QuotedAfter(html, lead) == Some(v.permalink)
      && QuotedAfter(html, lead + v.permalink + "\"" + SoundIdAttr) == Some(v.soundId)
  {
    var lead := ItemOpen(v.highlighted) + PermalinkAttr;
    var lead' := lead + v.permalink + "\"" + SoundIdAttr;
    var tail := LinkTail(v) + "</li>\n";
    var rest := SoundIdAttr + v.soundId + "\"" + tail;
    ItemShape(v, lead, tail);
    QuotedAfterValue(lead, v.permalink, rest);
    QuotedAfterValue(lead', v.soundId, tail);
  }

  /** The written item, cut at its permalink and at its sound id */
  lemma ItemShape(v: TrackItem, lead: string, tail: string)
    requires lead == ItemOpen(v.highlighted) + PermalinkAttr && tail == LinkTail(v) + "</li>\n"
    ensures RenderItem(v) == lead + v.permalink + "\"" + (SoundIdAttr + v.soundId + "\"" + tail)
    ensures RenderItem(v) == (lead + v.permalink + "\"" + SoundIdAttr) + v.soundId + "\"" + tail
  {
    Regroup(ItemOpen(v.highlighted), PermalinkAttr, v.permalink, "\"", SoundIdAttr, v.soundId, LinkTail(v), "</li>\n");
  }

  /** Regrouping of the eight pieces of a written item */
  lemma Regroup(o: string, pa: string, perm: string, q: string, sa: string, sid: string, lt: string, c: string)
    ensures var html := o + (pa + perm + q + sa + sid + q + lt) + c;
      && html == (o + pa) + perm + q + (sa + sid + q + (lt + c))
      && html == ((o + pa) + perm + q + sa) + sid + q + (lt + c)
  {
  }

  /** The permalink and sound id built for id i hold no double quote when
      the route title holds none. */
  lemma IdsHaveNoQuote(title: string, i: nat)
    requires '"' !in title
    ensures '"' !in "release/" + title + "/track/" + Decimal(i)
    ensures '"' !in title + "_" + Decimal(i)
  {
    NoQuoteInDecimal(i);
    var a, b, c := "release/", "/track/", "_";
    assert '"' !in a by { forall j | 0 <= j < |a| ensures a[j] != '"' { } }
    assert '"' !in b by { forall j | 0 <= j < |b| ensures b[j] != '"' { } }
    assert '"' !in c by { forall j | 0 <= j < |c| ensures c[j] != '"' { } }
    NoQuoteInConcat(a, title);
    NoQuoteInConcat(a + title, b);
    NoQuoteInConcat(a + title + b, Decimal(i));
    NoQuoteInConcat(title, c);
    NoQuoteInConcat(title + c, Decimal(i));
  }

  /** Read back from the written item of the track at position i, the
      permalink and the sound id carry id i, the position in the list. */
  lemma ItemIdsInMarkup(p: Params, tracks: seq<PlaylistTrack>, i: nat)
    requires i < |tracks| && '"' !in p.title
    ensures var html, open := RenderItem(Items(p, tracks)[i]), ItemOpen(p.trackNumber == Some(i));
      var permalink := "release/" + p.title + "/track/" + Decimal(i);
      && QuotedAfter(html, open + PermalinkAttr) == Some(permalink)
      && QuotedAfter(html, open + PermalinkAttr + permalink + "\"" + SoundIdAttr) == Some(p.title + "_" + Decimal(i))
  {
    IdsHaveNoQuote(p.title, i);
    ItemAttributes(Items(p, tracks)[i]);
  }

  /** Different tracks of one list get different permalinks and sound ids. */
  lemma ItemIdsDistinct(p: Params, tracks: seq<PlaylistTrack>, i: nat, j: nat)
    requires i < |tracks| && j < |tracks| && i != j
    ensures Items(p, tracks)[i].permalink != Items(p, tracks)[j].permalink
    ensures Items(p, tracks)[i].soundId != Items(p, tracks)[j].soundId
  {
    var items := Items(p, tracks);
    if items[i].permalink == items[j].permalink {
      PrefixCancel("release/" + p.title + "/track/", Decimal(i), Decimal(j));
      DecimalInjective(i, j);
    }
    if items[i].soundId == items[j].soundId {
      PrefixCancel(p.title + "_", Decimal(i), Decimal(j));
      DecimalInjective(i, j);
    }
  }

  /** The number of highlighted items */
  function HighlightCount(items: seq<TrackItem>): nat
    decreases |items|
  {
    if |items| == 0 then 0
    else HighlightCount(items[..|items| - 1]) + (if items[|items| - 1].highlighted then 1 else 0)
  }

  /** Exactly the item whose id is the route's track number is highlighted;
      so at most one is, and none when the route has no track number or the
      number is past the end of the list. */
  lemma {:induction false} OneHighlight(p: Params, tracks: seq<PlaylistTrack>)
    ensures forall i :: 0 <= i < |tracks| ==> (Items(p, tracks)[i].highlighted <==> p.trackNumber == Some(i))
    ensures HighlightCount(Items(p, tracks)) == if p.trackNumber.Some? && p.trackNumber.value < |tracks| then 1 else 0
    decreases |tracks|
  {
    if |tracks| > 0 {
      var n := |tracks| - 1;
      OneHighlight(p, tracks[..n]);
      assert Items(p, tracks)[..n] == Items(p, tracks[..n]);
    }
  }

  /** Highlighting changes only the opening tag of an item. */
  lemma HighlightKeepsAnchor(v: TrackItem)
    ensures RenderItem(v.(highlighted := true)) == "<li class=\"highlight\">" + Anchor(v) + "</li>\n"
    ensures RenderItem(v.(highlighted := false)) == "<li>" + Anchor(v) + "</li>\n"
  {
  }

  // ------------------------------------------------------ release page

  /** Where the title links to: the release URL when the playlist has a
      non-empty title, the bare route title otherwise */
  function TitleHref(p: Params, pl: Playlist): string {
    if pl.title.Some? && |pl.title.value| > 0 then "release/" + p.title else p.title
  }

  const TitleLead := "<h1 class=\"title\">" + PlayAll + " <a class=\"navigo-delegate\" href=\""

  /** The title heading of a release page: the link, its closing quote,
      then the playlist's title */
  function TitleFragment(p: Params, pl: Playlist): string {
    TitleLead + TitleHref(p, pl) + "\"" + TitleTail(pl)
  }

  function TitleTail(pl: Playlist): string {
    ">" + JsText(pl.title) + "</a></h1>\n"
  }

  /** The title links to `release/<title>` exactly when the playlist has a
      non-empty title. */
  lemma TitleLinkTarget(p: Params, pl: Playlist)
    requires '"' !in p.title
    ensures QuotedAfter(TitleFragment(p, pl), TitleLead)
      == Some(if pl.title.Some? && |pl.title.value| > 0 then "release/" + p.title else p.title)
  {
    var href := TitleHref(p, pl);
    assert '"' !in href by {
      assert forall i :: 0 <= i < |"release/"| ==> "release/"[i] != '"';
    }
    QuotedAfterValue(TitleLead, href, TitleTail(pl));
  }

  const ArtworkLead := "<div class=\"artwork\"><img src=\""

  /** The artwork block of a release page */
  function ArtworkFragment(r: Release): (s: string)
    ensures s == "" <==> r.artwork.None? || |r.artwork.value| == 0
  {
    if r.artwork.Some? && |r.artwork.value| > 0 then ArtworkLead + r.artwork.value + "\"" + "/></div>" else ""
  }

  /** A present artwork block shows the release's artwork. */
  lemma ArtworkShowsRelease(r: Release)
    requires r.artwork.Some? && |r.artwork.value| > 0 && '"' !in r.artwork.value
    ensures QuotedAfter(ArtworkFragment(r), ArtworkLead) == Some(r.artwork.value)
  {
    QuotedAfterValue(ArtworkLead, r.artwork.value, "/></div>");
  }

  /** The release page: nothing is rendered when the decoded route title is
      not a release (`releaseMarkup` fails on the missing entry); otherwise the
      title, the artwork and the tracklist, in this order. */
  method ReleaseMarkup(releases: Option<seq<(string, Release)>>, p: Params, pl: Playlist,
                       decode: string -> string, stripTags: string -> string, docTitle: string)
    returns (r: Option<Rendered>)
    ensures r.None? <==> releases.None? || Lookup(releases.value, decode(p.title)).None?
    ensures r.Some? ==>
      r.value.content == TitleFragment(p, pl) + ArtworkFragment(Lookup(releases.value, decode(p.title)).value) + Tracklist(p, pl.track)
    ensures r.Some? ==> r.value.documentTitle == docTitle + " | " + stripTags(TitleFragment(p, pl))
  {
    if releases.None? {
      return None;
    }
    var release := Lookup(releases.value, decode(p.title));
    if release.None? {
      return None;
    }
    var title := TitleFragment(p, pl);
    var artwork := ArtworkFragment(release.value);
    var tracklist := BuildTracklist(p, pl.track);
    r := Some(Rendered(title + artwork + tracklist, docTitle + " | " + stripTags(title)));
  }

  // ---------------------------------------------------- releases landing

  const SummaryLead := "<a class=\"release navigo-delegate\" href=\""

  /** The heading of a release on the landing page: its title, or else the
      decoded key */
  function Heading(r: Release, key: string, decode: string -> string): string {
    if r.title.Some? then r.title.value else decode(key)
  }

  /** `allReleasesMarkup(key)`: a link to the release, then its thumbnail
      and heading; nothing when the decoded key is not a release */
  function ReleaseSummary(releases: seq<(string, Release)>, key: string, decode: string -> string): (s: Option<string>)
    ensures s.Some? <==> Lookup(releases, decode(key)).Some?
  {
    match Lookup(releases, decode(key))
    case None => None
    case Some(r) => Some(SummaryMarkup(r, key, decode))
  }

  /** The summary of release r found under the decoded key */
  function SummaryMarkup(r: Release, key: string, decode: string -> string): string {
    SummaryLead + ("release/" + key) + "\"" + SummaryTail(r, key, decode)
  }

  function SummaryTail(r: Release, key: string, decode: string -> string): string {
    Thumbnail(r) + SummaryClose(Heading(r, key, decode))
  }

  /** The end of the link's opening tag, then the thumbnail, which shows
      `undefined` when the release has no artwork */
  function Thumbnail(r: Release): string {
    ">" + "<div class=\"artwork thumbnail\"><img src=\"" + JsText(r.artwork) + "\"/></div>"
  }

  /** The heading and the end of the link */
  function SummaryClose(heading: string): string {
    "<h3 class=\"release-title\">" + heading + "</h3>" + "</a>"
  }

  /** A release summary links to `release/<key>`. */
  lemma SummaryLinksToRelease(r: Release, key: string, decode: string -> string)
    requires '"' !in key
    ensures QuotedAfter(SummaryMarkup(r, key, decode), SummaryLead) == Some("release/" + key)
  {
    assert '"' !in "release/" + key by {
      assert forall i :: 0 <= i < |"release/"| ==> "release/"[i] != '"';
    }
    QuotedAfterValue(SummaryLead, "release/" + key, SummaryTail(r, key, decode));
  }

  /** The summary closes with the release's title as heading when it has
      one, and with the decoded key otherwise. */
  lemma SummaryHeading(r: Release, key: string, decode: string -> string)
    ensures var close := SummaryClose(if r.title.Some? then r.title.value else decode(key));
      var s := SummaryMarkup(r, key, decode);
      |close| <= |s| && s[|s| - |close|..] == close
  {
    EndsWith(Thumbnail(r), SummaryClose(Heading(r, key, decode)));
    EndsWith(SummaryLead + ("release/" + key) + "\"", SummaryTail(r, key, decode));
  }

  /** The summary of each key, in key order */
  function Summaries(releases: seq<(string, Release)>, keys: seq<string>, decode: string -> string): (ss: seq<Option<string>>)
    ensures |ss| == |keys|
    ensures forall i :: 0 <= i < |keys| ==> ss[i] == ReleaseSummary(releases, keys[i], decode)
  {
    seq(|keys|, i requires 0 <= i < |keys| => ReleaseSummary(releases, keys[i], decode))
  }

  /** The list entry around one summary */
  function ListEntry(summary: Option<string>): string {
    "<li>" + summary.GetOr("") + "</li>\n"
  }

  /** The list entries of the summaries, in order */
  function ListEntries(summaries: seq<Option<string>>): (es: seq<string>)
    ensures |es| == |summaries|
    ensures forall i :: 0 <= i < |summaries| ==> es[i] == ListEntry(summaries[i])
  {
    seq(|summaries|, i requires 0 <= i < |summaries| => ListEntry(summaries[i]))
  }

  /** The `$.each` over the keys, appending one entry per key; `pages.releases`
      throws at the first key whose release is missing, and then renders
      nothing */
  function ListItems(summaries: seq<Option<string>>): Option<string>
    decreases |summaries|
  {
    if |summaries| == 0 then Some("")
    else
      match ListItems(summaries[..|summaries| - 1])
      case None => None
      case Some(markup) =>
        match summaries[|summaries| - 1]
        case None => None
        case Some(s) => Some(markup + "<li>" + s + "</li>\n")
  }

  /** The loop succeeds exactly when every summary exists, and then yields
      one entry per summary, in order. */
  lemma {:induction false} ListItemsInOrder(summaries: seq<Option<string>>)
    ensures ListItems(summaries).Some? <==> forall i :: 0 <= i < |summaries| ==> summaries[i].Some?
    ensures ListItems(summaries).Some? ==> ListItems(summaries).value == Join(ListEntries(summaries))
    decreases |summaries|
  {
    if |summaries| > 0 {
      var n := |summaries| - 1;
      var front := summaries[..n];
      ListItemsInOrder(front);
      assert forall i :: 0 <= i < n ==> front[i] == summaries[i];
      assert ListEntries(summaries)[..n] == ListEntries(front);
    }
  }

  /** Every key has a summary exactly when every decoded key names a release. */
  lemma AllSummariesExist(releases: seq<(string, Release)>, decode: string -> string)
    ensures (forall i :: 0 <= i < |releases| ==> Summaries(releases, Keys(releases), decode)[i].Some?)
      <==> forall i :: 0 <= i < |releases| ==> Lookup(releases, decode(releases[i].0)).Some?
  {
    var ss := Summaries(releases, Keys(releases), decode);
    assert forall i :: 0 <= i < |releases| ==> (ss[i].Some? <==> Lookup(releases, decode(releases[i].0)).Some?);
  }

  const NoReleases := "<h1>:-/</h1> No releases were found."

  /** The releases landing page: the list of all releases when the
      configuration has a non-empty releases object, the "no releases"
      message otherwise; nothing when a key's release is missing. */
  function ReleasesLanding(releases: Option<seq<(string, Release)>>, decode: string -> string, docTitle: string): (r: Option<Rendered>)
    ensures releases.None? || |releases.value| == 0 ==> r == Some(Rendered(NoReleases, docTitle + " | releases"))
    ensures releases.Some? && |releases.value| > 0 ==>
      (r.Some? <==> forall i :: 0 <= i < |releases.value| ==> Lookup(releases.value, decode(releases.value[i].0)).Some?)
    ensures releases.Some? && |releases.value| > 0 && r.Some? ==>
      r.value.content == "<ul class=\"release-list\">\n" + Join(ListEntries(Summaries(releases.value, Keys(releases.value), decode))) + "</ul>\n"
    ensures r.Some? ==> r.value.documentTitle == docTitle + " | releases"
  {
    if releases.Some? && |releases.value| > 0 then
      var summaries := Summaries(releases.value, Keys(releases.value), decode);
      ListItemsInOrder(summaries);
      AllSummariesExist(releases.value, decode);
      match ListItems(summaries)
      case Some(items) => Some(Rendered("<ul class=\"release-list\">\n" + items + "</ul>\n", docTitle + " | releases"))
      case None => None
    else
      Some(Rendered(NoReleases, docTitle + " | releases"))
  }
}
