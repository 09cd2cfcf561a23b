/**
 * The `/sitemap.xml` endpoint: the home page, every published post newest
 * first, then the about and tags pages, rendered into the sitemap protocol's
 * `<urlset>`. The clock and `Date.prototype.toISOString` are parameters.
 */
module Sitemap {
  import opened JsValues
  import opened Text
  import opened BlogSchema
  import opened Collections

  const SITE_URL: string := "https://cleaver.ca"
  const SITEMAP_NS: string := "http://www.sitemaps.org/schemas/sitemap/0.9"
  const CONTENT_TYPE: string := "application/xml"

  /** One `<url>` element. */
  datatype UrlEntry = UrlEntry(loc: string, lastmod: Instant, changefreq: string, priority: string)

  datatype Response = Response(body: string, contentType: string)

  /** The optional `updatedDate` as a JavaScript value: a `Date`, or `undefined` when absent. */
  function UpdatedValue(e: Entry): Value
  {
    if e.data.updatedDate.Some? then DateVal(e.data.updatedDate.value) else Undefined
  }

  /**
   * The instant of `updatedDate || pubDate`. A `Date` object is always
   * truthy, so a present `updatedDate` wins whatever instant it holds.
   */
  function LastMod(e: Entry): (t: Instant)
    ensures DateVal(t) == OrElse(UpdatedValue(e), DateVal(e.data.pubDate))
  {
    if e.data.updatedDate.Some? then e.data.updatedDate.value else e.data.pubDate
  }

  function PostUrl(e: Entry): UrlEntry
  {
    UrlEntry(SITE_URL + e.id, LastMod(e), "weekly", "0.7")
  }

  /** `.filter((post) => !post.data.draft)`. */
  function Published(s: seq<Entry>): (r: seq<Entry>)
    ensures |r| <= |s|
    ensures forall e :: e in r <==> e in s && !e.data.draft
  {
    if s == [] then []
    else
      assert forall e :: e in s <==> e == s[0] || e in s[1..];
      (if s[0].data.draft then [] else [s[0]]) + Published(s[1..])
  }

  /** The filter keeps each non-draft post as many times as the collection holds it, and drops every draft. */
  lemma {:induction false} PublishedCount(s: seq<Entry>, e: Entry)
    ensures multiset(Published(s))[e] == if e.data.draft then 0 else multiset(s)[e]
  {
    if s != [] {
      PublishedCount(s[1..], e);
      assert s == [s[0]] + s[1..];
    }
  }

  /** The filter keeps the collection's order: it works on each part of a concatenation separately. */
  lemma {:induction false} PublishedAppend(s: seq<Entry>, t: seq<Entry>)
    ensures Published(s + t) == Published(s) + Published(t)
  {
    if s == [] {
      assert s + t == t;
    } else {
      var rest := s[1..];
      assert s == [s[0]] + rest;
      assert s + t == [s[0]] + (rest + t);
      var head := if s[0].data.draft then [] else [s[0]];
      calc {
        Published(s + t);
        { PublishedCons(s[0], rest + t); }
        head + Published(rest + t);
        { PublishedAppend(rest, t); }
        head + (Published(rest) + Published(t));
        (head + Published(rest)) + Published(t);
        { PublishedCons(s[0], rest); }
        Published(s) + Published(t);
      }
    }
  }

  lemma PublishedCons(e: Entry, rest: seq<Entry>)
    ensures Published([e] + rest) == (if e.data.draft then [] else [e]) + Published(rest)
  {
    assert ([e] + rest)[1..] == rest;
  }

  /** On one post, the filter keeps it exactly when it is not a draft. */
  lemma PublishedOne(e: Entry)
    ensures Published([e]) == if e.data.draft then [] else [e]
  {
    assert [e][1..] == [];
  }

  /** `.map(...)` over the published posts. */
  function PostUrls(s: seq<Entry>): (r: seq<UrlEntry>)
    ensures |r| == |Published(s)|
    ensures forall k :: 0 <= k < |r| ==> r[k] == PostUrl(Published(s)[k])
  {
    var published := Published(s);
    seq(|published|, k requires 0 <= k < |published| => PostUrl(published[k]))
  }

  function HomeUrl(now: Instant): UrlEntry
  {
    UrlEntry(SITE_URL + "/", now, "daily", "1.0")
  }

  function AboutUrl(now: Instant): UrlEntry
  {
    UrlEntry(SITE_URL + "/about-me", now, "monthly", "0.8")
  }

  function TagsUrl(now: Instant): UrlEntry
  {
    UrlEntry(SITE_URL + "/tags", now, "weekly", "0.5")
  }

  /** Every `<url>` of the sitemap, in document order. */
  function Urls(sorted: seq<Entry>, now: Instant): seq<UrlEntry>
  {
    [HomeUrl(now)] + PostUrls(sorted) + [AboutUrl(now), TagsUrl(now)]
  }

  /** How an instant is written as an ISO-8601 timestamp (`toISOString`). */
  type IsoFormat = Instant -> string

  /** One `<url>` element; `indent` is the indentation of its closing tag in the template. */
  function RenderUrl(u: UrlEntry, indent: string, iso: IsoFormat): string
  {
    UrlOpening(indent) + LocElement(u.loc) + UrlRest(u, indent, iso)
  }

  function UrlOpening(indent: string): string
  {
    "<url>\n" + indent + "  "
  }

  function LocElement(loc: string): string
  {
    "<loc>" + loc + "</loc>"
  }

  function UrlRest(u: UrlEntry, indent: string, iso: IsoFormat): string
  {
    "\n"
    + indent + "  <lastmod>" + iso(u.lastmod) + "</lastmod>\n"
    + indent + "  <changefreq>" + u.changefreq + "</changefreq>\n"
    + indent + "  <priority>" + u.priority + "</priority>\n"
    + indent + "</url>"
  }

  /** `.join('')` of the rendered elements. */
  function RenderAll(us: seq<UrlEntry>, indent: string, iso: IsoFormat): string
  {
    if us == [] then "" else RenderUrl(us[0], indent, iso) + RenderAll(us[1..], indent, iso)
  }

  /** The XML declaration and the opening `<urlset>` tag. */
  const XML_HEAD: string := "<?xml version=\"1.0\" encoding=\"UTF-8\"?>\n" + "<urlset xmlns=\"" + SITEMAP_NS + "\">\n"

  /**
   * The template filled in from a URL list in document order: the first URL
   * (the home page) in the template's own block, then the post URLs joined,
   * then the last two (the custom pages) joined, each at its own indentation.
   */
  function Document(us: seq<UrlEntry>, iso: IsoFormat): string
    requires |us| >= 3
  {
    Template(RenderAll(us[..1], "  ", iso), RenderAll(us[1..|us| - 2], "      ", iso), RenderAll(us[|us| - 2..], "    ", iso))
  }

  /** The template with its three slots filled: the home block, `${postUrls}` and `${customPages}`. */
  function Template(home: string, posts: string, pages: string): string
  {
    XML_HEAD + "  " + home + "\n  " + posts + "\n  " + pages + "\n</urlset>"
  }

  /** The response body for posts already in sorted order. */
  function SitemapXml(sorted: seq<Entry>, now: Instant, iso: IsoFormat): string
  {
    Document(Urls(sorted, now), iso)
  }

  /**
   * `GET`: sorts the collection in place (as `sortPostsByDate` does) and
   * returns the sitemap. `now` stands for the three `new Date()` readings.
   */
  method Get(posts: array<Entry>, now: Instant, iso: IsoFormat) returns (r: Response)
    modifies posts
    ensures posts[..] == SortByDate(old(posts[..]))
    ensures r == Response(SitemapXml(posts[..], now, iso), CONTENT_TYPE)
  {
    var sorted := SortPostsByDate(posts);
    r := Response(SitemapXml(sorted[..], now, iso), CONTENT_TYPE);
  }

  // ---------------------------------------------------------------------------
  // Properties

  /**
   * The home page comes first, then one URL per published post in sorted
   * order, then the about and tags pages.
   */
  lemma UrlsLayout(sorted: seq<Entry>, now: Instant)
    ensures var us := Urls(sorted, now);
            |us| == |Published(sorted)| + 3
            && us[0] == HomeUrl(now)
            && us[|us| - 2] == AboutUrl(now) && us[|us| - 1] == TagsUrl(now)
            && forall k :: 0 <= k < |Published(sorted)| ==> us[k + 1] == PostUrl(Published(sorted)[k])
  {
    var us := Urls(sorted, now);
    var posts := PostUrls(sorted);
    assert |us| == |posts| + 3;
    forall k | 0 <= k < |posts| ensures us[k + 1] == posts[k] {
    }
  }

  /** Every URL of the sitemap is on the site and appears in the response body as a `<loc>` element. */
  lemma UrlsOnSite(sorted: seq<Entry>, now: Instant, iso: IsoFormat)
    ensures forall u :: u in Urls(sorted, now) ==>
              StartsWith(u.loc, SITE_URL) && Contains(SitemapXml(sorted, now, iso), LocElement(u.loc))
  {
    var us := Urls(sorted, now);
    forall u | u in us
      ensures StartsWith(u.loc, SITE_URL) && Contains(SitemapXml(sorted, now, iso), LocElement(u.loc))
    {
      var k :| 0 <= k < |us| && us[k] == u;
      assert u.loc[..|SITE_URL|] == SITE_URL;
      UrlListed(us, iso, k);
    }
  }

  /** The `k`-th URL of the list is rendered into the document as a `<loc>` element. */
  lemma UrlListed(us: seq<UrlEntry>, iso: IsoFormat, k: nat)
    requires 3 <= |us| && k < |us|
    ensures Contains(Document(us, iso), LocElement(us[k].loc))
  {
    var home := us[..1];
    var posts := us[1..|us| - 2];
    var pages := us[|us| - 2..];
    var a := RenderAll(home, "  ", iso);
    var b := RenderAll(posts, "      ", iso);
    var c := RenderAll(pages, "    ", iso);
    TemplateSlots(a, b, c);
    if k == 0 {
      PartListed(XML_HEAD + "  ", home, "  ", iso, "\n  " + b + "\n  " + c + "\n</urlset>", 0);
    } else if k < |us| - 2 {
      assert posts[k - 1] == us[k];
      PartListed(XML_HEAD + "  " + a + "\n  ", posts, "      ", iso, "\n  " + c + "\n</urlset>", k - 1);
    } else {
      assert pages[k - (|us| - 2)] == us[k];
      PartListed(XML_HEAD + "  " + a + "\n  " + b + "\n  ", pages, "    ", iso, "\n</urlset>", k - (|us| - 2));
    }
  }

  lemma TemplateSlots(a: string, b: string, c: string)
    ensures Template(a, b, c) == (XML_HEAD + "  ") + a + ("\n  " + b + "\n  " + c + "\n</urlset>")
    ensures Template(a, b, c) == (XML_HEAD + "  " + a + "\n  ") + b + ("\n  " + c + "\n</urlset>")
    ensures Template(a, b, c) == (XML_HEAD + "  " + a + "\n  " + b + "\n  ") + c + "\n</urlset>"
  {
  }

  /** An element of a joined list, placed between any two texts, puts its `<loc>` in the whole. */
  lemma PartListed(before: string, us: seq<UrlEntry>, indent: string, iso: IsoFormat, after: string, k: nat)
    requires k < |us|
    ensures Contains(before + RenderAll(us, indent, iso) + after, LocElement(us[k].loc))
  {
    var element := RenderUrl(us[k], indent, iso);
    var joined := RenderAll(us, indent, iso);
    RenderAllContains(us, indent, iso, k);
    var i: nat :| OccursAt(joined, element, i);
    var loc := LocElement(us[k].loc);
    InfixOccurs(UrlOpening(indent), loc, UrlRest(us[k], indent, iso));
    LocInParts(before, joined, after, element, loc, i, |UrlOpening(indent)|);
  }

  /** A post has a URL exactly when it is in the collection and not a draft. */
  lemma {:induction false} DraftsExcluded(sorted: seq<Entry>, e: Entry)
    ensures e in sorted && !e.data.draft ==> PostUrl(e) in PostUrls(sorted)
    ensures forall u :: u in PostUrls(sorted) ==> exists p :: p in sorted && !p.data.draft && u == PostUrl(p)
  {
    var published := Published(sorted);
    var urls := PostUrls(sorted);
    if e in sorted && !e.data.draft {
      var k :| 0 <= k < |published| && published[k] == e;
      assert urls[k] == PostUrl(e);
    }
    forall u | u in urls ensures exists p :: p in sorted && !p.data.draft && u == PostUrl(p) {
      var k :| 0 <= k < |urls| && urls[k] == u;
      assert published[k] in published;
    }
  }

  /** Filtering keeps the newest-first order. */
  lemma {:induction false} PublishedDescending(s: seq<Entry>)
    requires Descending(s)
    ensures Descending(Published(s))
  {
    if s != [] {
      PublishedDescending(s[1..]);
      var r := Published(s);
      if !s[0].data.draft {
        forall k | 1 <= k < |r| ensures Date(r[0]) >= Date(r[k]) {
          assert r[k] in Published(s[1..]);
        }
      }
    }
  }

  /** The post URLs of the response are newest first by publication date. */
  lemma PostsNewestFirst(input: seq<Entry>)
    ensures var published := Published(SortByDate(input));
            forall i, j :: 0 <= i < j < |published| ==> published[i].data.pubDate >= published[j].data.pubDate
  {
    SortDescending(input);
    PublishedDescending(SortByDate(input));
  }

  /** Each element of a joined list occurs in the joined text. */
  lemma {:induction false} RenderAllContains(us: seq<UrlEntry>, indent: string, iso: IsoFormat, k: nat)
    requires k < |us|
    ensures exists i: nat :: OccursAt(RenderAll(us, indent, iso), RenderUrl(us[k], indent, iso), i)
  {
    var head := RenderUrl(us[0], indent, iso);
    var rest := RenderAll(us[1..], indent, iso);
    if k == 0 {
      InfixOccurs("", head, rest);
      assert "" + head + rest == RenderAll(us, indent, iso);
    } else {
      RenderAllContains(us[1..], indent, iso, k - 1);
      var i: nat :| OccursAt(rest, RenderUrl(us[k], indent, iso), i);
      InfixOccurs(head, rest, "");
      assert head + rest + "" == RenderAll(us, indent, iso);
      OccursWithin(RenderAll(us, indent, iso), rest, RenderUrl(us[k], indent, iso), |head|, i);
    }
  }

  /** Every published post's address appears in the sitemap as a `<loc>` element. */
  lemma {:induction false} PublishedPostListed(sorted: seq<Entry>, now: Instant, iso: IsoFormat, e: Entry)
    requires e in sorted && !e.data.draft
    ensures Contains(SitemapXml(sorted, now, iso), LocElement(SITE_URL + e.id))
  {
    DraftsExcluded(sorted, e);
    assert PostUrl(e) in Urls(sorted, now);
    UrlsOnSite(sorted, now, iso);
  }

  lemma LocInParts(before: string, joined: string, after: string, element: string, loc: string, i: nat, off: nat)
    requires OccursAt(joined, element, i) && OccursAt(element, loc, off)
    ensures Contains(before + joined + after, loc)
  {
    var xml := before + joined + after;
    InfixOccurs(before, joined, after);
    OccursWithin(xml, joined, element, |before|, i);
    OccursWithin(xml, element, loc, |before| + i, off);
    ContainsIff(xml, loc);
  }
}
