/**
 * Body rewriting (alterBody) over an abstract page body: the parsed HTML is a
 * sequence of the elements the rewriter selects, in document order. Parsing
 * and serialising are left to the HTML library and taken as parameters.
 */
module Markup {
  import opened Types
  import opened Text
  import opened Graph

  /** The elements alterBody looks at; `Markup` is any other markup, and what `replaceWith` inserts. */
  datatype Element =
    | Link(resourceType: Option<string>, resourceId: Option<string>, cls: Option<string>, target: Option<string>, text: string)
    | Image(mediaId: Option<string>, emoji: bool, src: Option<string>)
    | Heading(tag: string, text: string, id: Option<string>)
    | Paragraph(text: string)
    | Markup(html: string)

  /** The longest description kept: `substr(0, 200)`. */
  const DescriptionLength: nat := 200

  /** The page id an internal link points to: `data-linked-resource-type="page"` and a non-empty resource id. */
  function InternalTarget(e: Element): Option<string>
  {
    if e.Link? && e.resourceType == Some("page") && Truthy(e.resourceId) then Some(e.resourceId.value) else None
  }

  /** The markup an internal link is replaced with. */
  function LinkHtml(slug: string, text: string): string
  {
    "<a href=\"" + slug + "/\">" + text + "</a>"
  }

  /** The markup a resolved media image is replaced with. */
  function ImageHtml(path: string): string
  {
    "<img src=\"" + path + "\">"
  }

  /**
   * The link pass on one element: an internal link becomes a plain link to the
   * target's slug followed by "/"; an external link opens in a new tab.
   */
  function RewriteLink(e: Element, slugOf: string -> string): (r: Element)
    ensures InternalTarget(e).Some? ==> r == Markup(LinkHtml(slugOf(InternalTarget(e).value), e.text))
    ensures InternalTarget(e).None? && e.Link? && e.resourceType != Some("page") && e.cls == Some("external-link")
            ==> r == e.(target := Some("_blank"))
    ensures e.Link? && InternalTarget(e).None? && (e.resourceType == Some("page") || e.cls != Some("external-link"))
            ==> r == e
    ensures !e.Link? ==> r == e
  {
    match e
    case Link(rt, rid, cls, _, text) =>
      if rt == Some("page") then
        (if Truthy(rid) then Markup(LinkHtml(slugOf(rid.value), text)) else e)
      else if cls == Some("external-link") then e.(target := Some("_blank"))
      else e
    case _ => e
  }

  /**
   * The image pass on one element: a media image with a matching attachment of
   * the space becomes an image of the attachment's local path; otherwise an
   * emoji image gets the base URL put in front of its source. The source
   * interpolates a missing `src` as the text "undefined".
   */
  function RewriteImage(e: Element, atts: seq<Attachment>, baseUrl: string): (r: Element)
    ensures e.Image? && e.mediaId.Some? && FindAttachment(atts, e.mediaId.value) >= 0
            ==> r == Markup(ImageHtml(atts[FindAttachment(atts, e.mediaId.value)].path))
    ensures e.Image? && (e.mediaId.None? || FindAttachment(atts, e.mediaId.value) < 0) && !e.emoji ==> r == e
    ensures !e.Image? ==> r == e
  {
    match e
    case Image(mediaId, emoji, src) =>
      if mediaId.Some? && FindAttachment(atts, mediaId.value) >= 0 then
        Markup(ImageHtml(atts[FindAttachment(atts, mediaId.value)].path))
      else if emoji then
        e.(src := Some(baseUrl + (if src.Some? then src.value else "undefined")))
      else e
    case _ => e
  }

  /** The heading pass on one element: the heading gets `id` = seg(text). */
  function SetHeadingId(e: Element, seg: string -> string): Element
  {
    if e.Heading? then e.(id := Some(seg(e.text))) else e
  }

  /** The headings of a body, in document order. */
  function Headings(elems: seq<Element>): (hs: seq<Element>)
    ensures |hs| <= |elems|
    ensures forall k :: 0 <= k < |hs| ==> hs[k].Heading?
  {
    if elems == [] then []
    else Headings(elems[..|elems| - 1]) + (if elems[|elems| - 1].Heading? then [elems[|elems| - 1]] else [])
  }

  /** The anchor list: one entry per heading, numbered from 0 in document order. */
  function AnchorsOf(elems: seq<Element>, seg: string -> string): (anchors: seq<Anchor>)
    ensures |anchors| == |Headings(elems)|
    ensures forall k :: 0 <= k < |anchors| ==>
              var h := Headings(elems)[k];
              anchors[k] == Anchor(h.text, seg(h.text), k, h.tag)
  {
    var hs := Headings(elems);
    seq(|hs|, k requires 0 <= k < |hs| => Anchor(hs[k].text, seg(hs[k].text), k, hs[k].tag))
  }

  /** The text of the first paragraph, if there is one. */
  function FirstParagraph(elems: seq<Element>): Option<string>
  {
    if elems == [] then None
    else if elems[0].Paragraph? then Some(elems[0].text)
    else FirstParagraph(elems[1..])
  }

  /** The new description: the first 200 characters of the first paragraph, unless it is missing or empty. */
  function Describe(elems: seq<Element>, previous: Option<string>): (d: Option<string>)
    ensures d == previous || (d.Some? && 0 < |d.value| <= DescriptionLength)
  {
    match FirstParagraph(elems)
    case Some(t) => if t != "" then Some(Take(t, DescriptionLength)) else previous
    case None => previous
  }

  /** The link pass over the whole body. */
  function LinkPass(elems: seq<Element>, slugOf: string -> string): seq<Element>
  {
    seq(|elems|, k requires 0 <= k < |elems| => RewriteLink(elems[k], slugOf))
  }

  /** The heading pass over the whole body. */
  function HeadingPass(elems: seq<Element>, seg: string -> string): seq<Element>
  {
    seq(|elems|, k requires 0 <= k < |elems| => SetHeadingId(elems[k], seg))
  }

  /** The image pass over the whole body. */
  function ImagePass(elems: seq<Element>, atts: seq<Attachment>, baseUrl: string): seq<Element>
  {
    seq(|elems|, k requires 0 <= k < |elems| => RewriteImage(elems[k], atts, baseUrl))
  }

  /**
   * What alterBody does to one page, pass by pass as the source runs them:
   * links, then the description and the anchors (read after the links), then
   * heading ids, then images, then the wrapping div.
   */
  function RewritePage(page: Page, elems: seq<Element>, slugOf: string -> string, atts: seq<Attachment>,
                       baseUrl: string, seg: string -> string, serialize: seq<Element> -> string): (r: Page)
    ensures r == page.(body := r.body, description := r.description, anchor := r.anchor)
  {
    var linked := LinkPass(elems, slugOf);
    var out := ImagePass(HeadingPass(linked, seg), atts, baseUrl);
    page.(body := "<div>" + serialize(out) + "</div>",
          description := Describe(linked, page.description),
          anchor := Some(AnchorsOf(linked, seg)))
  }

  /** One more element adds one anchor when it is a heading, numbered after the earlier ones. */
  lemma AnchorsSnoc(elems: seq<Element>, k: int, seg: string -> string)
    requires 0 <= k < |elems|
    ensures AnchorsOf(elems[..k + 1], seg) == AnchorsOf(elems[..k], seg)
            + (if elems[k].Heading? then [Anchor(elems[k].text, seg(elems[k].text), |AnchorsOf(elems[..k], seg)|, elems[k].tag)] else [])
  {
    assert elems[..k + 1][..k] == elems[..k];
  }

  /** Links never become or stop being paragraphs or headings, so the description and anchors read the original ones. */
  lemma {:induction false} LinkPassKeepsText(elems: seq<Element>, slugOf: string -> string, seg: string -> string, previous: Option<string>)
    ensures Describe(LinkPass(elems, slugOf), previous) == Describe(elems, previous)
    ensures AnchorsOf(LinkPass(elems, slugOf), seg) == AnchorsOf(elems, seg)
  {
    FirstParagraphLinks(elems, slugOf);
    HeadingsLinks(elems, slugOf);
  }

  lemma {:induction false} FirstParagraphLinks(elems: seq<Element>, slugOf: string -> string)
    ensures FirstParagraph(LinkPass(elems, slugOf)) == FirstParagraph(elems)
  {
    if elems != [] {
      assert LinkPass(elems, slugOf)[1..] == LinkPass(elems[1..], slugOf);
      FirstParagraphLinks(elems[1..], slugOf);
    }
  }

  lemma {:induction false} HeadingsLinks(elems: seq<Element>, slugOf: string -> string)
    ensures Headings(LinkPass(elems, slugOf)) == Headings(elems)
  {
    if elems != [] {
      var n := |elems| - 1;
      assert LinkPass(elems, slugOf)[..n] == LinkPass(elems[..n], slugOf);
      HeadingsLinks(elems[..n], slugOf);
    }
  }

  // Properties of the rewriting

  /** The description is the first paragraph's text cut to 200 characters, or the old one when that text is missing or empty. */
  lemma {:induction false} DescriptionSpec(elems: seq<Element>, previous: Option<string>)
    ensures (exists k :: 0 <= k < |elems| && elems[k].Paragraph? && elems[k].text != "" &&
               (forall m :: 0 <= m < k ==> !elems[m].Paragraph?) &&
               Describe(elems, previous) == Some(Take(elems[k].text, DescriptionLength)))
         || (Describe(elems, previous) == previous &&
               forall k :: 0 <= k < |elems| && elems[k].Paragraph? && elems[k].text != "" ==>
                 exists m :: 0 <= m < k && elems[m].Paragraph?)
  {
    if elems != [] && !elems[0].Paragraph? {
      DescriptionSpec(elems[1..], previous);
      if exists k :: 0 <= k < |elems[1..]| && elems[1..][k].Paragraph? && elems[1..][k].text != "" &&
               (forall m :: 0 <= m < k ==> !elems[1..][m].Paragraph?) &&
               Describe(elems[1..], previous) == Some(Take(elems[1..][k].text, DescriptionLength)) {
        var k :| 0 <= k < |elems[1..]| && elems[1..][k].Paragraph? && elems[1..][k].text != "" &&
               (forall m :: 0 <= m < k ==> !elems[1..][m].Paragraph?) &&
               Describe(elems[1..], previous) == Some(Take(elems[1..][k].text, DescriptionLength));
        assert elems[k + 1] == elems[1..][k];
        forall m | 0 <= m < k + 1 ensures !elems[m].Paragraph? {
          if m > 0 { assert elems[m] == elems[1..][m - 1]; }
        }
      } else {
        forall k | 0 <= k < |elems| && elems[k].Paragraph? && elems[k].text != ""
          ensures exists m :: 0 <= m < k && elems[m].Paragraph?
        {
          assert elems[1..][k - 1] == elems[k];
          var m :| 0 <= m < k - 1 && elems[1..][m].Paragraph?;
          assert elems[m + 1] == elems[1..][m];
        }
      }
    }
  }

  /** A first paragraph of 250 characters gives exactly its first 200 characters. */
  lemma TruncationBoundary(text: string, rest: seq<Element>, previous: Option<string>)
    requires |text| == 250
    ensures Describe([Paragraph(text)] + rest, previous) == Some(text[..200])
  {
  }

  /** Headings keep their document order and each anchor equals the id its heading receives. */
  lemma {:induction false} HeadingIds(elems: seq<Element>, seg: string -> string, k: int)
    requires 0 <= k < |AnchorsOf(elems, seg)|
    ensures AnchorsOf(elems, seg)[k].position == k
    ensures SetHeadingId(Headings(elems)[k], seg).id == Some(AnchorsOf(elems, seg)[k].anchor)
  {
  }

  /** Every heading of the body appears in the anchor list, and only headings do. */
  lemma {:induction false} HeadingsComplete(elems: seq<Element>)
    ensures forall e :: e in Headings(elems) <==> e in elems && e.Heading?
  {
    if elems != [] {
      HeadingsComplete(elems[..|elems| - 1]);
      assert elems == elems[..|elems| - 1] + [elems[|elems| - 1]];
    }
  }

  /** A media image is replaced only when its space has an attachment with that id. */
  lemma MediaReplacedOnlyWithAttachment(e: Element, atts: seq<Attachment>, baseUrl: string)
    requires e.Image? && e.mediaId.Some?
    ensures RewriteImage(e, atts, baseUrl).Markup? <==> exists k :: 0 <= k < |atts| && atts[k].id == e.mediaId.value
  {
    if exists k :: 0 <= k < |atts| && atts[k].id == e.mediaId.value {
      assert FindAttachment(atts, e.mediaId.value) >= 0;
    }
  }

  /**
   * An emoji image that is not replaced by an attachment gets an absolute
   * source under the base URL; a missing source becomes the text "undefined".
   */
  lemma EmojiPrefixed(e: Element, atts: seq<Attachment>, baseUrl: string)
    requires e.Image? && e.emoji
    requires e.mediaId.None? || FindAttachment(atts, e.mediaId.value) < 0
    ensures e.src.Some? ==> RewriteImage(e, atts, baseUrl) == e.(src := Some(baseUrl + e.src.value))
    ensures e.src.None? ==> RewriteImage(e, atts, baseUrl) == e.(src := Some(baseUrl + "undefined"))
  {
  }

  /** The rewritten body is always wrapped in one div. */
  lemma BodyWrapped(page: Page, elems: seq<Element>, slugOf: string -> string, atts: seq<Attachment>,
                    baseUrl: string, seg: string -> string, serialize: seq<Element> -> string)
    ensures var b := RewritePage(page, elems, slugOf, atts, baseUrl, seg, serialize).body;
            |b| >= 11 && b[..5] == "<div>" && b[|b| - 6..] == "</div>"
  {
  }
}
