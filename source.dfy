/**
 * The Confluence source plugin's content graph: the list of spaces, built
 * and rewritten in place by the passes of loadSource. HTTP responses, the
 * random file names and the library functions are parameters.
 */
module Source {
  import opened Types
  import opened Text
  import opened Graph
  import opened Settings
  import opened Slugs
  import opened Spaces
  import opened Crawl
  import opened Attachments
  import opened Markup
  import opened Nodes
  import opened Passes

  class ConfluenceSource {
    /** The plugin options. */
    const config: Config
    /** `slugify` with the plugin's fixed options. */
    const seg: string -> string
    /** `path.parse(title).ext`. */
    const extOf: string -> string
    /** The HTML parser, yielding the elements the rewriter looks at. */
    const parse: string -> seq<Element>
    /** The HTML serialiser. */
    const serialize: seq<Element> -> string
    /** The spaces with their pages and attachments. */
    var spaces: seq<Space>

    constructor (config: Config, seg: string -> string, extOf: string -> string,
                 parse: string -> seq<Element>, serialize: seq<Element> -> string)
      ensures this.config == config && this.seg == seg && this.extOf == extOf
      ensures this.parse == parse && this.serialize == serialize
      ensures spaces == []
    {
      this.config := config;
      this.seg := seg;
      this.extOf := extOf;
      this.parse := parse;
      this.serialize := serialize;
      spaces := [];
    }

    /**
     * getSpaces: `getSpace(key)` answers the request for one space, `all`
     * is the site's space listing.
     */
    method GetSpaces(getSpace: string -> SpaceInfo, all: seq<SpaceInfo>)
      modifies this
      ensures spaces == SelectSpaces(config.spaceKey, getSpace, all)
    {
      var result: seq<Space> := [];
      if Truthy(config.spaceKey) {
        var selector := config.spaceKey.value;
        var keys := Split(selector, ',');
        if |keys| == 0 {
          keys := [selector];
        }
        var i := 0;
        while i < |keys|
          invariant 0 <= i <= |keys|
          invariant keys == Split(selector, ',')
          invariant result == FromKeys(keys[..i], getSpace)
        {
          result := result + [NewSpace(getSpace(keys[i]))];
          i := i + 1;
        }
        assert keys[..i] == keys;
      } else {
        var i := 0;
        while i < |all|
          invariant 0 <= i <= |all|
          invariant result == GlobalSpaces(all[..i])
        {
          assert all[..i + 1][..i] == all[..i];
          if all[i].kind == Global {
            result := result + [NewSpace(all[i])];
          }
          i := i + 1;
        }
        assert all[..i] == all;
      }
      spaces := result;
    }

    /**
     * getHomepage: one request per space for its homepage, all issued before
     * any push; each answer is pushed into the space it names. A homepage
     * naming no known space makes the pass throw.
     */
    method GetHomepage(content: string -> Content) returns (ok: bool)
      modifies this
      ensures ok <==> PushAll(old(spaces), HomePages(old(spaces), content)).Some?
      ensures ok ==> spaces == PushAll(old(spaces), HomePages(old(spaces), content)).value
    {
      var requested := spaces;
      var i := 0;
      while i < |requested|
        invariant 0 <= i <= |requested|
        invariant PushAll(requested, HomePages(requested[..i], content)) == Some(spaces)
      {
        var page := HomePage(content(requested[i].contentId));
        HomeStep(requested, content, i, spaces);
        var k := FindSpace(spaces, page.space);
        if k < 0 {
          return false;
        }
        spaces := spaces[k := spaces[k].(pages := spaces[k].pages + [page])];
        i := i + 1;
      }
      assert requested[..i] == requested;
      ok := true;
    }

    /**
     * getParentPages: one request per space for its homepage's children; each
     * result is pushed from an `async` callback, so one naming no known space
     * fails alone and the others are still pushed.
     */
    method GetParentPages(children: string -> seq<Content>) returns (ok: bool)
      modifies this
      ensures ok <==> AllRouted(old(spaces), TopPages(old(spaces), children))
      ensures spaces == PushEach(old(spaces), TopPages(old(spaces), children))
    {
      var requested := spaces;
      ok := true;
      var i := 0;
      while i < |requested|
        invariant 0 <= i <= |requested|
        invariant spaces == PushEach(requested, TopPages(requested[..i], children))
        invariant ok <==> AllRouted(requested, TopPages(requested[..i], children))
      {
        ghost var done := TopPages(requested[..i], children);
        var rs := children(requested[i].contentId);
        TopPagesStep(requested, children, i);
        AllRoutedAppend(requested, done, ParentsOf(rs));
        var routed := PushParents(rs, requested, done);
        ok := ok && routed;
        i := i + 1;
      }
      assert requested[..i] == requested;
    }

    /** The pushes for one child listing of getParentPages, after those for `done`. */
    method PushParents(rs: seq<Content>, ghost requested: seq<Space>, ghost done: seq<Page>) returns (routed: bool)
      requires spaces == PushEach(requested, done)
      modifies this
      ensures spaces == PushEach(requested, done + ParentsOf(rs))
      ensures routed <==> AllRouted(requested, ParentsOf(rs))
    {
      routed := true;
      ghost var seen := [];
      var j := 0;
      assert done + seen == done;
      while j < |rs|
        invariant 0 <= j <= |rs|
        invariant seen == ParentsOf(rs[..j])
        invariant spaces == PushEach(requested, done + seen)
        invariant routed <==> AllRouted(requested, seen)
      {
        var page := ParentPage(rs[j]);
        ParentsStep(requested, done, seen, rs, j, spaces);
        var ok := PushRouted(page);
        routed := routed && ok;
        seen := seen + [page];
        j := j + 1;
      }
      assert rs[..j] == rs;
    }

    /** Push a page into the space it names, if there is one. */
    method PushRouted(page: Page) returns (routed: bool)
      modifies this
      ensures routed <==> FindSpace(old(spaces), page.space) >= 0
      ensures spaces == match PushPage(old(spaces), page) case None => old(spaces) case Some(t) => t
    {
      var k := FindSpace(spaces, page.space);
      routed := k >= 0;
      if routed {
        spaces := spaces[k := spaces[k].(pages := spaces[k].pages + [page])];
      }
    }

    /** Every page id of every space, space by space: the first frontier of getChildPages. */
    method CollectPageIds() returns (ids: seq<string>)
      ensures ids == PageIds(spaces)
    {
      ids := [];
      var i := 0;
      while i < |spaces|
        invariant 0 <= i <= |spaces|
        invariant ids == PageIds(spaces[..i])
      {
        assert spaces[..i + 1][..i] == spaces[..i];
        var pages := spaces[i].pages;
        var j := 0;
        while j < |pages|
          invariant 0 <= j <= |pages|
          invariant ids == PageIds(spaces[..i]) + IdsOf(pages)[..j]
        {
          assert IdsOf(pages)[..j + 1] == IdsOf(pages)[..j] + [pages[j].id];
          ids := ids + [pages[j].id];
          j := j + 1;
        }
        assert IdsOf(pages)[..j] == IdsOf(pages);
        i := i + 1;
      }
      assert spaces[..i] == spaces;
    }

    /**
     * One pass of getChildPages over the answers to every request made so
     * far, in request order: each result whose id its space does not hold
     * yet is appended to that space, parented to the digits of the request
     * URL, and its id goes to `next`. A result naming no known space makes
     * the pass throw (`ok` false), leaving what was appended before.
     */
    method ChildPass(requested: seq<string>, children: string -> seq<Content>, ghost universe: set<string>)
      returns (ok: bool, next: seq<string>)
      requires IdsWithin(spaces, universe) && ClosedUniverse(universe, children)
      requires forall q :: q in requested ==> q in universe
      modifies this
      ensures PassInv(old(spaces), spaces, requested, children, universe, next)
      ensures ok ==> forall q :: q in requested ==> AllPresent(spaces, children(q))
      ensures !ok ==> exists q, r :: q in requested && r in children(q) && FindSpace(spaces, r.spaceKey) < 0
    {
      ghost var s0 := spaces;
      PassStart(spaces, requested, children, universe);
      next := [];
      var a := 0;
      while a < |requested|
        invariant 0 <= a <= |requested|
        invariant PassInv(s0, spaces, requested, children, universe, next)
        invariant forall m :: 0 <= m < a ==> AllPresent(spaces, children(requested[m]))
      {
        ok, next := ChildListing(requested, a, children, universe, s0, next);
        if !ok {
          return;
        }
        a := a + 1;
      }
      ok := true;
    }

    /** The callbacks of one pass of getChildPages for the listing of `requested[a]`. */
    method ChildListing(requested: seq<string>, a: int, children: string -> seq<Content>, ghost universe: set<string>,
                        ghost s0: seq<Space>, next0: seq<string>) returns (ok: bool, next: seq<string>)
      requires 0 <= a < |requested| && ClosedUniverse(universe, children)
      requires forall q :: q in requested ==> q in universe
      requires PassInv(s0, spaces, requested, children, universe, next0)
      requires forall m :: 0 <= m < a ==> AllPresent(spaces, children(requested[m]))
      modifies this
      ensures PassInv(s0, spaces, requested, children, universe, next)
      ensures ok ==> forall m :: 0 <= m < a + 1 ==> AllPresent(spaces, children(requested[m]))
      ensures !ok ==> exists q, r :: q in requested && r in children(q) && FindSpace(spaces, r.spaceKey) < 0
    {
      next := next0;
      var q := requested[a];
      var rs := children(q);
      var parent := Digits(ChildPageUrl(q));
      var b := 0;
      while b < |rs|
        invariant 0 <= b <= |rs|
        invariant PassInv(s0, spaces, requested, children, universe, next)
        invariant forall m :: 0 <= m < a ==> AllPresent(spaces, children(requested[m]))
        invariant AllPresent(spaces, rs[..b])
      {
        var r := rs[b];
        var k := FindSpace(spaces, r.spaceKey);
        if k < 0 {
          return false, next;
        }
        next := ChildEntry(requested, a, children, universe, s0, next, rs, b, k, parent);
        b := b + 1;
      }
      HandledNext(spaces, requested, children, a, rs);
      ok := true;
    }

    /** One callback of getChildPages: the child page goes to the space `k` its key names, unless that space already holds its id. */
    method ChildEntry(requested: seq<string>, a: int, children: string -> seq<Content>, ghost universe: set<string>,
                      ghost s0: seq<Space>, next0: seq<string>, rs: seq<Content>, b: int, k: int, parent: string)
      returns (next: seq<string>)
      requires 0 <= a < |requested| && rs == children(requested[a]) && 0 <= b < |rs|
      requires ClosedUniverse(universe, children) && requested[a] in universe
      requires PassInv(s0, spaces, requested, children, universe, next0)
      requires forall m :: 0 <= m < a ==> AllPresent(spaces, children(requested[m]))
      requires AllPresent(spaces, rs[..b]) && k == FindSpace(spaces, rs[b].spaceKey) >= 0
      requires parent == ParentIdFor(requested[a])
      modifies this
      ensures PassInv(s0, spaces, requested, children, universe, next)
      ensures forall m :: 0 <= m < a ==> AllPresent(spaces, children(requested[m]))
      ensures AllPresent(spaces, rs[..b + 1])
    {
      next := next0;
      ChildStep(s0, spaces, requested, children, universe, next, a, rs, b);
      if !HasId(spaces[k].pages, rs[b].id) {
        spaces := spaces[k := spaces[k].(pages := spaces[k].pages + [ChildPage(rs[b], parent)])];
        next := next + [rs[b].id];
      }
    }

    /**
     * getChildPages: request the children of every page, then, pass after
     * pass, of every page the last pass added, until a pass adds none. The
     * requests accumulate, so each pass reads the answers to all of them.
     * The walk ends because the ids are drawn from a finite `universe`
     * closed under `children`. `ok` false is the throw on a result naming
     * no known space.
     */
    method GetChildPages(children: string -> seq<Content>, ghost universe: set<string>) returns (ok: bool)
      requires IdsWithin(spaces, universe) && ClosedUniverse(universe, children)
      modifies this
      ensures Extends(old(spaces), spaces, PageIds(spaces), children)
      ensures ok ==> Closed(spaces, children)
      ensures !ok ==> HasStray(spaces, children)
    {
      ghost var s0 := spaces;
      var frontier := CollectPageIds();
      var requested: seq<string> := [];
      PassStart(spaces, requested, children, universe);
      forall i, j | 0 <= i < |spaces| && 0 <= j < |spaces[i].pages| ensures spaces[i].pages[j].id in requested + frontier {
        PageIdsMembership(spaces, spaces[i].pages[j].id);
      }
      forall q | q in frontier ensures IsPageId(spaces, q) {
        PageIdsMembership(spaces, q);
      }
      while |frontier| != 0
        invariant Extends(s0, spaces, requested, children) && IdsWithin(spaces, universe)
        invariant forall q :: q in requested + frontier ==> IsPageId(spaces, q)
        invariant forall i, j :: 0 <= i < |spaces| && 0 <= j < |spaces[i].pages| ==> spaces[i].pages[j].id in requested + frontier
        invariant forall q :: q in requested ==> AllPresent(spaces, children(q))
        decreases Pairs(|s0|, universe) - Present(spaces), |frontier|
      {
        var next: seq<string>;
        ok, requested, next := ChildRound(requested, frontier, children, universe, s0);
        if !ok {
          return;
        }
        frontier := next;
      }
      ok := true;
      assert requested + frontier == requested;
      Conclude(s0, spaces, requested, children);
      WalkClosed(spaces, requested, children);
    }

    /**
     * One round of getChildPages: the frontier joins the requests and a pass
     * reads the answers to all of them; the walk's invariant survives and
     * the graph grows unless the pass added nothing.
     */
    method ChildRound(prev: seq<string>, frontier: seq<string>, children: string -> seq<Content>, ghost universe: set<string>,
                      ghost s0: seq<Space>) returns (ok: bool, requested: seq<string>, next: seq<string>)
      requires ClosedUniverse(universe, children)
      requires Extends(s0, spaces, prev, children) && IdsWithin(spaces, universe)
      requires forall q :: q in prev + frontier ==> IsPageId(spaces, q)
      requires forall i, j :: 0 <= i < |spaces| && 0 <= j < |spaces[i].pages| ==> spaces[i].pages[j].id in prev + frontier
      modifies this
      ensures requested == prev + frontier
      ensures ok ==> Extends(s0, spaces, requested, children) && IdsWithin(spaces, universe)
      ensures ok ==> forall q :: q in requested + next ==> IsPageId(spaces, q)
      ensures ok ==> forall i, j :: 0 <= i < |spaces| && 0 <= j < |spaces[i].pages| ==> spaces[i].pages[j].id in requested + next
      ensures ok ==> forall q :: q in requested ==> AllPresent(spaces, children(q))
      ensures ok && next == [] ==> spaces == old(spaces)
      ensures ok && next != [] ==> Pairs(|s0|, universe) - Present(spaces) < Pairs(|s0|, universe) - Present(old(spaces))
      ensures !ok ==> Extends(s0, spaces, PageIds(spaces), children) && HasStray(spaces, children)
    {
      ghost var before := spaces;
      requested := prev + frontier;
      WalkIds(spaces, requested, universe);
      ok, next := ChildPass(requested, children, universe);
      WalkStepped(s0, before, spaces, prev, requested, children, universe, next);
      if !ok {
        Conclude(s0, spaces, requested, children);
        StrayFound(spaces, requested, children);
      }
    }

    /**
     * createSlug: walk up from `pageId` in the space with that key, putting
     * "/" + seg(title) in front for each page found by a unique id match.
     */
    method CreateSlug(spaceKey: string, pageId: string) returns (slug: string)
      requires FindSpace(spaces, spaceKey) >= 0
      requires ChainEnds(spaces[FindSpace(spaces, spaceKey)].pages, pageId)
      ensures slug == Slug(spaces[FindSpace(spaces, spaceKey)].pages, seg, pageId)
    {
      var pages := spaces[FindSpace(spaces, spaceKey)].pages;
      ghost var n0 := ChainBound(pages, pageId);
      ghost var whole := SlugWithin(pages, seg, pageId, n0);
      ghost var fuel := n0;
      var id := pageId;
      slug := "";
      var done := false;
      assert whole + slug == whole;
      while !done
        invariant !done ==> RootWithin(pages, id, fuel) && whole == SlugWithin(pages, seg, id, fuel) + slug
        invariant done ==> whole == slug
        decreases if done then 0 else fuel + 1
      {
        WalkStep(pages, seg, id, fuel, slug);
        var k := Lookup(pages, id);
        if k >= 0 {
          slug := "/" + seg(pages[k].title) + slug;
          if HasParent(pages[k]) {
            id := pages[k].parentPage.value;
            fuel := fuel - 1;
          } else {
            done := true;
          }
        } else {
          done := true;
        }
      }
      SlugIs(pages, seg, pageId, n0);
    }

    /**
     * setSlugs: each page, space by space, gets the slug createSlug builds
     * for its id in its space's key, read from the graph as updated so far.
     */
    method SetSlugs()
      requires ParentsAcyclic(spaces)
      modifies this
      ensures spaces == Slugged(old(spaces), seg)
    {
      ghost var s0 := spaces;
      ghost var t := Slugged(s0, seg);
      MixEnds(s0, t);
      var i := 0;
      while i < |spaces|
        invariant 0 <= i <= |s0| && spaces == Mix(s0, t, i, 0)
      {
        SlugSpace(i, s0);
        MixNext(s0, t, i);
        i := i + 1;
      }
    }

    /** The slugs of the pages of space `i`, one page after the other, in a pass started from `s0`. */
    method SlugSpace(i: int, ghost s0: seq<Space>)
      requires ParentsAcyclic(s0) && 0 <= i < |s0|
      requires spaces == Mix(s0, Slugged(s0, seg), i, 0)
      modifies this
      ensures spaces == Mix(s0, Slugged(s0, seg), i, |s0[i].pages|)
    {
      ghost var t := Slugged(s0, seg);
      MixReshaped(s0, t, i, 0);
      var n := |spaces[i].pages|;
      var j := 0;
      while j < n
        invariant n == |s0[i].pages| && 0 <= j <= n && spaces == Mix(s0, t, i, j)
      {
        SlugReady(s0, seg, i, j);
        var page := spaces[i].pages[j];
        var slug := CreateSlug(spaces[i].key, page.id);
        SlugStep(s0, seg, i, j, slug);
        spaces := spaces[i := spaces[i].(pages := spaces[i].pages[j := page.(slug := Some(slug))])];
        j := j + 1;
      }
    }

    /**
     * The link pass of alterBody over the parsed body of a page of space
     * `i`: a link to a page (with a resource id) is replaced by a plain link
     * to createSlug of that id; an external link gets `target="_blank"`.
     */
    method LinkElements(i: int, elems: seq<Element>) returns (out: seq<Element>)
      requires 0 <= i < |spaces| && ParentsAcyclic(spaces)
      ensures out == LinkPass(elems, SlugsIn(spaces, spaces[i].key, seg))
    {
      var key := spaces[i].key;
      ghost var slugOf := SlugsIn(spaces, key, seg);
      out := elems;
      var k := 0;
      while k < |out|
        invariant 0 <= k <= |out| == |elems|
        invariant forall m :: 0 <= m < |out| ==> out[m] == if m < k then RewriteLink(elems[m], slugOf) else elems[m]
      {
        var e := out[k];
        if e.Link? && e.resourceType == Some("page") {
          if Truthy(e.resourceId) {
            var slug := CreateSlug(key, e.resourceId.value);
            SlugsInIsSlug(spaces, key, seg, e.resourceId.value);
            out := out[k := Markup(LinkHtml(slug, e.text))];
          }
        } else if e.Link? && e.cls == Some("external-link") {
          out := out[k := e.(target := Some("_blank"))];
        }
        k := k + 1;
      }
    }

    /**
     * The anchor pass of alterBody: every heading, in document order, gets
     * `id` = seg(text) and an anchor entry numbered from 0.
     */
    method HeadingElements(elems: seq<Element>) returns (out: seq<Element>, anchors: seq<Anchor>)
      ensures out == HeadingPass(elems, seg)
      ensures anchors == AnchorsOf(elems, seg)
    {
      out := elems;
      anchors := [];
      var k := 0;
      while k < |out|
        invariant 0 <= k <= |out| == |elems|
        invariant forall m :: 0 <= m < |out| ==> out[m] == if m < k then SetHeadingId(elems[m], seg) else elems[m]
        invariant anchors == AnchorsOf(elems[..k], seg)
      {
        AnchorsSnoc(elems, k, seg);
        var e := out[k];
        if e.Heading? {
          var anchorSlug := seg(e.text);
          out := out[k := e.(id := Some(anchorSlug))];
          anchors := anchors + [Anchor(e.text, anchorSlug, |anchors|, e.tag)];
        }
        k := k + 1;
      }
      assert elems[..k] == elems;
    }

    /**
     * The image pass of alterBody: a media image with an attachment of the
     * same id in `atts` is replaced by an image of the attachment's path; an
     * emoji image gets the base URL in front of its source. Setting the
     * source on an image already replaced changes nothing in the document.
     */
    method ImageElements(elems: seq<Element>, atts: seq<Attachment>) returns (out: seq<Element>)
      ensures out == ImagePass(elems, atts, config.baseUrl)
    {
      out := elems;
      var k := 0;
      while k < |out|
        invariant 0 <= k <= |out| == |elems|
        invariant forall m :: 0 <= m < |out| ==> out[m] == if m < k then RewriteImage(elems[m], atts, config.baseUrl) else elems[m]
      {
        var img := out[k];
        if img.Image? {
          var inDocument := true;
          if img.mediaId.Some? {
            var a := FindAttachment(atts, img.mediaId.value);
            if a != -1 {
              out := out[k := Markup(ImageHtml(atts[a].path))];
              inDocument := false;
            }
          }
          if img.emoji {
            var path := if img.src.Some? then img.src.value else "undefined";
            img := img.(src := Some(config.baseUrl + path));
            if inDocument {
              out := out[k := img];
            }
          }
        }
        k := k + 1;
      }
    }

    /** alterBody on page `j` of space `i`: links, description, anchors, images, then the wrapping div. */
    method RewriteBody(i: int, j: int) returns (p: Page)
      requires 0 <= i < |spaces| && 0 <= j < |spaces[i].pages| && ParentsAcyclic(spaces)
      ensures p == RewritePage(spaces[i].pages[j], parse(spaces[i].pages[j].body), SlugsIn(spaces, spaces[i].key, seg),
                               spaces[i].attachments, config.baseUrl, seg, serialize)
    {
      var page := spaces[i].pages[j];
      var root := parse(page.body);
      root := LinkElements(i, root);
      var description := page.description;
      var first := FirstParagraph(root);
      if first.Some? && first.value != "" {
        description := Some(Take(first.value, DescriptionLength));
      }
      var anchors;
      root, anchors := HeadingElements(root);
      root := ImageElements(root, spaces[i].attachments);
      p := page.(description := description, anchor := Some(anchors), body := "<div>" + serialize(root) + "</div>");
    }

    /** alterBody: every page of every space rewritten in place, space by space, page by page. */
    method AlterBody()
      requires ParentsAcyclic(spaces)
      modifies this
      ensures spaces == Altered(old(spaces), parse, config.baseUrl, seg, serialize)
    {
      ghost var s0 := spaces;
      ghost var t := Altered(s0, parse, config.baseUrl, seg, serialize);
      MixEnds(s0, t);
      var i := 0;
      while i < |spaces|
        invariant 0 <= i <= |s0| && spaces == Mix(s0, t, i, 0)
      {
        AlterSpace(i, s0);
        MixNext(s0, t, i);
        i := i + 1;
      }
    }

    /** The rewritten bodies of the pages of space `i`, one page after the other, in a pass started from `s0`. */
    method AlterSpace(i: int, ghost s0: seq<Space>)
      requires ParentsAcyclic(s0) && 0 <= i < |s0|
      requires spaces == Mix(s0, Altered(s0, parse, config.baseUrl, seg, serialize), i, 0)
      modifies this
      ensures spaces == Mix(s0, Altered(s0, parse, config.baseUrl, seg, serialize), i, |s0[i].pages|)
    {
      ghost var t := Altered(s0, parse, config.baseUrl, seg, serialize);
      MixReshaped(s0, t, i, 0);
      var n := |spaces[i].pages|;
      var j := 0;
      while j < n
        invariant n == |s0[i].pages| && 0 <= j <= n && spaces == Mix(s0, t, i, j)
      {
        AlterReady(s0, parse, config.baseUrl, seg, serialize, i, j);
        var p := RewriteBody(i, j);
        AlterStep(s0, parse, config.baseUrl, seg, serialize, i, j, p);
        spaces := spaces[i := spaces[i].(pages := spaces[i].pages[j := p])];
        j := j + 1;
      }
    }

    /**
     * createDownloadLinks: list the attachments of every page, space by
     * space; draw a random name (`names(t)`, the `t`-th draw) for every
     * entry, and for an entry whose lower-cased extension names an image
     * push a record into the first space with the entry's key. Each entry is
     * handled by an `async` callback, so one naming no known space fails
     * alone (`ok` false) and the others are still pushed.
     */
    method CreateDownloadLinks(attachmentsOf: string -> seq<AttachmentInfo>, names: nat -> string) returns (ok: bool)
      modifies this
      ensures spaces == PushEachAttachment(old(spaces), Records(Candidates(PageIds(old(spaces)), attachmentsOf), names, extOf))
      ensures ok <==> AllAttachable(old(spaces), Records(Candidates(PageIds(old(spaces)), attachmentsOf), names, extOf))
    {
      ghost var s0 := spaces;
      var ids := CollectPageIds();
      ok := true;
      var t := 0;
      var a := 0;
      while a < |ids|
        invariant 0 <= a <= |ids| && t == |Candidates(ids[..a], attachmentsOf)|
        invariant spaces == PushEachAttachment(s0, Records(Candidates(ids[..a], attachmentsOf), names, extOf))
        invariant ok <==> AllAttachable(s0, Records(Candidates(ids[..a], attachmentsOf), names, extOf))
      {
        CandidatesNext(ids, a, attachmentsOf);
        t, ok := FileListing(ids[a], attachmentsOf, names, t, ok, s0, Candidates(ids[..a], attachmentsOf));
        a := a + 1;
      }
      assert ids[..a] == ids;
    }

    /** The callbacks of createDownloadLinks for the listing of page `id`, after those for `done`. */
    method FileListing(id: string, attachmentsOf: string -> seq<AttachmentInfo>, names: nat -> string, t0: nat, ok0: bool,
                       ghost s0: seq<Space>, ghost done: seq<Candidate>) returns (t: nat, ok: bool)
      requires t0 == |done|
      requires spaces == PushEachAttachment(s0, Records(done, names, extOf))
      requires ok0 <==> AllAttachable(s0, Records(done, names, extOf))
      modifies this
      ensures t == |done + ListingOf(id, attachmentsOf)|
      ensures spaces == PushEachAttachment(s0, Records(done + ListingOf(id, attachmentsOf), names, extOf))
      ensures ok <==> AllAttachable(s0, Records(done + ListingOf(id, attachmentsOf), names, extOf))
    {
      t, ok := t0, ok0;
      var listing := attachmentsOf(id);
      var contentId := ContentIdOf(id);
      ghost var cands := done;
      var b := 0;
      assert done + Tagged(listing[..0], contentId) == done;
      while b < |listing|
        invariant 0 <= b <= |listing| && t == |cands| && cands == done + Tagged(listing[..b], contentId)
        invariant spaces == PushEachAttachment(s0, Records(cands, names, extOf))
        invariant ok <==> AllAttachable(s0, Records(cands, names, extOf))
      {
        var c := Candidate(listing[b], contentId);
        var routed := FileEntry(c, names, t, s0, cands);
        ok := ok && routed;
        TaggedNext(done, listing, contentId, b);
        t, cands := t + 1, cands + [c];
        b := b + 1;
      }
      TakeAll(listing);
    }

    /**
     * One callback of createDownloadLinks: the candidate gets the next random
     * file name; an image is recorded in the first space with the entry's
     * space key, and `routed` is false when there is no such space.
     */
    method FileEntry(c: Candidate, names: nat -> string, t: nat, ghost s0: seq<Space>, ghost cands: seq<Candidate>)
      returns (routed: bool)
      requires t == |cands| && spaces == PushEachAttachment(s0, Records(cands, names, extOf))
      modifies this
      ensures spaces == PushEachAttachment(s0, Records(cands + [c], names, extOf))
      ensures AllAttachable(s0, Records(cands + [c], names, extOf)) <==> AllAttachable(s0, Records(cands, names, extOf)) && routed
    {
      FileStep(s0, cands, c, names, extOf);
      routed := true;
      var name := names(t);
      var ext := Lower(extOf(c.info.title));
      if IsImageExtension(ext) {
        AcceptedExtensionNotEmpty(ext);
        if ext != "" {
          var record := MakeRecord(c, name, extOf);
          var k := FindSpace(spaces, record.spaceKey);
          if k < 0 {
            routed := false;
          } else {
            spaces := spaces[k := spaces[k].(attachments := spaces[k].attachments + [record])];
          }
        }
      }
    }

    /** The work list of downloadAttachments: every record not yet downloaded, space by space, in order. */
    method CollectPending() returns (list: seq<Ref>)
      ensures IsPendingList(spaces, list)
    {
      list := [];
      var i := 0;
      while i < |spaces|
        invariant 0 <= i <= |spaces|
        invariant forall m :: 0 <= m < |list| ==> Pending(spaces, list[m]) && Before(list[m], Ref(i, 0))
        invariant forall a, b :: 0 <= a < b < |list| ==> Before(list[a], list[b])
        invariant forall r :: Pending(spaces, r) && Before(r, Ref(i, 0)) ==> r in list
      {
        var atts := spaces[i].attachments;
        var k := 0;
        while k < |atts|
          invariant 0 <= k <= |atts|
          invariant forall m :: 0 <= m < |list| ==> Pending(spaces, list[m]) && Before(list[m], Ref(i, k))
          invariant forall a, b :: 0 <= a < b < |list| ==> Before(list[a], list[b])
          invariant forall r :: Pending(spaces, r) && Before(r, Ref(i, k)) ==> r in list
        {
          if !atts[k].downloaded {
            list := list + [Ref(i, k)];
          }
          k := k + 1;
        }
        i := i + 1;
      }
      forall r | r in PendingSet(spaces) ensures r in list {
        PendingSetMeaning(spaces, r);
      }
    }

    /**
     * One batch of downloadAttachments: a request for each of the first
     * hundred entries of the list (all still pending), then, answer by
     * answer, the first entry whose download URL is the answered request's
     * is marked downloaded. `fetch(batch, url)` says whether the request
     * for `url` in batch `batch` answered.
     */
    method DownloadBatch(list: seq<Ref>, batch: nat, fetch: (nat, string) -> bool) returns (sent: nat)
      requires IsPendingList(spaces, list)
      modifies this
      ensures sent == BatchSize(|list|)
      ensures MarkedFrom(old(spaces), spaces, Marks(old(spaces), list, batch, fetch))
    {
      ghost var s0 := spaces;
      var urls := BatchUrls(list);
      sent := |urls|;
      MarkedFromNone(s0);
      var n := 0;
      while n < |urls|
        invariant 0 <= n <= |urls| <= |list|
        invariant forall m :: 0 <= m < |urls| ==> urls[m] == DownloadUrl(LinkAt(s0, list, m))
        invariant MarkedFrom(s0, spaces, MarksUpTo(s0, list, batch, fetch, n))
      {
        Answer(list, batch, fetch, n, urls[n], s0);
        n := n + 1;
      }
    }

    /** One answer of a batch: a request that succeeds marks the first record listed with its URL. */
    method Answer(list: seq<Ref>, batch: nat, fetch: (nat, string) -> bool, n: nat, url: string, ghost s0: seq<Space>)
      requires IsPendingList(s0, list) && n < |list|
      requires url == DownloadUrl(LinkAt(s0, list, n))
      requires MarkedFrom(s0, spaces, MarksUpTo(s0, list, batch, fetch, n))
      modifies this
      ensures MarkedFrom(s0, spaces, MarksUpTo(s0, list, batch, fetch, n + 1))
    {
      MarkAnswer(s0, spaces, list, batch, fetch, n);
      if fetch(batch, url) {
        var r := list[FirstWithUrl(spaces, list, url)];
        var atts := spaces[r.space].attachments;
        spaces := spaces[r.space := spaces[r.space].(attachments := atts[r.index := atts[r.index].(downloaded := true)])];
      }
    }

    /** The request URLs of one batch: the first hundred entries of the work list, at most. */
    method BatchUrls(list: seq<Ref>) returns (urls: seq<string>)
      requires IsPendingList(spaces, list)
      ensures |urls| == BatchSize(|list|)
      ensures forall m :: 0 <= m < |urls| ==> urls[m] == DownloadUrl(LinkAt(spaces, list, m))
    {
      urls := [];
      var count := 0;
      var going := true;
      while count < |list| && going
        invariant 0 <= count <= |list| && count <= 100 && (going <==> count < 100)
        invariant |urls| == count
        invariant forall m :: 0 <= m < count ==> urls[m] == DownloadUrl(LinkAt(spaces, list, m))
      {
        var entry := At(spaces, list[count]);
        count := count + 1;
        if !entry.downloaded {
          urls := urls + [DownloadUrl(entry.downloadLink)];
        }
        going := count != 100;
      }
    }

    /**
     * downloadAttachments: batch after batch, download the records still
     * pending until none is. The loop ends because, from batch `settle` on,
     * every request answers.
     */
    method DownloadAttachments(fetch: (nat, string) -> bool, ghost settle: nat) returns (requests: nat)
      requires forall b: nat, url: string :: b >= settle ==> fetch(b, url)
      modifies this
      ensures OnlyDownloads(old(spaces), spaces)
      ensures PendingSet(spaces) == {}
      ensures requests == 0 <==> PendingSet(old(spaces)) == {}
    {
      ghost var s0 := spaces;
      var list := CollectPending();
      var batch: nat := 1;
      requests := 0;
      while |list| != 0
        invariant IsPendingList(spaces, list) && OnlyDownloads(s0, spaces) && batch >= 1
        invariant batch == 1 ==> spaces == s0 && requests == 0
        invariant batch > 1 ==> requests > 0 && PendingSet(s0) != {}
        decreases if batch < settle then settle - batch else 0, PendingSet(spaces)
      {
        ghost var before := spaces;
        PendingListSet(spaces, list);
        assert list[0] in PendingSet(spaces);
        var sent := DownloadBatch(list, batch, fetch);
        requests := requests + sent;
        MarkedOnlyDownloads(before, spaces, Marks(before, list, batch, fetch));
        OnlyDownloadsTrans(s0, before, spaces);
        PendingShrinks(before, spaces);
        if batch >= settle {
          FirstAnswerProgress(before, list, batch, fetch, spaces);
        }
        list := CollectPending();
        batch := batch + 1;
      }
      PendingListSet(spaces, list);
      if batch == 1 {
        assert PendingSet(s0) == {};
      }
    }

    /**
     * createNodes: every page of every space, in order, is added to the Child
     * collection when it has a parent id, else to Home when it is a
     * homepage, else to Parent.
     */
    method CreateNodes(store: Store)
      requires store.homeName == TypeName(config, "Home") && store.parentName == TypeName(config, "Parent")
      requires store.childName == TypeName(config, "Child")
      modifies store
      ensures store.home == old(store.home) + OfKind(AllPages(spaces), HomeKind)
      ensures store.parent == old(store.parent) + OfKind(AllPages(spaces), ParentKind)
      ensures store.child == old(store.child) + OfKind(AllPages(spaces), ChildKind)
    {
      CollectionNamesDistinct(config);
      AddSpaces(store);
    }

    /** The loop of createNodes over the spaces, once the three collections are known apart. */
    method AddSpaces(store: Store)
      requires store.homeName != store.parentName && store.homeName != store.childName
      requires store.parentName != store.childName
      modifies store
      ensures store.home == old(store.home) + OfKind(AllPages(spaces), HomeKind)
      ensures store.parent == old(store.parent) + OfKind(AllPages(spaces), ParentKind)
      ensures store.child == old(store.child) + OfKind(AllPages(spaces), ChildKind)
    {
      var i := 0;
      while i < |spaces|
        invariant 0 <= i <= |spaces|
        invariant store.home == old(store.home) + OfKind(AllPages(spaces[..i]), HomeKind)
        invariant store.parent == old(store.parent) + OfKind(AllPages(spaces[..i]), ParentKind)
        invariant store.child == old(store.child) + OfKind(AllPages(spaces[..i]), ChildKind)
      {
        OfKindNextSpace(old(store.home), spaces, i, HomeKind);
        OfKindNextSpace(old(store.parent), spaces, i, ParentKind);
        OfKindNextSpace(old(store.child), spaces, i, ChildKind);
        AddPages(store, spaces[i].pages);
        i := i + 1;
      }
      assert spaces[..i] == spaces;
    }

    /** The nodes createNodes adds for the pages of one space. */
    method AddPages(store: Store, pages: seq<Page>)
      requires store.homeName != store.parentName && store.homeName != store.childName
      requires store.parentName != store.childName
      modifies store
      ensures store.home == old(store.home) + OfKind(pages, HomeKind)
      ensures store.parent == old(store.parent) + OfKind(pages, ParentKind)
      ensures store.child == old(store.child) + OfKind(pages, ChildKind)
    {
      var j := 0;
      while j < |pages|
        invariant 0 <= j <= |pages|
        invariant store.home == old(store.home) + OfKind(pages[..j], HomeKind)
        invariant store.parent == old(store.parent) + OfKind(pages[..j], ParentKind)
        invariant store.child == old(store.child) + OfKind(pages[..j], ChildKind)
      {
        var page := pages[j];
        OfKindNextPage(old(store.home), pages, j, HomeKind);
        OfKindNextPage(old(store.parent), pages, j, ParentKind);
        OfKindNextPage(old(store.child), pages, j, ChildKind);
        if Truthy(page.parentPage) {
          store.AddNode(store.childName, page);
        } else if page.homepage {
          store.AddNode(store.homeName, page);
        } else {
          store.AddNode(store.parentName, page);
        }
        j := j + 1;
      }
      assert pages[..j] == pages;
    }
  }
}
