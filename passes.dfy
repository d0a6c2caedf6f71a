/**
 * The two passes that rewrite every page in place, setSlugs and alterBody,
 * as functions of the graph they start from. Both read the graph through
 * createSlug while they rewrite it; neither touches what createSlug reads
 * (ids, titles, parents), so every slug they use is the slug of the graph
 * they started from.
 */
module Passes {
  import opened Types
  import opened Graph
  import opened Slugs
  import opened Markup

  /** No space has a parent chain that loops: createSlug ends for every id of every space. */
  ghost predicate ParentsAcyclic(s: seq<Space>)
  {
    forall x :: 0 <= x < |s| ==> Acyclic(s[x].pages)
  }

  /** createSlug over a page skeleton, as a function of the id; "" where the walk would not stop. */
  ghost function SlugFor(skeleton: seq<Page>, seg: string -> string): string -> string
  {
    id => SlugOr(skeleton, seg, id)
  }

  /** createSlug(key, ·) over the graph `s`: the walk runs in the first space with that key. */
  ghost function SlugsIn(s: seq<Space>, key: string, seg: string -> string): string -> string
  {
    var k := FindSpace(s, key);
    if k < 0 then SlugFor([], seg) else SlugFor(Strip(s[k].pages), seg)
  }

  /** Over an acyclic space, SlugsIn is exactly the slug createSlug builds. */
  lemma SlugsInIsSlug(s: seq<Space>, key: string, seg: string -> string, id: string)
    requires FindSpace(s, key) >= 0 && Acyclic(s[FindSpace(s, key)].pages)
    ensures SlugsIn(s, key, seg)(id) == Slug(s[FindSpace(s, key)].pages, seg, id)
  {
    SlugOfStrip(s[FindSpace(s, key)].pages, seg, id);
  }

  /** `t` is `s` with every page replaced by one of the same id, title and parent, and nothing else changed. */
  predicate Reshaped(s: seq<Space>, t: seq<Space>)
  {
    |s| == |t|
    && forall x :: 0 <= x < |s| ==> t[x] == s[x].(pages := t[x].pages) && SameSkeleton(s[x].pages, t[x].pages)
  }

  /** The state of a page-by-page pass from `s` to `t`: spaces before `i` done, in space `i` the pages before `j`. */
  function Mix(s: seq<Space>, t: seq<Space>, i: int, j: int): (m: seq<Space>)
    requires Reshaped(s, t)
    ensures |m| == |s|
  {
    seq(|s|, x requires 0 <= x < |s| =>
      if x < i then t[x]
      else if x == i && 0 <= j <= |s[x].pages| then s[x].(pages := t[x].pages[..j] + s[x].pages[j..])
      else s[x])
  }

  /** Every intermediate state of such a pass reads the same to createSlug as the start. */
  lemma MixReshaped(s: seq<Space>, t: seq<Space>, i: int, j: int)
    requires Reshaped(s, t)
    ensures Reshaped(s, Mix(s, t, i, j)) && SameKeys(s, Mix(s, t, i, j))
  {
    var m := Mix(s, t, i, j);
    forall x | 0 <= x < |s| ensures m[x] == s[x].(pages := m[x].pages) && SameSkeleton(s[x].pages, m[x].pages) {
      if x == i && 0 <= j <= |s[x].pages| {
        forall y | 0 <= y < |s[x].pages|
          ensures m[x].pages[y].id == s[x].pages[y].id && m[x].pages[y].title == s[x].pages[y].title
                  && m[x].pages[y].parentPage == s[x].pages[y].parentPage
        {
          if y < j {
            assert m[x].pages[y] == t[x].pages[y];
          } else {
            assert m[x].pages[y] == s[x].pages[y];
          }
        }
      }
    }
  }

  /** The slugs read through any two reshaped graphs agree. */
  lemma ReshapedSlugs(s: seq<Space>, t: seq<Space>, key: string, seg: string -> string)
    requires Reshaped(s, t)
    ensures SlugsIn(t, key, seg) == SlugsIn(s, key, seg)
  {
    assert SameKeys(s, t);
    SameKeysFind(s, t, key);
    var k := FindSpace(s, key);
    if k >= 0 {
      StripSkeleton(s[k].pages, t[k].pages);
    }
  }

  /** Doing page `j` of space `i` moves the pass one page on. */
  lemma MixStep(s: seq<Space>, t: seq<Space>, i: int, j: int)
    requires Reshaped(s, t) && 0 <= i < |s| && 0 <= j < |s[i].pages|
    ensures Mix(s, t, i, j)[i].pages[j] == s[i].pages[j]
    ensures var m := Mix(s, t, i, j);
            m[i := m[i].(pages := m[i].pages[j := t[i].pages[j]])] == Mix(s, t, i, j + 1)
  {
    var m := Mix(s, t, i, j);
    var n := Mix(s, t, i, j + 1);
    assert m[i].pages == t[i].pages[..j] + s[i].pages[j..];
    assert m[i].pages[j] == s[i].pages[j];
    assert m[i].pages[j := t[i].pages[j]] == n[i].pages;
  }

  /** A space with all its pages done is a space done. */
  lemma MixNext(s: seq<Space>, t: seq<Space>, i: int)
    requires Reshaped(s, t) && 0 <= i < |s|
    ensures Mix(s, t, i, |s[i].pages|) == Mix(s, t, i + 1, 0)
  {
    var m, n := Mix(s, t, i, |s[i].pages|), Mix(s, t, i + 1, 0);
    forall x | 0 <= x < |s| ensures m[x] == n[x] {
      if x == i {
        assert m[i].pages == t[i].pages;
      } else if x == i + 1 {
        assert n[x].pages == s[x].pages;
      }
    }
  }

  /** A pass not yet started is the start; one past the last space is the end. */
  lemma MixEnds(s: seq<Space>, t: seq<Space>)
    requires Reshaped(s, t)
    ensures Mix(s, t, 0, 0) == s && Mix(s, t, |s|, 0) == t
  {
    var m := Mix(s, t, 0, 0);
    if |s| > 0 {
      assert m[0].pages == s[0].pages;
    }
  }

  /** Each page with its slug set to `slugOf` of its id. */
  function SlugPages(pages: seq<Page>, slugOf: string -> string): (r: seq<Page>)
    ensures SameSkeleton(pages, r)
  {
    seq(|pages|, j requires 0 <= j < |pages| => pages[j].(slug := Some(slugOf(pages[j].id))))
  }

  /** setSlugs: every page's slug is what createSlug returns for its id in its space's key. */
  ghost function Slugged(s: seq<Space>, seg: string -> string): (t: seq<Space>)
    ensures Reshaped(s, t)
  {
    seq(|s|, x requires 0 <= x < |s| => s[x].(pages := SlugPages(s[x].pages, SlugsIn(s, s[x].key, seg))))
  }

  /** After setSlugs each page's slug is the path of titles from its root down to it. */
  lemma SluggedPage(s: seq<Space>, seg: string -> string, x: int, y: int)
    requires 0 <= x < |s| && 0 <= y < |s[x].pages| && ParentsAcyclic(s)
    ensures FindSpace(s, s[x].key) >= 0
    ensures Slugged(s, seg)[x].pages[y]
         == s[x].pages[y].(slug := Some(Slug(s[FindSpace(s, s[x].key)].pages, seg, s[x].pages[y].id)))
  {
    SlugsInIsSlug(s, s[x].key, seg, s[x].pages[y].id);
  }

  /** Mid-way through setSlugs, createSlug can run on the page `j` of space `i`. */
  lemma SlugReady(s: seq<Space>, seg: string -> string, i: int, j: int)
    requires ParentsAcyclic(s) && 0 <= i < |s| && 0 <= j < |s[i].pages|
    ensures var m := Mix(s, Slugged(s, seg), i, j);
            |m[i].pages| == |s[i].pages| && FindSpace(m, m[i].key) >= 0
            && ChainEnds(m[FindSpace(m, m[i].key)].pages, m[i].pages[j].id)
  {
    var t := Slugged(s, seg);
    var m := Mix(s, t, i, j);
    MixReshaped(s, t, i, j);
    MixStep(s, t, i, j);
    var k := FindSpace(s, s[i].key);
    SameKeysFind(s, m, s[i].key);
    SkeletonAcyclic(s[k].pages, m[k].pages);
  }

  /** One page of setSlugs: the slug createSlug returns, set on page `j` of space `i`, moves the pass one page on. */
  lemma SlugStep(s: seq<Space>, seg: string -> string, i: int, j: int, slug: string)
    requires ParentsAcyclic(s) && 0 <= i < |s| && 0 <= j < |s[i].pages|
    requires var m := Mix(s, Slugged(s, seg), i, j);
             FindSpace(m, m[i].key) >= 0 && ChainEnds(m[FindSpace(m, m[i].key)].pages, m[i].pages[j].id)
             && slug == Slug(m[FindSpace(m, m[i].key)].pages, seg, m[i].pages[j].id)
    ensures var m := Mix(s, Slugged(s, seg), i, j);
            m[i := m[i].(pages := m[i].pages[j := m[i].pages[j].(slug := Some(slug))])] == Mix(s, Slugged(s, seg), i, j + 1)
  {
    var t := Slugged(s, seg);
    var m := Mix(s, t, i, j);
    MixReshaped(s, t, i, j);
    MixStep(s, t, i, j);
    var key, id := s[i].key, s[i].pages[j].id;
    SameKeysFind(s, m, key);
    var k := FindSpace(s, key);
    SkeletonSlug(s[k].pages, m[k].pages, seg, id);
    SlugsInIsSlug(s, key, seg, id);
    assert t[i].pages[j] == s[i].pages[j].(slug := Some(slug));
  }

  /** Running setSlugs a second time changes nothing. */
  lemma SluggedIdempotent(s: seq<Space>, seg: string -> string)
    ensures Slugged(Slugged(s, seg), seg) == Slugged(s, seg)
  {
    var t := Slugged(s, seg);
    var u := Slugged(t, seg);
    forall x | 0 <= x < |s| ensures u[x] == t[x] {
      ReshapedSlugs(s, t, t[x].key, seg);
      assert u[x].pages == t[x].pages;
    }
  }

  /** Each page rewritten by alterBody, links resolved through `slugOf`. */
  function AlterPages(pages: seq<Page>, parse: string -> seq<Element>, slugOf: string -> string, atts: seq<Attachment>,
                      baseUrl: string, seg: string -> string, serialize: seq<Element> -> string): (r: seq<Page>)
    ensures SameSkeleton(pages, r)
  {
    var r := seq(|pages|, j requires 0 <= j < |pages| =>
      RewritePage(pages[j], parse(pages[j].body), slugOf, atts, baseUrl, seg, serialize));
    assert forall j :: 0 <= j < |pages| ==> r[j] == RewritePage(pages[j], parse(pages[j].body), slugOf, atts, baseUrl, seg, serialize);
    r
  }

  /** alterBody: every page of every space rewritten, links resolved in the page's own space key. */
  ghost function Altered(s: seq<Space>, parse: string -> seq<Element>, baseUrl: string, seg: string -> string,
                         serialize: seq<Element> -> string): (t: seq<Space>)
    ensures Reshaped(s, t)
  {
    seq(|s|, x requires 0 <= x < |s| =>
      s[x].(pages := AlterPages(s[x].pages, parse, SlugsIn(s, s[x].key, seg), s[x].attachments, baseUrl, seg, serialize)))
  }

  /** Mid-way through alterBody, the graph is as acyclic as at the start and the page `j` of space `i` is untouched. */
  lemma AlterReady(s: seq<Space>, parse: string -> seq<Element>, baseUrl: string, seg: string -> string,
                   serialize: seq<Element> -> string, i: int, j: int)
    requires ParentsAcyclic(s) && 0 <= i < |s| && 0 <= j < |s[i].pages|
    ensures var m := Mix(s, Altered(s, parse, baseUrl, seg, serialize), i, j);
            ParentsAcyclic(m) && |m[i].pages| == |s[i].pages|
  {
    var t := Altered(s, parse, baseUrl, seg, serialize);
    var m := Mix(s, t, i, j);
    MixReshaped(s, t, i, j);
    forall x | 0 <= x < |m| ensures Acyclic(m[x].pages) {
      SkeletonAcyclic(s[x].pages, m[x].pages);
    }
  }

  /** One page of alterBody: the page rewritten against the current graph moves the pass one page on. */
  lemma AlterStep(s: seq<Space>, parse: string -> seq<Element>, baseUrl: string, seg: string -> string,
                  serialize: seq<Element> -> string, i: int, j: int, p: Page)
    requires 0 <= i < |s| && 0 <= j < |s[i].pages|
    requires var m := Mix(s, Altered(s, parse, baseUrl, seg, serialize), i, j);
             p == RewritePage(m[i].pages[j], parse(m[i].pages[j].body), SlugsIn(m, m[i].key, seg), m[i].attachments,
                              baseUrl, seg, serialize)
    ensures var m := Mix(s, Altered(s, parse, baseUrl, seg, serialize), i, j);
            m[i := m[i].(pages := m[i].pages[j := p])] == Mix(s, Altered(s, parse, baseUrl, seg, serialize), i, j + 1)
  {
    var t := Altered(s, parse, baseUrl, seg, serialize);
    var m := Mix(s, t, i, j);
    MixReshaped(s, t, i, j);
    MixStep(s, t, i, j);
    ReshapedSlugs(s, m, s[i].key, seg);
    assert t[i].pages[j] == p;
  }

  /** alterBody changes no slug: createSlug over the rewritten graph answers as over the original. */
  lemma AlteredKeepsSlugs(s: seq<Space>, parse: string -> seq<Element>, baseUrl: string, seg: string -> string,
                          serialize: seq<Element> -> string, key: string)
    ensures SlugsIn(Altered(s, parse, baseUrl, seg, serialize), key, seg) == SlugsIn(s, key, seg)
  {
    ReshapedSlugs(s, Altered(s, parse, baseUrl, seg, serialize), key, seg);
  }

  /** setSlugs and alterBody commute: neither reads what the other writes. */
  lemma SlugsThenAlter(s: seq<Space>, parse: string -> seq<Element>, baseUrl: string, seg: string -> string,
                       serialize: seq<Element> -> string)
    ensures Altered(Slugged(s, seg), parse, baseUrl, seg, serialize) == Slugged(Altered(s, parse, baseUrl, seg, serialize), seg)
  {
    var a := Altered(s, parse, baseUrl, seg, serialize);
    var t := Slugged(s, seg);
    var l := Altered(t, parse, baseUrl, seg, serialize);
    var r := Slugged(a, seg);
    forall x | 0 <= x < |s| ensures l[x] == r[x] {
      var key := s[x].key;
      ReshapedSlugs(s, t, key, seg);
      ReshapedSlugs(s, a, key, seg);
      var slugOf := SlugsIn(s, key, seg);
      forall y | 0 <= y < |s[x].pages| ensures l[x].pages[y] == r[x].pages[y] {
        var p := s[x].pages[y];
        assert t[x].pages[y] == p.(slug := Some(slugOf(p.id)));
        assert a[x].pages[y] == RewritePage(p, parse(p.body), slugOf, s[x].attachments, baseUrl, seg, serialize);
      }
      assert l[x].pages == r[x].pages;
    }
  }
}
