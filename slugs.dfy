/**
 * Slug derivation (createSlug): walk up the parent chain of a page, prepending
 * "/" + seg(title) for every page found by a unique id match. `seg` stands for
 * slugify with the plugin's fixed options, left uninterpreted.
 */
module Slugs {
  import opened Types

  /** `pages.filter(page => page.id == id).length`. */
  function CountId(pages: seq<Page>, id: string): (c: nat)
    ensures c <= |pages|
    ensures c == 0 <==> forall j :: 0 <= j < |pages| ==> pages[j].id != id
  {
    if pages == [] then 0 else (if pages[0].id == id then 1 else 0) + CountId(pages[1..], id)
  }

  /**
   * The index of the first page with that id, or -1. It is the same first-index
   * search as FindSpace, kept per record type so each lookup's quantifiers stay local.
   */
  function IndexOf(pages: seq<Page>, id: string): (k: int)
    ensures -1 <= k < |pages|
    ensures 0 <= k ==> pages[k].id == id
    ensures forall j :: 0 <= j < |pages| && (k < 0 || j < k) ==> pages[j].id != id
  {
    if pages == [] then -1
    else if pages[0].id == id then 0
    else
      var r := IndexOf(pages[1..], id);
      if r < 0 then -1 else r + 1
  }

  /** The page the walk uses for `id`: the only page with that id, or -1 on zero or several matches. */
  function Lookup(pages: seq<Page>, id: string): (k: int)
    ensures -1 <= k < |pages|
    ensures 0 <= k ==> pages[k].id == id && CountId(pages, id) == 1
    ensures k < 0 ==> CountId(pages, id) != 1
  {
    if CountId(pages, id) == 1 then IndexOf(pages, id) else -1
  }

  /** `if (page.parent_page)`: a parent id that JavaScript treats as true. */
  predicate HasParent(p: Page)
  {
    Truthy(p.parentPage)
  }

  /** The id the walk continues with after `id`, if any. */
  function Next(pages: seq<Page>, id: string): Option<string>
  {
    var k := Lookup(pages, id);
    if 0 <= k && HasParent(pages[k]) then Some(pages[k].parentPage.value) else None
  }

  /** The walk from `id` reaches a stop within `n` parent steps. */
  predicate RootWithin(pages: seq<Page>, id: string, n: nat)
    decreases n
  {
    match Next(pages, id)
    case None => true
    case Some(q) => n > 0 && RootWithin(pages, q, n - 1)
  }

  /** The walk from `id` stops: createSlug terminates on it. */
  ghost predicate ChainEnds(pages: seq<Page>, id: string)
  {
    exists n :: RootWithin(pages, id, n)
  }

  /** No parent chain of the space loops. */
  ghost predicate Acyclic(pages: seq<Page>)
  {
    forall id :: ChainEnds(pages, id)
  }

  /** The slug accumulated by a walk of at most `n` parent steps. */
  function SlugWithin(pages: seq<Page>, seg: string -> string, id: string, n: nat): string
    requires RootWithin(pages, id, n)
    decreases n
  {
    var k := Lookup(pages, id);
    if k < 0 then ""
    else (if HasParent(pages[k]) then SlugWithin(pages, seg, pages[k].parentPage.value, n - 1) else "")
         + ("/" + seg(pages[k].title))
  }

  /** The slug createSlug returns for `id`. */
  ghost function Slug(pages: seq<Page>, seg: string -> string, id: string): (r: string)
    requires ChainEnds(pages, id)
    ensures r == "" <==> CountId(pages, id) != 1
    ensures r != "" ==> r[0] == '/'
  {
    var n :| RootWithin(pages, id, n);
    SlugWithinShape(pages, seg, id, n);
    SlugWithin(pages, seg, id, n)
  }

  /** A walk yields nothing exactly when its first lookup misses; otherwise it starts with "/". */
  lemma {:induction false} SlugWithinShape(pages: seq<Page>, seg: string -> string, id: string, n: nat)
    requires RootWithin(pages, id, n)
    ensures SlugWithin(pages, seg, id, n) == "" <==> Lookup(pages, id) < 0
    ensures SlugWithin(pages, seg, id, n) != "" ==> SlugWithin(pages, seg, id, n)[0] == '/'
    decreases n
  {
    var k := Lookup(pages, id);
    if k >= 0 && HasParent(pages[k]) {
      SlugWithinShape(pages, seg, pages[k].parentPage.value, n - 1);
    }
  }

  lemma {:induction false} RootWithinMore(pages: seq<Page>, id: string, n: nat, m: nat)
    requires RootWithin(pages, id, n) && n <= m
    ensures RootWithin(pages, id, m)
    decreases n
  {
    if Next(pages, id).Some? {
      RootWithinMore(pages, Next(pages, id).value, n - 1, m - 1);
    }
  }

  /** However long the allowance, a walk that stops yields the same slug. */
  lemma {:induction false} SlugWithinAnyBound(pages: seq<Page>, seg: string -> string, id: string, n: nat, m: nat)
    requires RootWithin(pages, id, n) && RootWithin(pages, id, m)
    ensures SlugWithin(pages, seg, id, n) == SlugWithin(pages, seg, id, m)
    decreases n
  {
    var k := Lookup(pages, id);
    if 0 <= k && HasParent(pages[k]) {
      SlugWithinAnyBound(pages, seg, pages[k].parentPage.value, n - 1, m - 1);
    }
  }

  /** A bound on the walk from `id`, when it stops. */
  lemma {:induction false} ChainBound(pages: seq<Page>, id: string) returns (n: nat)
    requires ChainEnds(pages, id)
    ensures RootWithin(pages, id, n)
  {
    n :| RootWithin(pages, id, n);
  }

  lemma {:induction false} SlugWithinStep(pages: seq<Page>, seg: string -> string, id: string, n: nat)
    requires RootWithin(pages, id, n)
    requires 0 <= Lookup(pages, id) && HasParent(pages[Lookup(pages, id)])
    ensures n > 0
    ensures SlugWithin(pages, seg, id, n)
         == SlugWithin(pages, seg, pages[Lookup(pages, id)].parentPage.value, n - 1) + "/" + seg(pages[Lookup(pages, id)].title)
  {
  }

  /** One step of createSlug's walk: what is left to prepend, before and after the step. */
  lemma WalkStep(pages: seq<Page>, seg: string -> string, id: string, fuel: nat, slug: string)
    requires RootWithin(pages, id, fuel)
    ensures var k := Lookup(pages, id);
            if k < 0 then SlugWithin(pages, seg, id, fuel) + slug == slug
            else if HasParent(pages[k]) then
              fuel > 0 && RootWithin(pages, pages[k].parentPage.value, fuel - 1)
              && SlugWithin(pages, seg, id, fuel) + slug
                 == SlugWithin(pages, seg, pages[k].parentPage.value, fuel - 1) + ("/" + seg(pages[k].title) + slug)
            else SlugWithin(pages, seg, id, fuel) + slug == "/" + seg(pages[k].title) + slug
  {
    var k := Lookup(pages, id);
    if k >= 0 {
      var piece := "/" + seg(pages[k].title);
      if HasParent(pages[k]) {
        var w := SlugWithin(pages, seg, pages[k].parentPage.value, fuel - 1);
        assert SlugWithin(pages, seg, id, fuel) == w + piece;
        PrependPiece(w, piece, slug);
      } else {
        assert SlugWithin(pages, seg, id, fuel) == "" + piece;
        PrependPiece("", piece, slug);
      }
    }
  }

  lemma PrependPiece(w: string, piece: string, slug: string)
    ensures (w + piece) + slug == w + (piece + slug)
    ensures "" + piece == piece
  {
  }

  lemma {:induction false} SlugIs(pages: seq<Page>, seg: string -> string, id: string, n: nat)
    requires RootWithin(pages, id, n)
    ensures ChainEnds(pages, id)
    ensures Slug(pages, seg, id) == SlugWithin(pages, seg, id, n)
  {
    var m :| RootWithin(pages, id, m) && Slug(pages, seg, id) == SlugWithin(pages, seg, id, m);
    SlugWithinAnyBound(pages, seg, id, n, m);
  }

  /** A page whose id occurs once is the one the walk finds. */
  lemma {:induction false} LookupOfOnly(pages: seq<Page>, j: int)
    requires 0 <= j < |pages| && CountId(pages, pages[j].id) == 1
    ensures Lookup(pages, pages[j].id) == j
  {
    if j > 0 {
      var id := pages[j].id;
      assert pages[1..][j - 1] == pages[j];
      assert CountId(pages[1..], id) != 0;
      assert pages[0].id != id;
      LookupOfOnly(pages[1..], j - 1);
    }
  }

  /** An id matched by no page, or by several, stops the walk at once: the slug is empty. */
  lemma {:induction false} SlugOfMiss(pages: seq<Page>, seg: string -> string, id: string)
    requires CountId(pages, id) != 1
    ensures ChainEnds(pages, id)
    ensures Slug(pages, seg, id) == ""
  {
    SlugIs(pages, seg, id, 0);
  }

  /** A page found once and without a parent is a root: its slug is "/" + seg(title). */
  lemma {:induction false} SlugOfRoot(pages: seq<Page>, seg: string -> string, j: int)
    requires 0 <= j < |pages| && CountId(pages, pages[j].id) == 1
    requires !HasParent(pages[j])
    ensures ChainEnds(pages, pages[j].id)
    ensures Slug(pages, seg, pages[j].id) == "/" + seg(pages[j].title)
  {
    LookupOfOnly(pages, j);
    SlugIs(pages, seg, pages[j].id, 0);
  }

  /** A page found once with a parent: its slug is its parent's slug followed by "/" + seg(title). */
  lemma {:induction false} SlugOfChild(pages: seq<Page>, seg: string -> string, j: int)
    requires 0 <= j < |pages| && CountId(pages, pages[j].id) == 1
    requires HasParent(pages[j])
    requires ChainEnds(pages, pages[j].id)
    ensures ChainEnds(pages, pages[j].parentPage.value)
    ensures Slug(pages, seg, pages[j].id)
         == Slug(pages, seg, pages[j].parentPage.value) + "/" + seg(pages[j].title)
  {
    var id, parent := pages[j].id, pages[j].parentPage.value;
    var n := ChainBound(pages, id);
    LookupOfOnly(pages, j);
    assert Next(pages, id) == Some(parent);
    assert n > 0 && RootWithin(pages, parent, n - 1);
    SlugIs(pages, seg, id, n);
    SlugIs(pages, seg, parent, n - 1);
    SlugWithinStep(pages, seg, id, n);
    assert ChainEnds(pages, parent);
    assert Slug(pages, seg, id) == SlugWithin(pages, seg, id, n);
    assert Slug(pages, seg, parent) == SlugWithin(pages, seg, parent, n - 1);
    assert SlugWithin(pages, seg, id, n) == SlugWithin(pages, seg, parent, n - 1) + "/" + seg(pages[j].title);
  }

  /** When ids are unique, the only page with an id is the one at its position. */
  lemma {:induction false} UniqueLookup(pages: seq<Page>, j: int)
    requires 0 <= j < |pages|
    requires forall a, b :: 0 <= a < b < |pages| ==> pages[a].id != pages[b].id
    ensures CountId(pages, pages[j].id) == 1 && Lookup(pages, pages[j].id) == j
  {
    if j == 0 {
      assert forall b :: 0 <= b < |pages[1..]| ==> pages[1..][b].id != pages[0].id by {
        forall b | 0 <= b < |pages[1..]| ensures pages[1..][b].id != pages[0].id {
          assert pages[1..][b] == pages[b + 1];
        }
      }
    } else {
      UniqueLookup(pages[1..], j - 1);
      assert pages[1..][j - 1] == pages[j];
    }
  }

  /** Pages agreeing on ids, titles and parents: what the walk reads. */
  predicate SameSkeleton(p: seq<Page>, q: seq<Page>)
  {
    |p| == |q| &&
    forall j :: 0 <= j < |p| ==> p[j].id == q[j].id && p[j].title == q[j].title && p[j].parentPage == q[j].parentPage
  }

  lemma {:induction false} SkeletonLookup(p: seq<Page>, q: seq<Page>, id: string)
    requires SameSkeleton(p, q)
    ensures CountId(p, id) == CountId(q, id)
    ensures Lookup(p, id) == Lookup(q, id)
  {
    if p != [] {
      SkeletonLookup(p[1..], q[1..], id);
    }
  }

  lemma {:induction false} SkeletonWalk(p: seq<Page>, q: seq<Page>, seg: string -> string, id: string, n: nat)
    requires SameSkeleton(p, q)
    ensures RootWithin(p, id, n) == RootWithin(q, id, n)
    ensures RootWithin(p, id, n) ==> SlugWithin(p, seg, id, n) == SlugWithin(q, seg, id, n)
    decreases n
  {
    SkeletonLookup(p, q, id);
    var k := Lookup(p, id);
    if 0 <= k && HasParent(p[k]) && n > 0 {
      SkeletonWalk(p, q, seg, p[k].parentPage.value, n - 1);
    }
  }

  /**
   * The slug is recomputed from ids, titles and parents only: passes that
   * change bodies, descriptions, anchors or slugs leave every slug as it was.
   */
  lemma {:induction false} SkeletonSlug(p: seq<Page>, q: seq<Page>, seg: string -> string, id: string)
    requires SameSkeleton(p, q)
    requires ChainEnds(p, id)
    ensures ChainEnds(q, id)
    ensures Slug(p, seg, id) == Slug(q, seg, id)
  {
    var n :| RootWithin(p, id, n);
    SkeletonWalk(p, q, seg, id, n);
    SlugIs(p, seg, id, n);
    SlugIs(q, seg, id, n);
  }

  lemma {:induction false} SkeletonAcyclic(p: seq<Page>, q: seq<Page>)
    requires SameSkeleton(p, q)
    requires Acyclic(p)
    ensures Acyclic(q)
  {
    forall id ensures ChainEnds(q, id) {
      assert ChainEnds(p, id);
      var n :| RootWithin(p, id, n);
      SkeletonWalk(p, q, (s: string) => s, id, n);
    }
  }

  /** The skeleton of a page list: only ids, titles and parents kept, everything else blanked. */
  function Strip(pages: seq<Page>): (r: seq<Page>)
    ensures SameSkeleton(pages, r)
  {
    seq(|pages|, j requires 0 <= j < |pages| =>
      Page(pages[j].id, "", pages[j].title, "", None, None, false, None, pages[j].parentPage, [], 0))
  }

  /** Lists with the same skeleton have equal stripped forms. */
  lemma StripSkeleton(p: seq<Page>, q: seq<Page>)
    requires SameSkeleton(p, q)
    ensures Strip(p) == Strip(q)
  {
  }

  /** The slug of `id` when its walk stops, and "" otherwise (the walk does not return then). */
  ghost function SlugOr(pages: seq<Page>, seg: string -> string, id: string): string
  {
    if ChainEnds(pages, id) then Slug(pages, seg, id) else ""
  }

  /** Slugs read from the stripped list are the slugs of the list. */
  lemma SlugOfStrip(pages: seq<Page>, seg: string -> string, id: string)
    requires ChainEnds(pages, id)
    ensures SlugOr(Strip(pages), seg, id) == Slug(pages, seg, id)
  {
    SkeletonSlug(pages, Strip(pages), seg, id);
  }
}
