/**
 * Page collection: homepages (getHomepage), their direct children
 * (getParentPages) and the breadth-first walk down the child pages
 * (getChildPages), stated over the list of spaces.
 */
module Crawl {
  import opened Types
  import opened Text
  import opened Graph
  import opened Slugs
  import opened Nodes
  import Attachments

  /** One homepage per space, read from the content endpoint for the space's homepage id, in space order. */
  function HomePages(spaces: seq<Space>, content: string -> Content): (hp: seq<Page>)
    ensures |hp| == |spaces|
    ensures forall i :: 0 <= i < |spaces| ==> hp[i] == HomePage(content(spaces[i].contentId))
  {
    if spaces == [] then []
    else HomePages(spaces[..|spaces| - 1], content) + [HomePage(content(spaces[|spaces| - 1].contentId))]
  }

  lemma HomePagesNext(spaces: seq<Space>, content: string -> Content, i: int)
    requires 0 <= i < |spaces|
    ensures HomePages(spaces[..i + 1], content) == HomePages(spaces[..i], content) + [HomePage(content(spaces[i].contentId))]
  {
    assert spaces[..i + 1][..i] == spaces[..i];
  }

  /**
   * One turn of the getHomepage loop: the next homepage goes to the first
   * space with its key, and when there is none the whole pass fails.
   */
  lemma HomeStep(requested: seq<Space>, content: string -> Content, i: int, s: seq<Space>)
    requires 0 <= i < |requested|
    requires PushAll(requested, HomePages(requested[..i], content)) == Some(s)
    ensures var page := HomePage(content(requested[i].contentId));
            var k := FindSpace(s, page.space);
            (k < 0 ==> PushAll(requested, HomePages(requested, content)).None?)
            && (k >= 0 ==> PushAll(requested, HomePages(requested[..i + 1], content))
                           == Some(s[k := s[k].(pages := s[k].pages + [page])]))
  {
    var page := HomePage(content(requested[i].contentId));
    HomePagesNext(requested, content, i);
    PushAllSnoc(requested, HomePages(requested[..i], content), page);
    if FindSpace(s, page.space) < 0 {
      PushAllFails(requested, HomePages(requested[..i], content));
      SameKeysFind(requested, s, page.space);
      PushAllFails(requested, HomePages(requested, content));
    }
  }

  /** The results of one child listing, as top-level pages. */
  function ParentsOf(rs: seq<Content>): (ps: seq<Page>)
    ensures |ps| == |rs|
    ensures forall k :: 0 <= k < |rs| ==> ps[k] == ParentPage(rs[k])
  {
    if rs == [] then [] else ParentsOf(rs[..|rs| - 1]) + [ParentPage(rs[|rs| - 1])]
  }

  /** The children of every homepage, space by space, as top-level pages. */
  function TopPages(spaces: seq<Space>, children: string -> seq<Content>): seq<Page>
  {
    if spaces == [] then []
    else TopPages(spaces[..|spaces| - 1], children) + ParentsOf(children(spaces[|spaces| - 1].contentId))
  }

  /** One more top-level page pushed, the next of the listing `rs`, after `done` and the earlier ones. */
  lemma ParentsStep(requested: seq<Space>, done: seq<Page>, seen: seq<Page>, rs: seq<Content>, j: int, s: seq<Space>)
    requires 0 <= j < |rs| && seen == ParentsOf(rs[..j]) && s == PushEach(requested, done + seen)
    ensures (match PushPage(s, ParentPage(rs[j])) case None => s case Some(t) => t)
         == PushEach(requested, done + (seen + [ParentPage(rs[j])]))
    ensures seen + [ParentPage(rs[j])] == ParentsOf(rs[..j + 1])
    ensures AllRouted(requested, seen + [ParentPage(rs[j])])
        <==> AllRouted(requested, seen) && FindSpace(s, ParentPage(rs[j]).space) >= 0
  {
    var page := ParentPage(rs[j]);
    assert rs[..j + 1][..j] == rs[..j];
    assert (done + seen) + [page] == done + (seen + [page]);
    PushEachSnoc(requested, done + seen, page);
    AllRoutedSnoc(requested, seen, page);
    SameKeysFind(requested, s, page.space);
  }

  /** The top-level pages of the first i+1 spaces: those of the first i, then the next listing. */
  lemma TopPagesStep(requested: seq<Space>, children: string -> seq<Content>, i: int)
    requires 0 <= i < |requested|
    ensures TopPages(requested[..i + 1], children) == TopPages(requested[..i], children) + ParentsOf(children(requested[i].contentId))
  {
    assert requested[..i + 1][..i] == requested[..i];
  }

  /** Pages pushed in an order where the k-th page goes to the k-th space reach exactly that space. */
  lemma {:induction false} RoutedOneEach(spaces: seq<Space>, ps: seq<Page>, i: int, m: int)
    requires |ps| == |spaces| && 0 <= m <= |ps|
    requires forall k :: 0 <= k < |ps| ==> FindSpace(spaces, ps[k].space) == k
    ensures RoutedTo(spaces, ps[..m], i) == if 0 <= i < m then [ps[i]] else []
  {
    if m > 0 {
      RoutedOneEach(spaces, ps, i, m - 1);
      assert ps[..m][..m - 1] == ps[..m - 1];
    }
  }

  /**
   * With distinct space keys and homepages that belong to the space that asked
   * for them, every space gains exactly its own homepage, at the end of its pages.
   */
  lemma HomepagesPlaced(spaces: seq<Space>, content: string -> Content, i: int)
    requires forall a, b :: 0 <= a < b < |spaces| ==> spaces[a].key != spaces[b].key
    requires forall k :: 0 <= k < |spaces| ==> content(spaces[k].contentId).spaceKey == spaces[k].key
    requires 0 <= i < |spaces|
    ensures PushAll(spaces, HomePages(spaces, content)).Some?
    ensures |PushAll(spaces, HomePages(spaces, content)).value| == |spaces|
    ensures PushAll(spaces, HomePages(spaces, content)).value[i]
         == spaces[i].(pages := spaces[i].pages + [HomePage(content(spaces[i].contentId))])
  {
    var hp := HomePages(spaces, content);
    forall k | 0 <= k < |hp| ensures FindSpace(spaces, hp[k].space) == k {
      var f := FindSpace(spaces, hp[k].space);
      assert spaces[k].key == hp[k].space;
      assert !(0 <= f < k);
    }
    PushAllFails(spaces, hp);
    PushAllResult(spaces, hp, i);
    RoutedOneEach(spaces, hp, i, |hp|);
    TakeAll(hp);
  }

  /** Pages pushed by getParentPages are top-level pages: neither homepages nor parented. */
  lemma {:induction false} TopPagesAreParents(spaces: seq<Space>, children: string -> seq<Content>)
    ensures forall p :: p in TopPages(spaces, children) ==> Classify(p) == ParentKind
  {
    if spaces != [] {
      TopPagesAreParents(spaces[..|spaces| - 1], children);
    }
  }

  // The child-page walk

  /** The request path for the children of page `id`. */
  function ChildPageUrl(id: string): string
  {
    Attachments.ContentPath + id + Attachments.ChildPagesPath
  }

  /** The parent id recorded for the children of page `q`: the digits of the request path. */
  function ParentIdFor(q: string): string
  {
    Digits(ChildPageUrl(q))
  }

  /** The recorded parent id is the digits of the parent's id, so a numeric id is kept exactly. */
  lemma NumericParentId(q: string)
    requires AllDigits(q)
    ensures ParentIdFor(q) == q
  {
    ParentIdIsDigits(q);
    DigitsOfAllDigits(q);
  }

  /** The fixed parts of the child-listing path hold no digit: the recorded parent id is the digits of `q`. */
  lemma ParentIdIsDigits(q: string)
    ensures ParentIdFor(q) == Digits(q)
  {
    Attachments.PathsHoldNoDigits();
    DigitsFramed(Attachments.ContentPath, q, Attachments.ChildPagesPath);
  }

  /** Every result `r` of `rs` names a known space that already holds a page with `r`'s id. */
  predicate AllPresent(s: seq<Space>, rs: seq<Content>)
  {
    forall r :: r in rs ==> FindSpace(s, r.spaceKey) >= 0 && HasId(s[FindSpace(s, r.spaceKey)].pages, r.id)
  }

  /** The walk is closed: every child of every page is already a page of the space it names. */
  ghost predicate Closed(s: seq<Space>, children: string -> seq<Content>)
  {
    forall i, j :: 0 <= i < |s| && 0 <= j < |s[i].pages| ==> AllPresent(s, children(s[i].pages[j].id))
  }

  /** Some child of some page names a space that is not in the list: the walk crashes on it. */
  ghost predicate HasStray(s: seq<Space>, children: string -> seq<Content>)
  {
    exists i, j, r :: 0 <= i < |s| && 0 <= j < |s[i].pages| && r in children(s[i].pages[j].id) && FindSpace(s, r.spaceKey) < 0
  }

  lemma ClosedNoStray(s: seq<Space>, children: string -> seq<Content>)
    requires Closed(s, children)
    ensures !HasStray(s, children)
  {
  }

  /** `s` is `s0` with pages appended at the end of some spaces and nothing else changed. */
  predicate Grows(s0: seq<Space>, s: seq<Space>)
  {
    |s| == |s0|
    && forall i :: 0 <= i < |s| ==>
         s[i].key == s0[i].key && s[i].contentId == s0[i].contentId && s[i].title == s0[i].title
         && s[i].attachments == s0[i].attachments && s0[i].pages <= s[i].pages
  }

  /** Every appended page has an id no earlier page of its space has. */
  predicate NewIdsFresh(s0: seq<Space>, s: seq<Space>)
    requires |s0| == |s|
  {
    forall i, b, a :: 0 <= i < |s| && |s0[i].pages| <= b < |s[i].pages| && 0 <= a < b ==> s[i].pages[a].id != s[i].pages[b].id
  }

  /** `p`, appended to space `i`, is a child page taken from the response for some requested page. */
  ghost predicate Answered(s0: seq<Space>, i: int, p: Page, requested: seq<string>, children: string -> seq<Content>)
  {
    exists q, r :: q in requested && r in children(q) && FindSpace(s0, r.spaceKey) == i && p == ChildPage(r, ParentIdFor(q))
  }

  /** Every appended page comes from a response for a requested page. */
  ghost predicate FromResponses(s0: seq<Space>, s: seq<Space>, requested: seq<string>, children: string -> seq<Content>)
    requires |s0| == |s|
  {
    forall i, b :: 0 <= i < |s| && |s0[i].pages| <= b < |s[i].pages| ==> Answered(s0, i, s[i].pages[b], requested, children)
  }

  /** What the walk does to the graph: growth by child pages with new ids taken from responses. */
  ghost predicate Extends(s0: seq<Space>, s: seq<Space>, requested: seq<string>, children: string -> seq<Content>)
  {
    Grows(s0, s) && NewIdsFresh(s0, s) && FromResponses(s0, s, requested, children)
  }

  /** Appending a page whose id is new to its space, taken from a response, keeps the walk's invariant. */
  lemma AppendExtends(s0: seq<Space>, s: seq<Space>, requested: seq<string>, children: string -> seq<Content>,
                      i: int, p: Page)
    requires Extends(s0, s, requested, children)
    requires 0 <= i < |s| && !HasId(s[i].pages, p.id)
    requires Answered(s0, i, p, requested, children)
    ensures Extends(s0, s[i := s[i].(pages := s[i].pages + [p])], requested, children)
  {
    var t := s[i := s[i].(pages := s[i].pages + [p])];
    forall k, b | 0 <= k < |t| && |s0[k].pages| <= b < |t[k].pages|
      ensures Answered(s0, k, t[k].pages[b], requested, children)
    {
      if k != i || b < |s[i].pages| {
        assert t[k].pages[b] == s[k].pages[b];
      }
    }
    forall k, b, a | 0 <= k < |t| && |s0[k].pages| <= b < |t[k].pages| && 0 <= a < b
      ensures t[k].pages[a].id != t[k].pages[b].id
    {
      if k == i && b == |s[i].pages| {
        assert t[k].pages[a] == s[i].pages[a];
      } else {
        assert t[k].pages[a] == s[k].pages[a] && t[k].pages[b] == s[k].pages[b];
      }
    }
  }

  /** A wider request list still accounts for every appended page. */
  lemma FromResponsesWiden(s0: seq<Space>, s: seq<Space>, req: seq<string>, wider: seq<string>, children: string -> seq<Content>)
    requires |s0| == |s| && FromResponses(s0, s, req, children)
    requires forall q :: q in req ==> q in wider
    ensures FromResponses(s0, s, wider, children)
  {
    forall i, b | 0 <= i < |s| && |s0[i].pages| <= b < |s[i].pages|
      ensures Answered(s0, i, s[i].pages[b], wider, children)
    {
      var q, r :| q in req && r in children(q) && FindSpace(s0, r.spaceKey) == i && s[i].pages[b] == ChildPage(r, ParentIdFor(q));
      assert q in wider;
    }
  }

  lemma ExtendsTrans(s0: seq<Space>, s1: seq<Space>, s2: seq<Space>, requested: seq<string>, children: string -> seq<Content>)
    requires Extends(s0, s1, requested, children) && Extends(s1, s2, requested, children)
    ensures Extends(s0, s2, requested, children)
  {
    forall i, b | 0 <= i < |s2| && |s0[i].pages| <= b < |s2[i].pages|
      ensures Answered(s0, i, s2[i].pages[b], requested, children)
    {
      if b < |s1[i].pages| {
        assert s2[i].pages[b] == s1[i].pages[b];
      } else {
        var q, r :| q in requested && r in children(q) && FindSpace(s1, r.spaceKey) == i
                    && s2[i].pages[b] == ChildPage(r, ParentIdFor(q));
        SameKeysFind(s0, s1, r.spaceKey);
      }
    }
    forall i, b, a | 0 <= i < |s2| && |s0[i].pages| <= b < |s2[i].pages| && 0 <= a < b
      ensures s2[i].pages[a].id != s2[i].pages[b].id
    {
      if b < |s1[i].pages| {
        assert s2[i].pages[a] == s1[i].pages[a] && s2[i].pages[b] == s1[i].pages[b];
      }
    }
  }

  /** Growing the graph keeps every result that was present, present. */
  lemma PresentStays(s: seq<Space>, t: seq<Space>, rs: seq<Content>)
    requires Grows(s, t) && AllPresent(s, rs)
    ensures AllPresent(t, rs)
  {
    forall r | r in rs ensures FindSpace(t, r.spaceKey) >= 0 && HasId(t[FindSpace(t, r.spaceKey)].pages, r.id) {
      SameKeysFind(s, t, r.spaceKey);
      var i := FindSpace(s, r.spaceKey);
      var j :| 0 <= j < |s[i].pages| && s[i].pages[j].id == r.id;
      assert t[i].pages[j] == s[i].pages[j];
    }
  }

  /** Every space index paired with every id of the universe: what the walk can ever hold. */
  function Pairs(n: nat, universe: set<string>): set<(int, string)>
  {
    set i, u | 0 <= i < n && u in universe :: (i, u)
  }

  /** The (space index, page id) pairs present in the graph. */
  function Present(s: seq<Space>): set<(int, string)>
  {
    set i, j | 0 <= i < |s| && 0 <= j < |s[i].pages| :: (i, s[i].pages[j].id)
  }

  /** Every page id of the graph is in the universe. */
  predicate IdsWithin(s: seq<Space>, universe: set<string>)
  {
    forall i, j :: 0 <= i < |s| && 0 <= j < |s[i].pages| ==> s[i].pages[j].id in universe
  }

  lemma PresentWithin(s: seq<Space>, universe: set<string>)
    requires IdsWithin(s, universe)
    ensures Present(s) <= Pairs(|s|, universe)
  {
  }

  /** Appending a page with a new id adds a pair: the measure of the walk goes down. */
  lemma PresentGrows(s0: seq<Space>, s: seq<Space>, i: int)
    requires Grows(s0, s) && NewIdsFresh(s0, s)
    requires 0 <= i < |s| && |s[i].pages| > |s0[i].pages|
    ensures Present(s0) < Present(s)
  {
    forall x | x in Present(s0) ensures x in Present(s) {
      var k, j :| 0 <= k < |s0| && 0 <= j < |s0[k].pages| && x == (k, s0[k].pages[j].id);
      assert s[k].pages[j] == s0[k].pages[j];
    }
    var b := |s0[i].pages|;
    var added := (i, s[i].pages[b].id);
    assert added in Present(s);
  }

  /** Unique ids per space before the walk stay unique after it. */
  lemma UniqueAfterWalk(s0: seq<Space>, s: seq<Space>, i: int)
    requires Grows(s0, s) && NewIdsFresh(s0, s) && 0 <= i < |s|
    requires forall a, b :: 0 <= a < b < |s0[i].pages| ==> s0[i].pages[a].id != s0[i].pages[b].id
    ensures forall a, b :: 0 <= a < b < |s[i].pages| ==> s[i].pages[a].id != s[i].pages[b].id
  {
    forall a, b | 0 <= a < b < |s[i].pages| ensures s[i].pages[a].id != s[i].pages[b].id {
      if b < |s0[i].pages| {
        assert s[i].pages[a] == s0[i].pages[a] && s[i].pages[b] == s0[i].pages[b];
      }
    }
  }

  /** `q` is the id of some page of the graph. */
  ghost predicate IsPageId(s: seq<Space>, q: string)
  {
    exists i, j :: 0 <= i < |s| && 0 <= j < |s[i].pages| && s[i].pages[j].id == q
  }

  lemma IsPageIdGrows(s: seq<Space>, t: seq<Space>, q: string)
    requires Grows(s, t) && IsPageId(s, q)
    ensures IsPageId(t, q)
  {
    var i, j :| 0 <= i < |s| && 0 <= j < |s[i].pages| && s[i].pages[j].id == q;
    assert t[i].pages[j] == s[i].pages[j];
  }

  lemma IsPageIdListed(s: seq<Space>, q: string)
    requires IsPageId(s, q)
    ensures q in PageIds(s)
  {
    PageIdsMembership(s, q);
  }

  /** Every page appended since `s0` has its id in `next`. */
  predicate NewIdsIn(s0: seq<Space>, s: seq<Space>, next: seq<string>)
  {
    |s0| == |s| && forall i, b :: 0 <= i < |s| && |s0[i].pages| <= b < |s[i].pages| ==> s[i].pages[b].id in next
  }

  /** The invariant of one pass of the walk, `next` being the ids it has added. */
  ghost predicate PassInv(s0: seq<Space>, s: seq<Space>, requested: seq<string>, children: string -> seq<Content>,
                          universe: set<string>, next: seq<string>)
  {
    Extends(s0, s, requested, children) && IdsWithin(s, universe) && NewIdsIn(s0, s, next)
    && (forall x :: x in next ==> IsPageId(s, x))
    && (next == [] ==> s == s0)
    && (next != [] ==> Present(s0) < Present(s))
  }

  /** The universe holds every child of every page it holds. */
  ghost predicate ClosedUniverse(universe: set<string>, children: string -> seq<Content>)
  {
    forall q, r :: q in universe && r in children(q) ==> r.id in universe
  }

  lemma PassStart(s: seq<Space>, requested: seq<string>, children: string -> seq<Content>, universe: set<string>)
    requires IdsWithin(s, universe)
    ensures PassInv(s, s, requested, children, universe, [])
  {
  }

  /** Appending the child `r` of the requested page `q` to the space `k` it names keeps the pass invariant. */
  lemma AppendChild(s0: seq<Space>, s: seq<Space>, requested: seq<string>, children: string -> seq<Content>,
                    universe: set<string>, next: seq<string>, q: string, r: Content, k: int)
    requires PassInv(s0, s, requested, children, universe, next)
    requires ClosedUniverse(universe, children) && q in universe
    requires q in requested && r in children(q)
    requires k == FindSpace(s, r.spaceKey) && k >= 0 && !HasId(s[k].pages, r.id)
    ensures var t := s[k := s[k].(pages := s[k].pages + [ChildPage(r, ParentIdFor(q))])];
            PassInv(s0, t, requested, children, universe, next + [r.id])
  {
    var p := ChildPage(r, ParentIdFor(q));
    var t := s[k := s[k].(pages := s[k].pages + [p])];
    SameKeysFind(s0, s, r.spaceKey);
    AppendGrows(s, k, p);
    AppendExtends(s0, s, requested, children, k, p);
    AppendWithin(s, universe, k, p);
    AppendNewIds(s0, s, next, k, p);
    PresentGrows(s0, t, k);
  }

  /** After the append, the child's id is found in the space its key names. */
  lemma AppendFound(s: seq<Space>, r: Content, p: Page, k: int)
    requires k == FindSpace(s, r.spaceKey) && k >= 0 && p.id == r.id
    ensures var t := s[k := s[k].(pages := s[k].pages + [p])];
            Grows(s, t) && FindSpace(t, r.spaceKey) == k && HasId(t[k].pages, r.id)
  {
    var t := s[k := s[k].(pages := s[k].pages + [p])];
    AppendGrows(s, k, p);
    SameKeysFind(s, t, r.spaceKey);
    assert t[k].pages[|s[k].pages|] == p;
  }

  /** Appending a page to one space only grows the graph. */
  lemma AppendGrows(s: seq<Space>, k: int, p: Page)
    requires 0 <= k < |s|
    ensures Grows(s, s[k := s[k].(pages := s[k].pages + [p])])
  {
    var t := s[k := s[k].(pages := s[k].pages + [p])];
    forall i | 0 <= i < |t|
      ensures t[i].key == s[i].key && t[i].contentId == s[i].contentId && t[i].title == s[i].title
      ensures t[i].attachments == s[i].attachments && s[i].pages <= t[i].pages
    {
    }
  }

  lemma AppendWithin(s: seq<Space>, universe: set<string>, k: int, p: Page)
    requires IdsWithin(s, universe) && 0 <= k < |s| && p.id in universe
    ensures IdsWithin(s[k := s[k].(pages := s[k].pages + [p])], universe)
  {
    var t := s[k := s[k].(pages := s[k].pages + [p])];
    forall i, j | 0 <= i < |t| && 0 <= j < |t[i].pages| ensures t[i].pages[j].id in universe {
      if i != k || j < |s[k].pages| {
        assert t[i].pages[j] == s[i].pages[j];
      }
    }
  }

  lemma AppendNewIds(s0: seq<Space>, s: seq<Space>, next: seq<string>, k: int, p: Page)
    requires NewIdsIn(s0, s, next) && (forall x :: x in next ==> IsPageId(s, x))
    requires Grows(s0, s) && 0 <= k < |s|
    ensures var t := s[k := s[k].(pages := s[k].pages + [p])];
            NewIdsIn(s0, t, next + [p.id]) && (forall x :: x in next + [p.id] ==> IsPageId(t, x))
  {
    var t := s[k := s[k].(pages := s[k].pages + [p])];
    AppendGrows(s, k, p);
    forall x | x in next + [p.id] ensures IsPageId(t, x) {
      if x in next {
        IsPageIdGrows(s, t, x);
      } else {
        assert t[k].pages[|s[k].pages|] == p;
      }
    }
    forall i, b | 0 <= i < |t| && |s0[i].pages| <= b < |t[i].pages| ensures t[i].pages[b].id in next + [p.id] {
      if i != k || b < |s[k].pages| {
        assert t[i].pages[b] == s[i].pages[b];
      }
    }
  }

  /** Results already handled stay present as the graph grows. */
  lemma HandledStay(s: seq<Space>, t: seq<Space>, requested: seq<string>, children: string -> seq<Content>, a: int, rs: seq<Content>)
    requires Grows(s, t) && 0 <= a <= |requested|
    requires forall m :: 0 <= m < a ==> AllPresent(s, children(requested[m]))
    requires AllPresent(s, rs)
    ensures forall m :: 0 <= m < a ==> AllPresent(t, children(requested[m]))
    ensures AllPresent(t, rs)
  {
    forall m | 0 <= m < a ensures AllPresent(t, children(requested[m])) {
      PresentStays(s, t, children(requested[m]));
    }
    PresentStays(s, t, rs);
  }

  /**
   * One callback of a pass: child `rs[b]` of `requested[a]` is appended to the
   * space it names unless that space already holds its id; the pass invariant
   * and what is already present survive, and `rs[b]` is present afterwards.
   */
  lemma ChildStep(s0: seq<Space>, s: seq<Space>, requested: seq<string>, children: string -> seq<Content>,
                  universe: set<string>, next: seq<string>, a: int, rs: seq<Content>, b: int)
    requires 0 <= a < |requested| && rs == children(requested[a]) && 0 <= b < |rs|
    requires ClosedUniverse(universe, children) && requested[a] in universe
    requires PassInv(s0, s, requested, children, universe, next)
    requires forall m :: 0 <= m < a ==> AllPresent(s, children(requested[m]))
    requires AllPresent(s, rs[..b]) && FindSpace(s, rs[b].spaceKey) >= 0
    ensures var k := FindSpace(s, rs[b].spaceKey);
            var add := !HasId(s[k].pages, rs[b].id);
            var t := if add then s[k := s[k].(pages := s[k].pages + [ChildPage(rs[b], ParentIdFor(requested[a]))])] else s;
            PassInv(s0, t, requested, children, universe, if add then next + [rs[b].id] else next)
            && (forall m :: 0 <= m < a ==> AllPresent(t, children(requested[m])))
            && AllPresent(t, rs[..b + 1])
  {
    var q, r := requested[a], rs[b];
    var k := FindSpace(s, r.spaceKey);
    if !HasId(s[k].pages, r.id) {
      AppendChild(s0, s, requested, children, universe, next, q, r, k);
      AppendFound(s, r, ChildPage(r, ParentIdFor(q)), k);
      var t := s[k := s[k].(pages := s[k].pages + [ChildPage(r, ParentIdFor(q))])];
      HandledStay(s, t, requested, children, a, rs[..b]);
      AllPresentSnoc(t, rs, b);
    } else {
      AllPresentSnoc(s, rs, b);
    }
  }

  /** Once the whole listing of `requested[a]` is present, the first a+1 listings are. */
  lemma HandledNext(s: seq<Space>, requested: seq<string>, children: string -> seq<Content>, a: int, rs: seq<Content>)
    requires 0 <= a < |requested| && rs == children(requested[a])
    requires forall m :: 0 <= m < a ==> AllPresent(s, children(requested[m]))
    requires AllPresent(s, rs[..|rs|])
    ensures forall m :: 0 <= m < a + 1 ==> AllPresent(s, children(requested[m]))
  {
    assert rs[..|rs|] == rs;
  }

  lemma AllPresentSnoc(s: seq<Space>, rs: seq<Content>, b: int)
    requires 0 <= b < |rs| && AllPresent(s, rs[..b])
    requires FindSpace(s, rs[b].spaceKey) >= 0 && HasId(s[FindSpace(s, rs[b].spaceKey)].pages, rs[b].id)
    ensures AllPresent(s, rs[..b + 1])
  {
    assert rs[..b + 1] == rs[..b] + [rs[b]];
  }

  /** When a set of pairs grows inside the bound, what is left of the bound shrinks. */
  lemma MeasureDrops(bound: set<(int, string)>, a: set<(int, string)>, b: set<(int, string)>)
    requires a < b && b <= bound
    ensures bound - b < bound - a
  {
    var x :| x in b && x !in a;
    assert x in bound - a && x !in bound - b;
  }

  /** At the end of the walk the requested ids are page ids, so the responses are those for pages of the graph. */
  lemma Conclude(s0: seq<Space>, s: seq<Space>, requested: seq<string>, children: string -> seq<Content>)
    requires Extends(s0, s, requested, children)
    requires forall q :: q in requested ==> IsPageId(s, q)
    ensures Extends(s0, s, PageIds(s), children)
  {
    forall q | q in requested ensures q in PageIds(s) {
      IsPageIdListed(s, q);
    }
    FromResponsesWiden(s0, s, requested, PageIds(s), children);
  }

  /** The requested ids are page ids, so they are in the universe. */
  lemma WalkIds(s: seq<Space>, requested: seq<string>, universe: set<string>)
    requires IdsWithin(s, universe) && forall q :: q in requested ==> IsPageId(s, q)
    ensures forall q :: q in requested ==> q in universe
  {
    forall q | q in requested ensures q in universe {
      var i, j :| 0 <= i < |s| && 0 <= j < |s[i].pages| && s[i].pages[j].id == q;
    }
  }

  /**
   * One pass of the walk, from `before` to `s`, keeps the walk's invariant
   * and either adds a pair to the graph or adds nothing at all.
   */
  lemma WalkStepped(s0: seq<Space>, before: seq<Space>, s: seq<Space>, prev: seq<string>, requested: seq<string>,
                    children: string -> seq<Content>, universe: set<string>, next: seq<string>)
    requires Extends(s0, before, prev, children) && IdsWithin(before, universe)
    requires forall q :: q in prev ==> q in requested
    requires forall q :: q in requested ==> IsPageId(before, q)
    requires forall i, j :: 0 <= i < |before| && 0 <= j < |before[i].pages| ==> before[i].pages[j].id in requested
    requires PassInv(before, s, requested, children, universe, next)
    ensures Extends(s0, s, requested, children) && IdsWithin(s, universe)
    ensures forall q :: q in requested + next ==> IsPageId(s, q)
    ensures forall i, j :: 0 <= i < |s| && 0 <= j < |s[i].pages| ==> s[i].pages[j].id in requested + next
    ensures next == [] ==> s == before
    ensures next != [] ==> Pairs(|s0|, universe) - Present(s) < Pairs(|s0|, universe) - Present(before)
  {
    FromResponsesWiden(s0, before, prev, requested, children);
    ExtendsTrans(s0, before, s, requested, children);
    forall q | q in requested + next ensures IsPageId(s, q) {
      if q in requested {
        IsPageIdGrows(before, s, q);
      }
    }
    forall i, j | 0 <= i < |s| && 0 <= j < |s[i].pages| ensures s[i].pages[j].id in requested + next {
      if j < |before[i].pages| {
        assert s[i].pages[j] == before[i].pages[j];
      }
    }
    if next != [] {
      PresentWithin(s, universe);
      MeasureDrops(Pairs(|s0|, universe), Present(before), Present(s));
    }
  }

  /** A pass that threw met a result naming no known space, for a page of the graph. */
  lemma StrayFound(s: seq<Space>, requested: seq<string>, children: string -> seq<Content>)
    requires forall q :: q in requested ==> IsPageId(s, q)
    requires exists q, r :: q in requested && r in children(q) && FindSpace(s, r.spaceKey) < 0
    ensures HasStray(s, children)
  {
    var q, r :| q in requested && r in children(q) && FindSpace(s, r.spaceKey) < 0;
    var i, j :| 0 <= i < |s| && 0 <= j < |s[i].pages| && s[i].pages[j].id == q;
    assert r in children(s[i].pages[j].id);
  }

  /** A pass that added nothing, over requests covering every page, leaves the walk closed. */
  lemma WalkClosed(s: seq<Space>, requested: seq<string>, children: string -> seq<Content>)
    requires forall q :: q in requested ==> AllPresent(s, children(q))
    requires forall i, j :: 0 <= i < |s| && 0 <= j < |s[i].pages| ==> s[i].pages[j].id in requested
    ensures Closed(s, children)
  {
  }
}
