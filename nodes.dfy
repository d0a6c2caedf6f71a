/**
 * Node creation (createNodes): each page goes to the Child, Home or Parent
 * collection.
 */
module Nodes {
  import opened Types
  import opened Slugs
  import opened Settings

  datatype Kind = HomeKind | ParentKind | ChildKind

  /** The collection a page belongs to: a truthy parent makes it a child, else the homepage flag decides. */
  function Classify(p: Page): (k: Kind)
    ensures k == ChildKind <==> HasParent(p)
    ensures k == HomeKind ==> p.homepage && !HasParent(p)
  {
    if HasParent(p) then ChildKind else if p.homepage then HomeKind else ParentKind
  }

  /** The name the kind is registered under, before the prefix. */
  function KindName(k: Kind): string
  {
    match k
    case HomeKind => "Home"
    case ParentKind => "Parent"
    case ChildKind => "Child"
  }

  /** The full collection name a page is added to. */
  function CollectionOf(c: Config, p: Page): string
  {
    TypeName(c, KindName(Classify(p)))
  }

  /** Every page of every space, space by space, in page order. */
  function AllPages(spaces: seq<Space>): seq<Page>
  {
    if spaces == [] then [] else AllPages(spaces[..|spaces| - 1]) + spaces[|spaces| - 1].pages
  }

  /** The pages of `ps` of one kind, in order. */
  function OfKind(ps: seq<Page>, k: Kind): seq<Page>
  {
    if ps == [] then [] else OfKind(ps[..|ps| - 1], k) + (if Classify(ps[|ps| - 1]) == k then [ps[|ps| - 1]] else [])
  }

  /** The three collections partition the pages: every page lands in exactly one, as often as it occurs. */
  lemma {:induction false} Partition(ps: seq<Page>)
    ensures multiset(OfKind(ps, HomeKind)) + multiset(OfKind(ps, ParentKind)) + multiset(OfKind(ps, ChildKind)) == multiset(ps)
  {
    if ps != [] {
      var n := |ps| - 1;
      var prev, last := ps[..n], ps[n];
      Partition(prev);
      MultisetLast(ps);
      var k := Classify(last);
      MultisetSnoc(OfKind(prev, k), last);
      PartitionStep(multiset(OfKind(prev, HomeKind)), multiset(OfKind(prev, ParentKind)), multiset(OfKind(prev, ChildKind)), multiset(prev), last, k);
    }
  }

  lemma MultisetLast(ps: seq<Page>)
    requires ps != []
    ensures multiset(ps) == multiset(ps[..|ps| - 1]) + multiset{ps[|ps| - 1]}
  {
    assert ps == ps[..|ps| - 1] + [ps[|ps| - 1]];
  }

  lemma PartitionStep(h: multiset<Page>, p: multiset<Page>, c: multiset<Page>, all: multiset<Page>, last: Page, k: Kind)
    requires h + p + c == all
    ensures (if k == HomeKind then h + multiset{last} else h) + (if k == ParentKind then p + multiset{last} else p)
      + (if k == ChildKind then c + multiset{last} else c) == all + multiset{last}
  {
  }

  lemma MultisetSnoc(ps: seq<Page>, p: Page)
    ensures multiset(ps + [p]) == multiset(ps) + multiset{p}
  {
  }

  /** A collection holds only pages of its kind. */
  lemma {:induction false} OfKindOnly(ps: seq<Page>, k: Kind)
    ensures forall p :: p in OfKind(ps, k) ==> p in ps && Classify(p) == k
  {
    if ps != [] {
      var n := |ps| - 1;
      OfKindOnly(ps[..n], k);
    }
  }

  /** Children are exactly the pages with a parent id; homepages and top-level pages have none. */
  lemma KindMeaning(p: Page)
    ensures Classify(p) == ChildKind <==> Truthy(p.parentPage)
    ensures Classify(p) == HomeKind <==> !Truthy(p.parentPage) && p.homepage
    ensures Classify(p) == ParentKind <==> !Truthy(p.parentPage) && !p.homepage
  {
  }

  /** A page goes to a collection whose name ends in its kind, and different kinds never share a collection. */
  lemma CollectionsApart(c: Config, p: Page, q: Page)
    ensures Classify(p) != Classify(q) ==> CollectionOf(c, p) != CollectionOf(c, q)
  {
    CollectionNamesDistinct(c);
  }

  /** A homepage pushed by getHomepage, a top-level page and a child page land in Home, Parent and Child. */
  lemma PushedPagesKinds(c: Content, parent: string)
    ensures Classify(HomePage(c)) == HomeKind
    ensures Classify(ParentPage(c)) == ParentKind
    ensures parent != "" ==> Classify(ChildPage(c, parent)) == ChildKind
    ensures parent == "" ==> Classify(ChildPage(c, parent)) == ParentKind
  {
  }

  lemma OfKindSnoc(ps: seq<Page>, p: Page, k: Kind)
    ensures OfKind(ps + [p], k) == OfKind(ps, k) + (if Classify(p) == k then [p] else [])
  {
    assert (ps + [p])[..|ps|] == ps;
  }

  lemma {:induction false} OfKindAppend(a: seq<Page>, b: seq<Page>)
    ensures forall k :: OfKind(a + b, k) == OfKind(a, k) + OfKind(b, k)
    decreases |b|
  {
    if b != [] {
      var n := |b| - 1;
      OfKindAppend(a, b[..n]);
      assert a + b == (a + b[..n]) + [b[n]];
      assert b == b[..n] + [b[n]];
      forall k ensures OfKind(a + b, k) == OfKind(a, k) + OfKind(b, k) {
        OfKindSnoc(a + b[..n], b[n], k);
        OfKindSnoc(b[..n], b[n], k);
      }
    } else {
      assert a + b == a;
    }
  }

  lemma AllPagesSnoc(spaces: seq<Space>, i: int)
    requires 0 <= i < |spaces|
    ensures AllPages(spaces[..i + 1]) == AllPages(spaces[..i]) + spaces[i].pages
  {
    assert spaces[..i + 1][..i] == spaces[..i];
  }

  /** A collection holding `pre` and the pages of kind `k` up to space i+1: those up to space i, then those of space i. */
  lemma OfKindNextSpace(pre: seq<Page>, spaces: seq<Space>, i: int, k: Kind)
    requires 0 <= i < |spaces|
    ensures pre + OfKind(AllPages(spaces[..i + 1]), k) == pre + OfKind(AllPages(spaces[..i]), k) + OfKind(spaces[i].pages, k)
  {
    AllPagesSnoc(spaces, i);
    OfKindAppend(AllPages(spaces[..i]), spaces[i].pages);
  }

  /** A collection holding `pre` and the pages of kind `k` among `ps[..j+1]`: those among `ps[..j]`, then maybe `ps[j]`. */
  lemma OfKindNextPage(pre: seq<Page>, ps: seq<Page>, j: int, k: Kind)
    requires 0 <= j < |ps|
    ensures pre + OfKind(ps[..j + 1], k) == pre + OfKind(ps[..j], k) + (if Classify(ps[j]) == k then [ps[j]] else [])
  {
    assert ps[..j + 1][..j] == ps[..j];
  }

  /**
   * The site generator's store, reduced to the three collections the source
   * registers (Home, Parent and Child under the configured prefix) and the
   * nodes added to each, in order.
   */
  class Store {
    const homeName: string
    const parentName: string
    const childName: string
    var home: seq<Page>
    var parent: seq<Page>
    var child: seq<Page>

    /** The three `addCollection` calls of loadSource. */
    constructor (c: Config)
      ensures homeName == TypeName(c, "Home") && parentName == TypeName(c, "Parent") && childName == TypeName(c, "Child")
      ensures home == [] && parent == [] && child == []
    {
      homeName := TypeName(c, "Home");
      parentName := TypeName(c, "Parent");
      childName := TypeName(c, "Child");
      home, parent, child := [], [], [];
    }

    /** `getCollection(name).addNode(page)`: the page is appended to the collection registered under `name`. */
    method AddNode(name: string, page: Page)
      requires name == homeName || name == parentName || name == childName
      requires homeName != parentName && homeName != childName && parentName != childName
      modifies this
      ensures home == old(home) + (if name == homeName then [page] else [])
      ensures parent == old(parent) + (if name == parentName then [page] else [])
      ensures child == old(child) + (if name == childName then [page] else [])
    {
      if name == homeName {
        home := home + [page];
      } else if name == parentName {
        parent := parent + [page];
      } else {
        child := child + [page];
      }
    }
  }
}
