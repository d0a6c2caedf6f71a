/**
 * Lookups in the list of spaces and the two ways the crawl grows it: pushing a
 * page, and pushing an attachment, into the space whose key a response names.
 */
module Graph {
  import opened Types

  /** `spaces.findIndex(space => space.key === key)`. */
  function FindSpace(spaces: seq<Space>, key: string): (i: int)
    ensures -1 <= i < |spaces|
    ensures 0 <= i ==> spaces[i].key == key
    ensures forall j :: 0 <= j < |spaces| && (i < 0 || j < i) ==> spaces[j].key != key
  {
    if spaces == [] then -1
    else if spaces[0].key == key then 0
    else
      var r := FindSpace(spaces[1..], key);
      if r < 0 then -1 else r + 1
  }

  /** Two lists of spaces with the same keys at the same positions. */
  predicate SameKeys(s: seq<Space>, t: seq<Space>)
  {
    |s| == |t| && forall i :: 0 <= i < |s| ==> s[i].key == t[i].key
  }

  lemma SameKeysFind(s: seq<Space>, t: seq<Space>, key: string)
    requires SameKeys(s, t)
    ensures FindSpace(s, key) == FindSpace(t, key)
  {
    var a, b := FindSpace(s, key), FindSpace(t, key);
    if a >= 0 && b >= 0 {
      assert !(a < b) && !(b < a);
    }
  }

  /** `pages.find(page => page.id === id)` succeeds. */
  predicate HasId(pages: seq<Page>, id: string)
  {
    exists j | 0 <= j < |pages| :: pages[j].id == id
  }

  /**
   * `attachments.findIndex(att => att.id === id)`. It is the same first-index
   * search as FindSpace, kept per record type so each lookup's quantifiers stay local.
   */
  function FindAttachment(atts: seq<Attachment>, id: string): (k: int)
    ensures -1 <= k < |atts|
    ensures 0 <= k ==> atts[k].id == id
    ensures forall j :: 0 <= j < |atts| && (k < 0 || j < k) ==> atts[j].id != id
  {
    if atts == [] then -1
    else if atts[0].id == id then 0
    else
      var r := FindAttachment(atts[1..], id);
      if r < 0 then -1 else r + 1
  }

  /** The ids of a page list, in order. */
  function IdsOf(pages: seq<Page>): (ids: seq<string>)
    ensures |ids| == |pages|
    ensures forall j :: 0 <= j < |pages| ==> ids[j] == pages[j].id
  {
    seq(|pages|, j requires 0 <= j < |pages| => pages[j].id)
  }

  /** Every page id of every space, space by space, in page order. */
  function PageIds(spaces: seq<Space>): seq<string>
  {
    if spaces == [] then [] else PageIds(spaces[..|spaces| - 1]) + IdsOf(spaces[|spaces| - 1].pages)
  }

  /** An id is listed exactly when some page of some space carries it. */
  lemma {:induction false} PageIdsMembership(spaces: seq<Space>, id: string)
    ensures id in PageIds(spaces) <==>
            exists i, j :: 0 <= i < |spaces| && 0 <= j < |spaces[i].pages| && spaces[i].pages[j].id == id
  {
    if spaces != [] {
      var n := |spaces| - 1;
      PageIdsMembership(spaces[..n], id);
      IdsOfMembership(spaces[n].pages, id);
      assert id in PageIds(spaces) <==> id in PageIds(spaces[..n]) || id in IdsOf(spaces[n].pages);
      if exists i, j :: 0 <= i < |spaces| && 0 <= j < |spaces[i].pages| && spaces[i].pages[j].id == id {
        var i, j :| 0 <= i < |spaces| && 0 <= j < |spaces[i].pages| && spaces[i].pages[j].id == id;
        if i < n {
          assert spaces[..n][i] == spaces[i];
        }
      }
    }
  }

  lemma IdsOfMembership(pages: seq<Page>, id: string)
    ensures id in IdsOf(pages) <==> exists j :: 0 <= j < |pages| && pages[j].id == id
  {
    if id in IdsOf(pages) {
      var j :| 0 <= j < |pages| && IdsOf(pages)[j] == id;
    }
  }

  /** Append `p` to the space its `space` key names; `None` when no space has that key (the source throws). */
  function PushPage(spaces: seq<Space>, p: Page): (r: Option<seq<Space>>)
    ensures r.None? <==> FindSpace(spaces, p.space) < 0
    ensures r.Some? ==> SameKeys(spaces, r.value)
  {
    var i := FindSpace(spaces, p.space);
    if i < 0 then None
    else Some(spaces[i := spaces[i].(pages := spaces[i].pages + [p])])
  }

  /** Push the pages one after the other, stopping at the first that names no known space. */
  function PushAll(spaces: seq<Space>, ps: seq<Page>): (r: Option<seq<Space>>)
    ensures r.Some? ==> |r.value| == |spaces|
  {
    if ps == [] then Some(spaces)
    else
      match PushAll(spaces, ps[..|ps| - 1])
      case None => None
      case Some(s) => PushPage(s, ps[|ps| - 1])
  }

  /** The pages of `ps` that go to space `i`, in order. */
  function RoutedTo(spaces: seq<Space>, ps: seq<Page>, i: int): seq<Page>
  {
    if ps == [] then []
    else RoutedTo(spaces, ps[..|ps| - 1], i) + (if FindSpace(spaces, ps[|ps| - 1].space) == i then [ps[|ps| - 1]] else [])
  }

  /** Every page of `ps` names a space of `spaces`. */
  predicate AllRouted(spaces: seq<Space>, ps: seq<Page>)
  {
    forall k :: 0 <= k < |ps| ==> FindSpace(spaces, ps[k].space) >= 0
  }

  /** Pushing a list of pages fails exactly when some page names no known space. */
  lemma {:induction false} PushAllFails(spaces: seq<Space>, ps: seq<Page>)
    ensures PushAll(spaces, ps).Some? <==> AllRouted(spaces, ps)
    ensures PushAll(spaces, ps).Some? ==> SameKeys(spaces, PushAll(spaces, ps).value)
  {
    if ps != [] {
      var n := |ps| - 1;
      PushAllFails(spaces, ps[..n]);
      AllRoutedLast(spaces, ps);
      if PushAll(spaces, ps[..n]).Some? {
        SameKeysFind(spaces, PushAll(spaces, ps[..n]).value, ps[n].space);
      }
    }
  }

  /** When pushing succeeds, each space has gained, at its end, the pages routed to it and nothing else. */
  lemma {:induction false} PushAllResult(spaces: seq<Space>, ps: seq<Page>, i: int)
    requires PushAll(spaces, ps).Some?
    requires 0 <= i < |spaces|
    ensures |PushAll(spaces, ps).value| == |spaces|
    ensures PushAll(spaces, ps).value[i] == spaces[i].(pages := spaces[i].pages + RoutedTo(spaces, ps, i))
  {
    PushAllFails(spaces, ps);
    if ps != [] {
      var n := |ps| - 1;
      PushAllFails(spaces, ps[..n]);
      PushAllResult(spaces, ps[..n], i);
      var s := PushAll(spaces, ps[..n]).value;
      SameKeysFind(spaces, s, ps[n].space);
      if FindSpace(spaces, ps[n].space) == i {
        assert spaces[i].pages + RoutedTo(spaces, ps, i)
            == spaces[i].pages + RoutedTo(spaces, ps[..n], i) + [ps[n]];
      }
    }
  }

  /**
   * Push the pages one after the other from inside `async` callbacks: a page
   * naming no known space makes only its own callback fail, so it is skipped
   * and the others are still pushed.
   */
  function PushEach(spaces: seq<Space>, ps: seq<Page>): (r: seq<Space>)
    ensures SameKeys(spaces, r)
  {
    if ps == [] then spaces
    else
      var s := PushEach(spaces, ps[..|ps| - 1]);
      match PushPage(s, ps[|ps| - 1])
      case None => s
      case Some(t) => t
  }

  /** Each space gains, at its end, the pages routed to it; pages naming no space are dropped. */
  lemma {:induction false} PushEachResult(spaces: seq<Space>, ps: seq<Page>, i: int)
    requires 0 <= i < |spaces|
    ensures |PushEach(spaces, ps)| == |spaces|
    ensures PushEach(spaces, ps)[i] == spaces[i].(pages := spaces[i].pages + RoutedTo(spaces, ps, i))
  {
    if ps != [] {
      var n := |ps| - 1;
      PushEachResult(spaces, ps[..n], i);
      var s := PushEach(spaces, ps[..n]);
      SameKeysFind(spaces, s, ps[n].space);
      if FindSpace(spaces, ps[n].space) == i {
        assert spaces[i].pages + RoutedTo(spaces, ps, i)
            == spaces[i].pages + RoutedTo(spaces, ps[..n], i) + [ps[n]];
      }
    }
  }

  lemma AllRoutedLast(spaces: seq<Space>, ps: seq<Page>)
    requires ps != []
    ensures AllRouted(spaces, ps) <==> AllRouted(spaces, ps[..|ps| - 1]) && FindSpace(spaces, ps[|ps| - 1].space) >= 0
  {
    assert forall k :: 0 <= k < |ps| - 1 ==> ps[..|ps| - 1][k] == ps[k];
  }

  lemma AllRoutedSnoc(spaces: seq<Space>, ps: seq<Page>, p: Page)
    ensures AllRouted(spaces, ps + [p]) <==> AllRouted(spaces, ps) && FindSpace(spaces, p.space) >= 0
  {
    assert forall k :: 0 <= k < |ps| ==> (ps + [p])[k] == ps[k];
    assert (ps + [p])[|ps|] == p;
  }

  lemma AllRoutedAppend(spaces: seq<Space>, a: seq<Page>, b: seq<Page>)
    ensures AllRouted(spaces, a + b) <==> AllRouted(spaces, a) && AllRouted(spaces, b)
  {
    assert forall k :: 0 <= k < |a| ==> (a + b)[k] == a[k];
    assert forall k :: 0 <= k < |b| ==> (a + b)[|a| + k] == b[k];
  }

  lemma PushAllSnoc(spaces: seq<Space>, ps: seq<Page>, p: Page)
    ensures PushAll(spaces, ps + [p]) == if PushAll(spaces, ps).Some? then PushPage(PushAll(spaces, ps).value, p) else None
  {
    assert (ps + [p])[..|ps|] == ps;
  }

  lemma PushEachSnoc(spaces: seq<Space>, ps: seq<Page>, p: Page)
    ensures PushEach(spaces, ps + [p]) == match PushPage(PushEach(spaces, ps), p) case None => PushEach(spaces, ps) case Some(t) => t
  {
    assert (ps + [p])[..|ps|] == ps;
  }

  /** Append an attachment record to the space named by its `spaceKey`; `None` when there is none. */
  function PushAttachment(spaces: seq<Space>, a: Attachment): (r: Option<seq<Space>>)
    ensures r.None? <==> FindSpace(spaces, a.spaceKey) < 0
    ensures r.Some? ==> SameKeys(spaces, r.value)
  {
    var i := FindSpace(spaces, a.spaceKey);
    if i < 0 then None
    else Some(spaces[i := spaces[i].(attachments := spaces[i].attachments + [a])])
  }

  /** Push the records one after the other from inside `async` callbacks: a record naming no known space is skipped. */
  function PushEachAttachment(spaces: seq<Space>, as_: seq<Attachment>): (r: seq<Space>)
    ensures SameKeys(spaces, r)
  {
    if as_ == [] then spaces
    else
      var s := PushEachAttachment(spaces, as_[..|as_| - 1]);
      match PushAttachment(s, as_[|as_| - 1])
      case None => s
      case Some(t) => t
  }

  lemma PushEachAttachmentSnoc(spaces: seq<Space>, as_: seq<Attachment>, a: Attachment)
    ensures PushEachAttachment(spaces, as_ + [a])
         == match PushAttachment(PushEachAttachment(spaces, as_), a) case None => PushEachAttachment(spaces, as_) case Some(t) => t
  {
    assert (as_ + [a])[..|as_|] == as_;
  }

  /** One more record: it is appended to the first space with its key, or dropped when there is none. */
  lemma PushOneAttachment(spaces: seq<Space>, as_: seq<Attachment>, a: Attachment)
    ensures var cur := PushEachAttachment(spaces, as_);
            var k := FindSpace(cur, a.spaceKey);
            PushEachAttachment(spaces, as_ + [a])
              == (if k < 0 then cur else cur[k := cur[k].(attachments := cur[k].attachments + [a])])
    ensures AllAttachable(spaces, as_ + [a])
        <==> AllAttachable(spaces, as_) && FindSpace(PushEachAttachment(spaces, as_), a.spaceKey) >= 0
  {
    PushEachAttachmentSnoc(spaces, as_, a);
    SameKeysFind(spaces, PushEachAttachment(spaces, as_), a.spaceKey);
    assert forall k :: 0 <= k < |as_| ==> (as_ + [a])[k] == as_[k];
  }

  /** The records of `as_` that go to space `i`, in order. */
  function AttachedTo(spaces: seq<Space>, as_: seq<Attachment>, i: int): seq<Attachment>
  {
    if as_ == [] then []
    else AttachedTo(spaces, as_[..|as_| - 1], i) + (if FindSpace(spaces, as_[|as_| - 1].spaceKey) == i then [as_[|as_| - 1]] else [])
  }

  /** Every record of `as_` names a space of `spaces`: no callback fails. */
  predicate AllAttachable(spaces: seq<Space>, as_: seq<Attachment>)
  {
    forall k :: 0 <= k < |as_| ==> FindSpace(spaces, as_[k].spaceKey) >= 0
  }

  /** Each space gains, at its end, the records routed to it; records naming no space are dropped. */
  lemma {:induction false} PushEachAttachmentResult(spaces: seq<Space>, as_: seq<Attachment>, i: int)
    requires 0 <= i < |spaces|
    ensures |PushEachAttachment(spaces, as_)| == |spaces|
    ensures PushEachAttachment(spaces, as_)[i]
         == spaces[i].(attachments := spaces[i].attachments + AttachedTo(spaces, as_, i))
  {
    if as_ != [] {
      var n := |as_| - 1;
      PushEachAttachmentResult(spaces, as_[..n], i);
      var s := PushEachAttachment(spaces, as_[..n]);
      SameKeysFind(spaces, s, as_[n].spaceKey);
      if FindSpace(spaces, as_[n].spaceKey) == i {
        assert spaces[i].attachments + AttachedTo(spaces, as_, i)
            == spaces[i].attachments + AttachedTo(spaces, as_[..n], i) + [as_[n]];
      }
    }
  }

  /** When every record names a known space, all of them are stored: the routed records add up to all records. */
  lemma {:induction false} AllAttachedSomewhere(spaces: seq<Space>, as_: seq<Attachment>, k: int)
    requires AllAttachable(spaces, as_) && 0 <= k < |as_|
    ensures as_[k] in AttachedTo(spaces, as_, FindSpace(spaces, as_[k].spaceKey))
  {
    var n := |as_| - 1;
    if k < n {
      assert as_[..n][k] == as_[k];
      AllAttachedSomewhere(spaces, as_[..n], k);
    }
  }
}
