/**
 * Space discovery (getSpaces): either the spaces named by the comma-separated
 * `space_key` option, or every global space the site lists.
 */
module Spaces {
  import opened Types
  import opened Text

  /** One new space per requested key, in the order of the keys. */
  function FromKeys(keys: seq<string>, getSpace: string -> SpaceInfo): seq<Space>
  {
    seq(|keys|, i requires 0 <= i < |keys| => NewSpace(getSpace(keys[i])))
  }

  /** The global entries of the site's space listing, as new spaces, in listing order. */
  function GlobalSpaces(all: seq<SpaceInfo>): (r: seq<Space>)
    ensures |r| <= |all|
  {
    if all == [] then []
    else GlobalSpaces(all[..|all| - 1]) + (if all[|all| - 1].kind == Global then [NewSpace(all[|all| - 1])] else [])
  }

  /** The spaces getSpaces stores: a non-empty selector wins over the listing. */
  function SelectSpaces(selector: Option<string>, getSpace: string -> SpaceInfo, all: seq<SpaceInfo>): (r: seq<Space>)
    ensures Truthy(selector) ==> |r| == |Split(selector.value, ',')|
    ensures Truthy(selector) ==> forall i :: 0 <= i < |r| ==> r[i] == NewSpace(getSpace(Split(selector.value, ',')[i]))
    ensures !Truthy(selector) ==> |r| <= |all|
  {
    if Truthy(selector) then FromKeys(Split(selector.value, ','), getSpace) else GlobalSpaces(all)
  }

  /** Discovery starts every space with no pages and no attachments. */
  lemma {:induction false} GlobalSpacesEmpty(all: seq<SpaceInfo>)
    ensures forall s :: s in GlobalSpaces(all) ==> s.pages == [] && s.attachments == []
  {
    if all != [] {
      GlobalSpacesEmpty(all[..|all| - 1]);
    }
  }

  /** Every selected space starts empty. */
  lemma SelectedSpacesEmpty(selector: Option<string>, getSpace: string -> SpaceInfo, all: seq<SpaceInfo>)
    ensures forall s :: s in SelectSpaces(selector, getSpace, all) ==> s.pages == [] && s.attachments == []
  {
    GlobalSpacesEmpty(all);
  }

  /**
   * With a selector, one space is requested per piece of the split selector
   * (so never zero: the `length === 0` fallback is unreachable), and the
   * stored space is built from that request's response.
   */
  lemma SelectorSpaces(sel: string, getSpace: string -> SpaceInfo, all: seq<SpaceInfo>)
    requires sel != ""
    ensures var r := SelectSpaces(Some(sel), getSpace, all);
            |r| == Occurrences(sel, ',') + 1 &&
            forall i :: 0 <= i < |r| ==> r[i] == NewSpace(getSpace(Split(sel, ',')[i]))
  {
    SplitCount(sel, ',');
  }

  /** Selector pieces are used as they are: spaces around a key are not trimmed. */
  lemma SelectorNotTrimmed()
    ensures Split("ENG, DOCS", ',') == ["ENG", " DOCS"]
  {
    assert "ENG, DOCS" == "ENG" + [','] + " DOCS";
    SplitPrefix("ENG", " DOCS", ',');
    SplitNoSeparator(" DOCS", ',');
  }

  /** Without a selector, exactly the global spaces of the listing are kept. */
  lemma {:induction false} GlobalSpacesMembers(all: seq<SpaceInfo>)
    ensures forall s :: s in GlobalSpaces(all) <==> exists x :: x in all && x.kind == Global && s == NewSpace(x)
  {
    if all != [] {
      var n := |all| - 1;
      GlobalSpacesMembers(all[..n]);
      assert all == all[..n] + [all[n]];
      forall s | exists x :: x in all && x.kind == Global && s == NewSpace(x)
        ensures s in GlobalSpaces(all)
      {
        var x :| x in all && x.kind == Global && s == NewSpace(x);
        if x != all[n] {
          assert x in all[..n];
        }
      }
    }
  }

  /** The positions of the global entries of the listing. */
  function GlobalIndices(all: seq<SpaceInfo>): set<int>
  {
    set k | 0 <= k < |all| && all[k].kind == Global
  }

  lemma GlobalIndicesSnoc(all: seq<SpaceInfo>)
    requires all != []
    ensures var n := |all| - 1;
            |GlobalIndices(all)| == |GlobalIndices(all[..n])| + (if all[n].kind == Global then 1 else 0)
  {
    var n := |all| - 1;
    var prev, cur := GlobalIndices(all[..n]), GlobalIndices(all);
    assert prev == set k | 0 <= k < n && all[k].kind == Global;
    assert n !in prev;
    if all[n].kind == Global {
      assert cur == prev + {n};
    } else {
      assert cur == prev;
    }
  }

  /** Without a selector, one space per global entry of the listing. */
  lemma {:induction false} GlobalSpacesCount(all: seq<SpaceInfo>)
    ensures |GlobalSpaces(all)| == |GlobalIndices(all)|
  {
    if all != [] {
      GlobalSpacesCount(all[..|all| - 1]);
      GlobalIndicesSnoc(all);
    }
  }
}
