/**
 * Attachments: which attachment listings become records (createDownloadLinks)
 * and how the batched download loop marks records as downloaded
 * (downloadAttachments).
 */
module Attachments {
  import opened Types
  import opened Text
  import opened Graph

  /** The fixed parts of the content API's request paths. */
  const ContentPath := "/wiki/rest/api/content/"
  const AttachmentsPath := "/child/attachment"
  const ChildPagesPath := "/child/page"

  /** The request path of a page's attachment listing. */
  function AttachmentUrl(id: string): string
  {
    ContentPath + id + AttachmentsPath
  }

  /** The request path of one attachment download. */
  function DownloadUrl(link: string): string
  {
    "/wiki" + link
  }

  /** Different links give different download URLs. */
  lemma DownloadUrlInjective(a: string, b: string)
    requires a != b
    ensures DownloadUrl(a) != DownloadUrl(b)
  {
    assert DownloadUrl(a)[5..] == a && DownloadUrl(b)[5..] == b;
  }

  /** The content id recorded for a listing: the digits of its request path. */
  function ContentIdOf(pageId: string): string
  {
    Digits(AttachmentUrl(pageId))
  }

  /** The digits of an attachment listing's path are the digits of the page id. */
  lemma ContentIdIsPageDigits(pageId: string)
    ensures ContentIdOf(pageId) == Digits(pageId)
  {
    PathsHoldNoDigits();
    DigitsFramed(ContentPath, pageId, AttachmentsPath);
  }

  /** The fixed parts of the request paths hold no digit. */
  lemma PathsHoldNoDigits()
    ensures Digits(ContentPath) == "" && Digits(AttachmentsPath) == "" && Digits(ChildPagesPath) == ""
  {
    NoDigitsIn(ContentPath);
    NoDigitsIn(AttachmentsPath);
    NoDigitsIn(ChildPagesPath);
  }

  lemma NoDigitsIn(s: string)
    requires s == ContentPath || s == AttachmentsPath || s == ChildPagesPath
    ensures Digits(s) == ""
  {
    forall i | 0 <= i < |s| ensures !IsDigit(s[i]) {
    }
    DigitsOfNoDigits(s);
  }

  /** A numeric page id is recorded unchanged as the content id. */
  lemma NumericContentId(pageId: string)
    requires AllDigits(pageId)
    ensures ContentIdOf(pageId) == pageId
  {
    ContentIdIsPageDigits(pageId);
    DigitsOfAllDigits(pageId);
  }

  /** The five extensions the filter looks for. */
  const ImageExtensions: seq<string> := [".jpeg", ".jpg", ".png", ".svg", ".gif"]

  /** The image filter: the lower-cased extension contains one of the five image extensions. */
  function IsImageExtension(ext: string): (accepted: bool)
    ensures accepted <==> exists x :: x in ImageExtensions && Contains(ext, x)
  {
    Contains(ext, ".jpeg") || Contains(ext, ".jpg") || Contains(ext, ".png") || Contains(ext, ".svg") || Contains(ext, ".gif")
  }

  /** The filter runs on the lower-cased extension, so an upper-case ".PNG" is taken as an image. */
  lemma UpperCaseImageAccepted(c: Candidate, extOf: string -> string)
    requires extOf(c.info.title) == ".PNG"
    ensures IsImageExtension(ExtensionOf(c, extOf))
  {
    var e := ExtensionOf(c, extOf);
    assert e == ".png" by {
      assert |e| == 4;
      assert e[0] == '.' && e[1] == 'p' && e[2] == 'n' && e[3] == 'g';
    }
    assert OccursAt(e, ".png", 0);
  }

  /** An extension that passes the filter is never empty, so the empty-extension guard after it never returns. */
  lemma AcceptedExtensionNotEmpty(ext: string)
    requires IsImageExtension(ext)
    ensures |ext| >= 4
  {
  }

  /** One entry of a listing together with the content id of the listing it came from. */
  datatype Candidate = Candidate(info: AttachmentInfo, contentId: string)

  /** Listing entries, each paired with the content id of the listing. */
  function Tagged(entries: seq<AttachmentInfo>, contentId: string): (cs: seq<Candidate>)
    ensures |cs| == |entries|
    ensures forall k :: 0 <= k < |entries| ==> cs[k] == Candidate(entries[k], contentId)
  {
    if entries == [] then []
    else Tagged(entries[..|entries| - 1], contentId) + [Candidate(entries[|entries| - 1], contentId)]
  }

  /** The entries of the listing for page `id`, each with the listing's content id. */
  function ListingOf(id: string, attachmentsOf: string -> seq<AttachmentInfo>): seq<Candidate>
  {
    Tagged(attachmentsOf(id), ContentIdOf(id))
  }

  /** The candidates after `done` up to entry `b + 1` of a listing: those up to `b`, then entry `b`. */
  lemma TaggedNext(done: seq<Candidate>, entries: seq<AttachmentInfo>, contentId: string, b: int)
    requires 0 <= b < |entries|
    ensures done + Tagged(entries[..b + 1], contentId) == (done + Tagged(entries[..b], contentId)) + [Candidate(entries[b], contentId)]
  {
    assert entries[..b + 1][..b] == entries[..b];
    var cs := Tagged(entries[..b], contentId);
    assert done + (cs + [Candidate(entries[b], contentId)]) == (done + cs) + [Candidate(entries[b], contentId)];
  }

  /** All listing entries, page by page, in the order of `ids`. */
  function Candidates(ids: seq<string>, attachmentsOf: string -> seq<AttachmentInfo>): seq<Candidate>
  {
    if ids == [] then []
    else Candidates(ids[..|ids| - 1], attachmentsOf) + ListingOf(ids[|ids| - 1], attachmentsOf)
  }

  lemma CandidatesNext(ids: seq<string>, a: int, attachmentsOf: string -> seq<AttachmentInfo>)
    requires 0 <= a < |ids|
    ensures Candidates(ids[..a + 1], attachmentsOf) == Candidates(ids[..a], attachmentsOf) + ListingOf(ids[a], attachmentsOf)
  {
    assert ids[..a + 1][..a] == ids[..a];
  }

  /** The extension a candidate is filed under: `path.parse(title).ext`, lower-cased. */
  function ExtensionOf(c: Candidate, extOf: string -> string): string
  {
    Lower(extOf(c.info.title))
  }

  /** The record made for a candidate, `name` being the random name drawn for it. */
  function MakeRecord(c: Candidate, name: string, extOf: string -> string): (a: Attachment)
    ensures a.id == c.info.fileId && a.spaceKey == c.info.spaceKey && a.contentId == c.contentId
    ensures a.fileName == name + ExtensionOf(c, extOf)
    ensures a.path == "/images/confluence/" + a.spaceKey + "/" + a.fileName
    ensures a.downloadLink == c.info.downloadLink && a.fileSize == c.info.fileSize
    ensures !a.downloaded
  {
    var ext := ExtensionOf(c, extOf);
    Attachment(c.info.fileId, c.contentId, "/images/confluence/" + c.info.spaceKey + "/" + name + ext,
               name + ext, c.info.downloadLink, false, c.info.fileSize, c.info.spaceKey)
  }

  /**
   * The records, in order, for the image candidates. A name is drawn for every
   * candidate before the filter, so candidate `t` gets the `t`-th name.
   */
  function Records(cands: seq<Candidate>, names: nat -> string, extOf: string -> string): seq<Attachment>
  {
    if cands == [] then []
    else
      var t := |cands| - 1;
      Records(cands[..t], names, extOf)
        + (if IsImageExtension(ExtensionOf(cands[t], extOf)) then [MakeRecord(cands[t], names(t), extOf)] else [])
  }

  lemma RecordsSnoc(cands: seq<Candidate>, c: Candidate, names: nat -> string, extOf: string -> string)
    ensures Records(cands + [c], names, extOf)
         == Records(cands, names, extOf) + (if IsImageExtension(ExtensionOf(c, extOf)) then [MakeRecord(c, names(|cands|), extOf)] else [])
  {
    assert (cands + [c])[..|cands|] == cands;
  }

  /** Every record comes from an image candidate, with that candidate's name. */
  lemma {:induction false} RecordsFromImages(cands: seq<Candidate>, names: nat -> string, extOf: string -> string, k: int)
    requires 0 <= k < |Records(cands, names, extOf)|
    ensures exists t :: 0 <= t < |cands| && IsImageExtension(ExtensionOf(cands[t], extOf))
                      && Records(cands, names, extOf)[k] == MakeRecord(cands[t], names(t), extOf)
  {
    var t := |cands| - 1;
    var prev := Records(cands[..t], names, extOf);
    if k < |prev| {
      RecordsFromImages(cands[..t], names, extOf, k);
      var u :| 0 <= u < t && IsImageExtension(ExtensionOf(cands[..t][u], extOf))
               && prev[k] == MakeRecord(cands[..t][u], names(u), extOf);
      assert cands[..t][u] == cands[u];
    } else {
      assert Records(cands, names, extOf)[k] == MakeRecord(cands[t], names(t), extOf);
    }
  }

  /** Every image candidate yields its record. */
  lemma {:induction false} ImagesRecorded(cands: seq<Candidate>, names: nat -> string, extOf: string -> string, t: int)
    requires 0 <= t < |cands| && IsImageExtension(ExtensionOf(cands[t], extOf))
    ensures MakeRecord(cands[t], names(t), extOf) in Records(cands, names, extOf)
  {
    var n := |cands| - 1;
    if t < n {
      assert cands[..n][t] == cands[t];
      ImagesRecorded(cands[..n], names, extOf, t);
    }
  }

  /** No more records than candidates. */
  lemma {:induction false} RecordsBound(cands: seq<Candidate>, names: nat -> string, extOf: string -> string)
    ensures |Records(cands, names, extOf)| <= |cands|
  {
    if cands != [] {
      RecordsBound(cands[..|cands| - 1], names, extOf);
    }
  }

  /**
   * One listing entry of createDownloadLinks: an image entry's record is
   * pushed into the first space with its key, or fails alone when there is
   * none; any other entry changes nothing.
   */
  lemma FileStep(s0: seq<Space>, cands: seq<Candidate>, c: Candidate, names: nat -> string, extOf: string -> string)
    ensures var cur := PushEachAttachment(s0, Records(cands, names, extOf));
            var next := Records(cands + [c], names, extOf);
            var rec := MakeRecord(c, names(|cands|), extOf);
            var k := FindSpace(cur, rec.spaceKey);
            if IsImageExtension(ExtensionOf(c, extOf)) then
              PushEachAttachment(s0, next) == (if k < 0 then cur else cur[k := cur[k].(attachments := cur[k].attachments + [rec])])
              && (AllAttachable(s0, next) <==> AllAttachable(s0, Records(cands, names, extOf)) && k >= 0)
            else
              PushEachAttachment(s0, next) == cur && (AllAttachable(s0, next) <==> AllAttachable(s0, Records(cands, names, extOf)))
  {
    var prev := Records(cands, names, extOf);
    var rec := MakeRecord(c, names(|cands|), extOf);
    RecordsSnoc(cands, c, names, extOf);
    if IsImageExtension(ExtensionOf(c, extOf)) {
      assert Records(cands + [c], names, extOf) == prev + [rec];
      PushOneAttachment(s0, prev, rec);
    } else {
      assert Records(cands + [c], names, extOf) == prev;
    }
  }

  // The download loop

  /** A record in the graph: its space's index and its index in that space's attachments. */
  datatype Ref = Ref(space: nat, index: nat)

  predicate ValidRef(spaces: seq<Space>, r: Ref)
  {
    r.space < |spaces| && r.index < |spaces[r.space].attachments|
  }

  function At(spaces: seq<Space>, r: Ref): Attachment
    requires ValidRef(spaces, r)
  {
    spaces[r.space].attachments[r.index]
  }

  predicate Pending(spaces: seq<Space>, r: Ref)
  {
    ValidRef(spaces, r) && !At(spaces, r).downloaded
  }

  /** The order in which the source walks the graph: space by space, record by record. */
  predicate Before(a: Ref, b: Ref)
  {
    a.space < b.space || (a.space == b.space && a.index < b.index)
  }

  /** The set of records still waiting for a download. */
  function PendingSet(spaces: seq<Space>): set<Ref>
  {
    set i, k | 0 <= i < |spaces| && 0 <= k < |spaces[i].attachments| && !spaces[i].attachments[k].downloaded :: Ref(i, k)
  }

  /** `list` is the work list the source builds: every undownloaded record, once, in walk order. */
  predicate IsPendingList(spaces: seq<Space>, list: seq<Ref>)
  {
    (forall k :: 0 <= k < |list| ==> Pending(spaces, list[k]))
    && (forall a, b :: 0 <= a < b < |list| ==> Before(list[a], list[b]))
    && (forall r :: r in PendingSet(spaces) ==> r in list)
  }

  /** A pending list holds exactly the pending records. */
  lemma PendingListSet(spaces: seq<Space>, list: seq<Ref>)
    requires IsPendingList(spaces, list)
    ensures forall r :: r in list <==> r in PendingSet(spaces)
  {
    forall r | r in list ensures r in PendingSet(spaces) {
      var k :| 0 <= k < |list| && list[k] == r;
      assert Pending(spaces, list[k]);
    }
  }

  /** The number of requests of a batch: the first hundred entries of the list at most. */
  function BatchSize(n: nat): (b: nat)
    ensures b <= 100 && b <= n
    ensures n > 0 ==> b > 0
    ensures n < 100 ==> b == n
    ensures n >= 100 ==> b == 100
  {
    if n < 100 then n else 100
  }

  /** The download link of a list entry. */
  function LinkAt(spaces: seq<Space>, list: seq<Ref>, k: int): string
    requires 0 <= k < |list| && ValidRef(spaces, list[k])
  {
    At(spaces, list[k]).downloadLink
  }

  /** `findIndex` over the list by request URL: the first entry whose download URL is `url`. */
  function FirstWithUrl(spaces: seq<Space>, list: seq<Ref>, url: string): (k: int)
    requires forall m :: 0 <= m < |list| ==> ValidRef(spaces, list[m])
    ensures -1 <= k < |list|
    ensures 0 <= k ==> DownloadUrl(LinkAt(spaces, list, k)) == url
    ensures forall m :: 0 <= m < |list| && (k < 0 || m < k) ==> DownloadUrl(LinkAt(spaces, list, m)) != url
  {
    if list == [] then -1
    else if DownloadUrl(LinkAt(spaces, list, 0)) == url then 0
    else
      var r := FirstWithUrl(spaces, list[1..], url);
      assert forall m :: 1 <= m < |list| ==> LinkAt(spaces, list, m) == LinkAt(spaces, list[1..], m - 1);
      if r < 0 then -1 else r + 1
  }

  /**
   * The records a batch marks as downloaded: for each of its requests that
   * answered, the first entry of the list with that request's URL.
   */
  function Marks(spaces: seq<Space>, list: seq<Ref>, batch: nat, fetch: (nat, string) -> bool): set<Ref>
    requires forall m :: 0 <= m < |list| ==> ValidRef(spaces, list[m])
  {
    MarksUpTo(spaces, list, batch, fetch, BatchSize(|list|))
  }

  /** The records marked by the first `n` responses of a batch. */
  function MarksUpTo(spaces: seq<Space>, list: seq<Ref>, batch: nat, fetch: (nat, string) -> bool, n: int): set<Ref>
    requires forall m :: 0 <= m < |list| ==> ValidRef(spaces, list[m])
    requires n <= |list|
  {
    set k | 0 <= k < n && fetch(batch, DownloadUrl(LinkAt(spaces, list, k)))
          :: list[FirstWithUrl(spaces, list, DownloadUrl(LinkAt(spaces, list, k)))]
  }

  lemma MarksUpToStep(spaces: seq<Space>, list: seq<Ref>, batch: nat, fetch: (nat, string) -> bool, n: int)
    requires forall m :: 0 <= m < |list| ==> ValidRef(spaces, list[m])
    requires 0 <= n < |list|
    ensures MarksUpTo(spaces, list, batch, fetch, n + 1)
         == MarksUpTo(spaces, list, batch, fetch, n)
            + (if fetch(batch, DownloadUrl(LinkAt(spaces, list, n)))
               then {list[FirstWithUrl(spaces, list, DownloadUrl(LinkAt(spaces, list, n)))]} else {})
  {
  }

  /** Setting one more record to downloaded. */
  function MarkOne(spaces: seq<Space>, r: Ref): seq<Space>
    requires ValidRef(spaces, r)
  {
    var atts := spaces[r.space].attachments;
    spaces[r.space := spaces[r.space].(attachments := atts[r.index := atts[r.index].(downloaded := true)])]
  }

  lemma MarkedFromNone(s: seq<Space>)
    ensures MarkedFrom(s, s, {})
  {
  }

  lemma MarkStep(s0: seq<Space>, s: seq<Space>, marked: set<Ref>, r: Ref)
    requires MarkedFrom(s0, s, marked) && ValidRef(s, r)
    ensures MarkedFrom(s0, MarkOne(s, r), marked + {r})
  {
  }

  /** The lookup by URL reads only the links, which downloading leaves alone. */
  lemma {:induction false} FirstWithUrlStable(s0: seq<Space>, s: seq<Space>, list: seq<Ref>, url: string)
    requires OnlyDownloads(s0, s)
    requires forall m :: 0 <= m < |list| ==> ValidRef(s0, list[m])
    ensures forall m :: 0 <= m < |list| ==> ValidRef(s, list[m])
    ensures FirstWithUrl(s, list, url) == FirstWithUrl(s0, list, url)
  {
    assert forall m :: 0 <= m < |list| ==> LinkAt(s, list, m) == LinkAt(s0, list, m);
    if list != [] {
      FirstWithUrlStable(s0, s, list[1..], url);
    }
  }

  /** Only the answered requests' own entries, or earlier entries sharing their link, are marked. */
  lemma MarksFromAnswers(spaces: seq<Space>, list: seq<Ref>, batch: nat, fetch: (nat, string) -> bool, r: Ref)
    requires forall m :: 0 <= m < |list| ==> ValidRef(spaces, list[m])
    requires r in Marks(spaces, list, batch, fetch)
    ensures exists m :: 0 <= m < BatchSize(|list|) && r == list[m] && fetch(batch, DownloadUrl(At(spaces, r).downloadLink))
  {
    var k :| 0 <= k < BatchSize(|list|) && fetch(batch, DownloadUrl(LinkAt(spaces, list, k)))
           && r == list[FirstWithUrl(spaces, list, DownloadUrl(LinkAt(spaces, list, k)))];
    var m := FirstWithUrl(spaces, list, DownloadUrl(LinkAt(spaces, list, k)));
    assert 0 <= m <= k;
  }

  /** With distinct links, a batch marks exactly the requests that answered. */
  lemma MarksDistinctLinks(spaces: seq<Space>, list: seq<Ref>, batch: nat, fetch: (nat, string) -> bool, k: int)
    requires forall m :: 0 <= m < |list| ==> ValidRef(spaces, list[m])
    requires forall a, b :: 0 <= a < b < |list| ==> LinkAt(spaces, list, a) != LinkAt(spaces, list, b)
    requires 0 <= k < BatchSize(|list|)
    ensures list[k] in Marks(spaces, list, batch, fetch) <==> fetch(batch, DownloadUrl(LinkAt(spaces, list, k)))
  {
    var url := DownloadUrl(LinkAt(spaces, list, k));
    forall m | 0 <= m < k ensures DownloadUrl(LinkAt(spaces, list, m)) != url {
      DownloadUrlInjective(LinkAt(spaces, list, m), LinkAt(spaces, list, k));
    }
    assert FirstWithUrl(spaces, list, url) == k;
    if list[k] in Marks(spaces, list, batch, fetch) {
      var j :| 0 <= j < BatchSize(|list|) && fetch(batch, DownloadUrl(LinkAt(spaces, list, j)))
             && list[k] == list[FirstWithUrl(spaces, list, DownloadUrl(LinkAt(spaces, list, j)))];
      var m := FirstWithUrl(spaces, list, DownloadUrl(LinkAt(spaces, list, j)));
      forall a | 0 <= a < j ensures DownloadUrl(LinkAt(spaces, list, a)) != DownloadUrl(LinkAt(spaces, list, j)) {
        DownloadUrlInjective(LinkAt(spaces, list, a), LinkAt(spaces, list, j));
      }
      assert m == j;
      assert LinkAt(spaces, list, j) == LinkAt(spaces, list, k);
      assert j == k;
    }
  }

  /** `s` is `s0` with the records of `marked` set to downloaded, and nothing else changed. */
  predicate MarkedFrom(s0: seq<Space>, s: seq<Space>, marked: set<Ref>)
  {
    |s| == |s0|
    && (forall i :: 0 <= i < |s| ==>
          s[i].key == s0[i].key && s[i].contentId == s0[i].contentId && s[i].title == s0[i].title
          && s[i].pages == s0[i].pages && |s[i].attachments| == |s0[i].attachments|)
    && (forall i, k :: 0 <= i < |s| && 0 <= k < |s[i].attachments| ==>
          s[i].attachments[k] == if Ref(i, k) in marked then s0[i].attachments[k].(downloaded := true) else s0[i].attachments[k])
  }

  /** `s` differs from `s0` only in records that became downloaded. */
  predicate OnlyDownloads(s0: seq<Space>, s: seq<Space>)
  {
    |s| == |s0|
    && (forall i :: 0 <= i < |s| ==>
          s[i].key == s0[i].key && s[i].contentId == s0[i].contentId && s[i].title == s0[i].title
          && s[i].pages == s0[i].pages && |s[i].attachments| == |s0[i].attachments|)
    && (forall i, k :: 0 <= i < |s| && 0 <= k < |s[i].attachments| ==>
          s[i].attachments[k] == s0[i].attachments[k].(downloaded := s[i].attachments[k].downloaded)
          && (s0[i].attachments[k].downloaded ==> s[i].attachments[k].downloaded))
  }

  lemma MarkedOnlyDownloads(s0: seq<Space>, s: seq<Space>, marked: set<Ref>)
    requires MarkedFrom(s0, s, marked)
    ensures OnlyDownloads(s0, s)
  {
  }

  lemma OnlyDownloadsTrans(s0: seq<Space>, s1: seq<Space>, s2: seq<Space>)
    requires OnlyDownloads(s0, s1) && OnlyDownloads(s1, s2)
    ensures OnlyDownloads(s0, s2)
  {
  }

  /** Downloading never adds pending records. */
  lemma PendingShrinks(s0: seq<Space>, s: seq<Space>)
    requires OnlyDownloads(s0, s)
    ensures PendingSet(s) <= PendingSet(s0)
  {
  }

  /**
   * Once the first request of a batch answers, the batch makes progress: the
   * first entry is marked and leaves the pending set.
   */
  lemma FirstAnswerProgress(s0: seq<Space>, list: seq<Ref>, batch: nat, fetch: (nat, string) -> bool, s: seq<Space>)
    requires IsPendingList(s0, list) && |list| > 0
    requires fetch(batch, DownloadUrl(LinkAt(s0, list, 0)))
    requires MarkedFrom(s0, s, Marks(s0, list, batch, fetch))
    ensures PendingSet(s) < PendingSet(s0)
  {
    assert FirstWithUrl(s0, list, DownloadUrl(LinkAt(s0, list, 0))) == 0;
    assert list[0] in Marks(s0, list, batch, fetch);
    assert Pending(s0, list[0]);
    assert list[0] in PendingSet(s0);
    assert list[0] !in PendingSet(s);
  }

  /** With nothing pending, every record is downloaded. */
  lemma EmptyPendingList(spaces: seq<Space>)
    requires IsPendingList(spaces, [])
    ensures forall i, k :: 0 <= i < |spaces| && 0 <= k < |spaces[i].attachments| ==> spaces[i].attachments[k].downloaded
  {
    forall i, k | 0 <= i < |spaces| && 0 <= k < |spaces[i].attachments|
      ensures spaces[i].attachments[k].downloaded
    {
      assert Ref(i, k) !in PendingSet(spaces);
    }
  }

  /** Every record is downloaded exactly when there is nothing pending. */
  lemma NothingPending(spaces: seq<Space>)
    ensures PendingSet(spaces) == {} <==>
            forall i, k :: 0 <= i < |spaces| && 0 <= k < |spaces[i].attachments| ==> spaces[i].attachments[k].downloaded
  {
    if PendingSet(spaces) != {} {
      var r :| r in PendingSet(spaces);
      assert !spaces[r.space].attachments[r.index].downloaded;
    } else {
      forall i, k | 0 <= i < |spaces| && 0 <= k < |spaces[i].attachments|
        ensures spaces[i].attachments[k].downloaded
      {
        assert Ref(i, k) !in PendingSet(spaces);
      }
    }
  }

  /** A record is in the pending set exactly when it is a record of the graph not yet downloaded. */
  lemma PendingSetMeaning(spaces: seq<Space>, r: Ref)
    ensures r in PendingSet(spaces) <==> Pending(spaces, r)
  {
    if Pending(spaces, r) {
      assert Ref(r.space, r.index) == r;
    }
  }

  /**
   * One response of a batch: the entry found by the request's URL exists,
   * and marking it when the request answered moves the batch one response on.
   */
  lemma MarkAnswer(s0: seq<Space>, s: seq<Space>, list: seq<Ref>, batch: nat, fetch: (nat, string) -> bool, n: int)
    requires IsPendingList(s0, list) && 0 <= n < |list|
    requires MarkedFrom(s0, s, MarksUpTo(s0, list, batch, fetch, n))
    ensures forall m :: 0 <= m < |list| ==> ValidRef(s, list[m])
    ensures var url := DownloadUrl(LinkAt(s0, list, n));
            var k := FirstWithUrl(s, list, url);
            0 <= k < |list|
            && (fetch(batch, url) ==> MarkedFrom(s0, MarkOne(s, list[k]), MarksUpTo(s0, list, batch, fetch, n + 1)))
            && (!fetch(batch, url) ==> MarkedFrom(s0, s, MarksUpTo(s0, list, batch, fetch, n + 1)))
  {
    var url := DownloadUrl(LinkAt(s0, list, n));
    MarkedOnlyDownloads(s0, s, MarksUpTo(s0, list, batch, fetch, n));
    FirstWithUrlStable(s0, s, list, url);
    MarksUpToStep(s0, list, batch, fetch, n);
    var k := FirstWithUrl(s, list, url);
    if fetch(batch, url) {
      MarkStep(s0, s, MarksUpTo(s0, list, batch, fetch, n), list[k]);
    }
  }
}
