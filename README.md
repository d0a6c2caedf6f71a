# Confluence source plugin: the content graph, in Dafny

This project models the core of `gridsome-source-confluence`: the `ConfluenceSource`
class in `src/index.ts`. The class builds an in-memory graph of Confluence content for
the Gridsome site generator. The graph is a list of spaces; each space owns its pages
and its image attachments. `loadSource` runs a fixed sequence of passes over it:

1. `getSpaces` picks the spaces: the ones named by the comma-separated `space_key`
   option, or every global space of the site.
2. `getHomepage` adds each space's homepage.
3. `getParentPages` adds the homepage's direct children as top-level pages.
4. `getChildPages` walks down the page tree, pass after pass, until a pass adds nothing.
5. `setSlugs` gives every page a slug built by `createSlug`, which walks up the parent
   chain.
6. When image downloads are on, `createDownloadLinks` records the image attachments and
   `downloadAttachments` downloads them, at most 100 per batch, until none is left.
7. `alterBody` rewrites each body: internal links, the description, heading anchors,
   images, emoji, and a wrapping `<div>`.
8. `createNodes` adds each page to the Home, Parent or Child collection.

The graph is the field `spaces` of the class `Source.ConfluenceSource`. Its methods
change it in place, pass by pass, with loops like those of the source. Each method is
proved against a function that states what the pass computes: `Graph.PushAll`,
`Graph.PushEach`, `Passes.Slugged`, `Passes.Altered`, `Graph.PushEachAttachment`,
`Attachments.Marks` and `Nodes.OfKind`. The properties of those functions are proved as
lemmas in the modules beside them.

Everything the plugin gets from outside is a parameter:

- each REST endpoint is a function from the requested id or key to its answer;
- `fetch(batch, url)` says whether a download request answered or came back `null`;
- `names(t)` is the `t`-th random file name;
- `slugify` with the plugin's options (`seg`), `path.parse(..).ext` (`extOf`), and the
  HTML parser and serialiser (`parse`, `serialize`) are opaque functions.

Modules, one file each:

| module | file | what it holds |
|---|---|---|
| `Types` | types.dfy | the records of the graph and the response shapes |
| `Text` | text.dfy | digit extraction, `split`/`join`, `includes`, lower-casing, `substr` |
| `Settings` | settings.dfy | `validateConfig`, `getTypeName` |
| `Graph` | graph.dfy | lookups by key and id; pushing pages and attachment records |
| `Spaces` | spaces.dfy | space selection |
| `Slugs` | slugs.dfy | the `createSlug` walk and its properties |
| `Crawl` | crawl.dfy | homepages, top-level pages and the child-page walk |
| `Attachments` | attachments.dfy | the attachment filter and records, and the download batches |
| `Markup` | markup.dfy | the body rewrite over an abstract element list |
| `Nodes` | nodes.dfy | node classification and the site generator's store |
| `Passes` | passes.dfy | `setSlugs` and `alterBody` as functions of the graph they start from |
| `Source` | source.dfy | the class `ConfluenceSource` and its methods |

## Model

| member | source | states |
|---|---|---|
| `Types.NewSpace` | src/index.ts:91-97 | A discovered space takes its key, homepage id and homepage title from the response and starts with no pages and no attachments. |
| `Types.HomePage` | src/index.ts:132-140 | The page getHomepage pushes is flagged as homepage and has no parent; id, space, title and body are the response's. |
| `Types.ParentPage` | src/index.ts:158-165 | The page getParentPages pushes is neither a homepage nor parented; id, space, title and body are the response's. |
| `Types.ChildPage` | src/index.ts:200-208 | The page getChildPages pushes carries the given parent id and is not a homepage; id, space, title and body are the response's. |
| `Text.Digits` | src/index.ts:195 | `replace(/\D/g, "")` yields only digits and never a longer string. |
| `Text.DigitsAppend` | src/index.ts:195 | The digits of a concatenation are the digits of each part, concatenated. |
| `Text.DigitsFramed` | src/index.ts:305 | Text without digits around a string adds no digit to it. |
| `Text.DigitsOfAllDigits` | src/index.ts:195 | A string of digits only is kept unchanged. |
| `Text.DigitsOfNoDigits` | src/index.ts:305 | A string without digits yields the empty string. |
| `Text.Split` | src/index.ts:83 | `split(",")` yields at least one piece, and no piece holds the separator. |
| `Text.JoinSplit` | src/index.ts:83 | Joining the pieces back with the separator gives the original string: splitting loses nothing. |
| `Text.SplitJoin` | src/index.ts:83 | Splitting a join of separator-free pieces gives the pieces back. |
| `Text.SplitNoSeparator` | src/index.ts:83 | A string without the separator splits into itself alone. |
| `Text.SplitPrefix` | src/index.ts:83 | Splitting `a + sep + b` peels off `a` as the first piece. |
| `Text.SplitCount` | src/index.ts:83-86 | There is one piece more than separators, so never zero pieces: the `length === 0` fallback cannot run. |
| `Text.Lower` | src/index.ts:291 | `toLowerCase` keeps the length and lowers each character. |
| `Text.Take` | src/index.ts:240 | `substr(0, n)` is a prefix of length `n`, or the whole string when it is shorter. |
| `Settings.ValidateConfig` | src/index.ts:66-76 | The check fails when the base URL is empty, or when `public_only` is off and a credential is empty; otherwise it passes. |
| `Settings.TypeName` | src/index.ts:419-422 | A collection name is longer than the name it is built from and ends with it. |
| `Settings.CollectionNamesDistinct` | src/index.ts:43-45 | The Home, Parent and Child collections get three different names, whatever the prefix. |
| `Settings.DefaultPrefix` | src/index.ts:420-421 | With an absent or empty prefix, names start with "Confluence". |
| `Settings.CustomPrefix` | src/index.ts:420-421 | With a non-empty prefix configured, a collection name is that prefix followed by the name. |
| `Graph.FindSpace` | src/index.ts:130 | `findIndex` by key gives the first space with that key, or -1 exactly when no space has it. |
| `Graph.SameKeysFind` | src/index.ts:156 | Lookups by key agree on two graphs with the same keys in the same order, so pushes never move a later lookup. |
| `Graph.FindAttachment` | src/index.ts:259 | `findIndex` by id gives the first attachment with that id, or -1 exactly when none has it. |
| `Graph.IdsOf` | src/index.ts:181-183 | The ids of a space's pages, one per page, in page order. |
| `Graph.PageIdsMembership` | src/index.ts:180-184 | The first frontier of getChildPages holds an id exactly when some page of some space has it. |
| `Graph.IdsOfMembership` | src/index.ts:181-183 | A space's id list holds an id exactly when one of its pages has it. |
| `Graph.PushPage` | src/index.ts:130-140 | A push fails (the source throws) exactly when no space has the page's key; otherwise the keys stay as they were. |
| `Graph.PushAll` | src/index.ts:126-142 | Pushing pages one by one, stopping at the first throw; a successful push keeps the number of spaces. |
| `Graph.PushAllFails` | src/index.ts:126-142 | Pushing a list page by page, stopping at the first throw, succeeds exactly when every page names a known space. |
| `Graph.PushAllResult` | src/index.ts:126-142 | When it succeeds, each space gains exactly the pages routed to it, in order, at the end of its pages. |
| `Graph.PushEach` | src/index.ts:153-166 | Pushing from `async` callbacks keeps the space keys. |
| `Graph.PushEachResult` | src/index.ts:153-166 | With failing callbacks skipped, each space gains exactly the pages routed to it, in order; pages naming no space are dropped. |
| `Graph.AllRoutedAppend` | src/index.ts:152-167 | All pages of two listings are routable exactly when those of each listing are. |
| `Graph.PushAttachment` | src/index.ts:304-316 | A record push fails exactly when no space has the record's key; otherwise the keys stay as they were. |
| `Graph.PushEachAttachment` | src/index.ts:289-318 | Pushing records from `async` callbacks keeps the space keys. |
| `Graph.PushOneAttachment` | src/index.ts:304-316 | One more record is appended to the first space with its key, or dropped when there is none; all records are storable exactly when the earlier ones were and this one's key is known. |
| `Graph.PushEachAttachmentResult` | src/index.ts:287-320 | Each space gains exactly the records routed to it, in order; records naming no space are dropped. |
| `Graph.AllAttachedSomewhere` | src/index.ts:287-320 | When every record names a known space, every record is stored in that space. |
| `Slugs.CountId` | src/index.ts:404 | The count of pages with an id is zero exactly when no page has it. |
| `Slugs.IndexOf` | src/index.ts:404 | The first page with an id, or -1 when there is none. |
| `Slugs.Lookup` | src/index.ts:404-405 | The walk uses a page only when it is the single page with that id; zero or several matches give -1. |
| `Slugs.Slug` | src/index.ts:397-417 | The slug createSlug returns: empty exactly when the page's id does not match exactly one page; otherwise it starts with "/". |
| `Slugs.SlugWithinShape` | src/index.ts:403-415 | A walk yields nothing exactly when its first lookup misses, and otherwise starts with "/". |
| `Slugs.SlugWithinAnyBound` | src/index.ts:403-415 | Any bound large enough for the walk to stop gives the same slug. |
| `Slugs.SlugWithinStep` | src/index.ts:406-409 | A walk through a parented page is the parent's walk followed by "/" + seg(title). |
| `Slugs.WalkStep` | src/index.ts:403-415 | One turn of the createSlug loop: what is left to prepend after the turn, on a miss, a root and a parented page. |
| `Slugs.SlugIs` | src/index.ts:403-415 | A walk that stops within a bound yields the slug createSlug returns. |
| `Slugs.LookupOfOnly` | src/index.ts:404-405 | A page whose id occurs once is the page the walk finds. |
| `Slugs.SlugOfMiss` | src/index.ts:412-414 | An id matched by no page, or by several, gives the empty slug. |
| `Slugs.SlugOfRoot` | src/index.ts:405-411 | A page found once and without a parent gets "/" + seg(title). |
| `Slugs.SlugOfChild` | src/index.ts:405-410 | A page found once with a parent, on a chain that ends, gets its parent's slug followed by "/" + seg(title). |
| `Slugs.UniqueLookup` | src/index.ts:404-405 | Where ids are unique, every page is found once, at its own position. |
| `Slugs.SkeletonLookup` | src/index.ts:404 | The lookup reads only page ids. |
| `Slugs.SkeletonWalk` | src/index.ts:403-415 | The walk reads only ids, titles and parents. |
| `Slugs.SkeletonSlug` | src/index.ts:403-415 | Pages that agree on ids, titles and parents give the same slugs, so passes that change anything else leave slugs alone. |
| `Slugs.SkeletonAcyclic` | src/index.ts:403-415 | Whether every walk stops depends only on ids and parents. |
| `Slugs.Strip` | src/index.ts:404-409 | Stripping a page list keeps exactly what the walk reads. |
| `Slugs.StripSkeleton` | src/index.ts:404-409 | Lists that agree on what the walk reads have the same stripped form. |
| `Slugs.SlugOfStrip` | src/index.ts:403-415 | Slugs read from the stripped list are the slugs of the list. |
| `Spaces.SelectSpaces` | src/index.ts:78-118 | With a non-empty selector, one space per piece of the split selector, each built from its piece's response; without one, no more spaces than the listing has. |
| `Spaces.GlobalSpacesEmpty` | src/index.ts:101-115 | Every space kept from the listing starts with no pages and no attachments. |
| `Spaces.SelectedSpacesEmpty` | src/index.ts:78-118 | Every selected space starts with no pages and no attachments, on either branch. |
| `Spaces.SelectorSpaces` | src/index.ts:82-99 | With a selector, one space per comma-separated piece (one more than the commas), in order, each the space built from that piece's response. |
| `Spaces.SelectorNotTrimmed` | src/index.ts:83 | Pieces are not trimmed: "ENG, DOCS" requests "ENG" and " DOCS". |
| `Spaces.GlobalSpacesMembers` | src/index.ts:101-115 | Without a selector, exactly the global entries of the listing become spaces. |
| `Spaces.GlobalSpacesCount` | src/index.ts:101-115 | Without a selector, there is one space per global entry of the listing. |
| `Attachments.DownloadUrlInjective` | src/index.ts:359 | Different download links give different request URLs. |
| `Attachments.ContentIdIsPageDigits` | src/index.ts:305 | The content id recorded for a listing is the digits of the page id. |
| `Attachments.PathsHoldNoDigits` | src/services/confluence.ts:51-57 | The fixed parts of the child-page and attachment request paths hold no digit. |
| `Attachments.NumericContentId` | src/index.ts:305 | A numeric page id is recorded unchanged as the content id. |
| `Attachments.IsImageExtension` | src/index.ts:292-298 | The filter accepts an extension exactly when it contains one of ".jpeg", ".jpg", ".png", ".svg" and ".gif". |
| `Attachments.UpperCaseImageAccepted` | src/index.ts:291-298 | The filter runs on the lower-cased extension, so a ".PNG" file is taken as an image. |
| `Attachments.AcceptedExtensionNotEmpty` | src/index.ts:292-303 | An extension that passes the image filter is never empty, so the `!fileExtension` return cannot run. |
| `Attachments.Tagged` | src/index.ts:289 | Each entry of a listing, in order, paired with the listing's content id. |
| `Attachments.MakeRecord` | src/index.ts:307-316 | A record has the file id, key, size and link of its entry, file name = random name + lower-cased extension, path "/images/confluence/" + key + "/" + file name, and is not downloaded. |
| `Attachments.RecordsFromImages` | src/index.ts:289-317 | Every record comes from an entry that passes the image filter, with that entry's own random name. |
| `Attachments.ImagesRecorded` | src/index.ts:289-317 | Every entry that passes the image filter yields its record. |
| `Attachments.RecordsBound` | src/index.ts:289-317 | There are never more records than listing entries. |
| `Attachments.FileStep` | src/index.ts:289-317 | One entry's callback: an image's record goes into the first space with its key, or fails alone; any other entry changes nothing. |
| `Attachments.PendingListSet` | src/index.ts:328-334 | The work list holds exactly the records not yet downloaded. |
| `Attachments.BatchSize` | src/index.ts:339-350 | A batch sends exactly min(n, 100) requests for a work list of n entries: all of them below 100, otherwise 100. |
| `Attachments.FirstWithUrl` | src/index.ts:359 | The answer goes to the first entry whose download URL is the request's, or -1 when none has it. |
| `Attachments.MarksUpToStep` | src/index.ts:357-372 | One more answer marks one more entry when it is not null, and nothing otherwise. |
| `Attachments.FirstWithUrlStable` | src/index.ts:359 | Marking records downloaded never changes which entry an answer goes to. |
| `Attachments.MarksFromAnswers` | src/index.ts:357-372 | Only entries of the batch whose request answered are marked. |
| `Attachments.MarksDistinctLinks` | src/index.ts:357-372 | When links are distinct, a batch entry is marked exactly when its own request answered. |
| `Attachments.MarkedOnlyDownloads` | src/index.ts:370 | Marking changes only `downloaded` flags, and only from false to true. |
| `Attachments.PendingShrinks` | src/index.ts:370-383 | Downloads never add a pending record. |
| `Attachments.FirstAnswerProgress` | src/index.ts:337-385 | A batch whose first request answers removes at least one record from the pending set. |
| `Attachments.EmptyPendingList` | src/index.ts:337 | When the work list is empty, every record of every space is downloaded. |
| `Attachments.NothingPending` | src/index.ts:337 | The pending set is empty exactly when every record of every space is downloaded. |
| `Attachments.PendingSetMeaning` | src/index.ts:328-334 | A record is pending exactly when it is in the graph and not downloaded. |
| `Attachments.MarkAnswer` | src/index.ts:357-372 | One answer of a batch: the entry it goes to exists, and marking it, when the answer is not null, moves the batch one answer on. |
| `Markup.RewriteLink` | src/index.ts:223-235 | A link with an internal page target becomes new markup linking to that page's slug and keeping the link text; any other non-page link of class external-link gets target "_blank"; every other link (a page link without a resource id, or a plain link) and every element that is not a link is kept as it is. |
| `Markup.RewriteImage` | src/index.ts:257-269 | A media image with an attachment of that id in its space becomes an image of that attachment's local path; a non-emoji image without one is kept; every element that is not an image is kept. |
| `Markup.Headings` | src/index.ts:244 | The headings of the body, no more elements than the body has. |
| `Markup.AnchorsOf` | src/index.ts:244-254 | One anchor per heading, in document order, with the heading's text, seg of the text, its index from 0 and its tag. |
| `Markup.RewritePage` | src/index.ts:222-271 | Rewriting a page changes only its body, description and anchors. |
| `Markup.AnchorsSnoc` | src/index.ts:245-254 | One more heading adds one anchor, numbered after the earlier ones. |
| `Markup.LinkPassKeepsText` | src/index.ts:223-254 | On the flat element list, the link pass leaves the description and the anchors as the original body gives them. |
| `Markup.FirstParagraphLinks` | src/index.ts:238 | On the flat element list, the link pass does not change the first paragraph. |
| `Markup.HeadingsLinks` | src/index.ts:244 | The link pass does not change the headings. |
| `Markup.Describe` | src/index.ts:237-241 | The new description is either the old one or a non-empty text of at most 200 characters. |
| `Markup.DescriptionSpec` | src/index.ts:238-241 | The description is the first paragraph's text cut to 200 characters; when that paragraph is missing or empty, the old description is kept. |
| `Markup.TruncationBoundary` | src/index.ts:240 | A 250-character first paragraph gives exactly its first 200 characters. |
| `Markup.HeadingIds` | src/index.ts:245-253 | Anchor k has position k, and its anchor is the `id` its heading receives. |
| `Markup.HeadingsComplete` | src/index.ts:244 | Every heading of the body is in the heading list, and nothing else is. |
| `Markup.MediaReplacedOnlyWithAttachment` | src/index.ts:258-262 | A media image is replaced exactly when its space has an attachment with that id. |
| `Markup.EmojiPrefixed` | src/index.ts:265-268 | An emoji image not replaced by an attachment gets the base URL in front of its source, and nothing else changes; a missing source is written as "undefined". |
| `Markup.BodyWrapped` | src/index.ts:271 | The new body always starts with "<div>" and ends with "</div>". |
| `Nodes.Classify` | src/index.ts:434-452 | A page is a child exactly when it has a non-empty parent id; a homepage only when it has no parent id and the homepage flag. |
| `Nodes.Partition` | src/index.ts:430-455 | The three collections together hold every page exactly as often as it occurs. |
| `Nodes.OfKindOnly` | src/index.ts:430-455 | A collection holds only pages of its kind. |
| `Nodes.KindMeaning` | src/index.ts:434-452 | Child exactly when `parent_page` is set and not empty; Home exactly when it is not and the page is a homepage; Parent otherwise. |
| `Nodes.CollectionsApart` | src/index.ts:436-448 | Pages of different kinds go to collections with different names. |
| `Nodes.PushedPagesKinds` | src/index.ts:434-452 | Homepages go to Home, top-level pages to Parent, children with a non-empty parent id to Child. |
| `Nodes.Store.constructor` | src/index.ts:43-45 | The three collections are registered under the prefixed names and start empty. |
| `Nodes.Store.AddNode` | src/index.ts:436-451 | `getCollection(name).addNode(page)` appends the page to that collection alone. |
| `Crawl.HomePages` | src/index.ts:122-124 | One homepage per space, from the content endpoint for the space's homepage id, in space order. |
| `Crawl.ParentsOf` | src/index.ts:153-165 | One top-level page per result of a listing, in order. |
| `Crawl.ParentsStep` | src/index.ts:153-166 | One callback of getParentPages: the page is pushed or skipped, and the pages are routable exactly when the earlier ones were and this one is. |
| `Crawl.HomeStep` | src/index.ts:128-141 | One turn of the homepage loop: the homepage goes to the first space with its key, and when no space has that key the whole pass fails. |
| `Crawl.HomepagesPlaced` | src/index.ts:120-143 | With distinct keys and each homepage in its own space, the pass succeeds and every space gains exactly its homepage, at the end. |
| `Crawl.TopPagesAreParents` | src/index.ts:145-169 | Every page getParentPages pushes goes to the Parent collection. |
| `Crawl.NumericParentId` | src/index.ts:195 | A numeric page id is recorded unchanged as its children's parent id. |
| `Crawl.ParentIdIsDigits` | src/index.ts:195 | The recorded parent id is the digits of the requested page's id. |
| `Crawl.ClosedNoStray` | src/index.ts:186-215 | A closed graph has no child naming an unknown space. |
| `Crawl.AppendExtends` | src/index.ts:199-210 | Appending a page with a new id, taken from a response, keeps growth, fresh ids and provenance. |
| `Crawl.FromResponsesWiden` | src/index.ts:188 | More requests still account for every appended page. |
| `Crawl.ExtendsTrans` | src/index.ts:186-215 | Two stretches of the walk make one. |
| `Crawl.PresentStays` | src/index.ts:199 | A result already present stays present as the graph grows. |
| `Crawl.PresentWithin` | src/index.ts:186-215 | The pairs of (space, id) present never leave the bound given by the universe. |
| `Crawl.PresentGrows` | src/index.ts:199-210 | Appending a page with a new id adds a pair, so the walk's measure goes down. |
| `Crawl.UniqueAfterWalk` | src/index.ts:199-210 | Ids unique in a space before the walk stay unique after it. |
| `Crawl.AppendChild` | src/index.ts:199-211 | Appending a new child page keeps the invariant of the pass and records its id for the next frontier. |
| `Crawl.ChildStep` | src/index.ts:194-211 | One callback of a pass: the child is appended unless its space holds its id, the invariant holds, and the child is present afterwards. |
| `Crawl.WalkStepped` | src/index.ts:186-215 | One pass keeps the walk's invariant and either adds a (space, id) pair or leaves the graph unchanged. |
| `Crawl.StrayFound` | src/index.ts:196-199 | A pass that threw met a child of some page that names no known space. |
| `Crawl.WalkClosed` | src/index.ts:186 | When every page id has been requested and every child of every request is present, the graph is closed: every child of every page is present. |
| `Passes.SlugsInIsSlug` | src/index.ts:228 | On an acyclic space, the slug function passes use is the slug createSlug builds. |
| `Passes.Mix` | src/index.ts:220-221 | The state of a page-by-page pass keeps the number of spaces. |
| `Passes.MixReshaped` | src/index.ts:220-221 | Every state mid-pass reads the same to createSlug as the start. |
| `Passes.ReshapedSlugs` | src/index.ts:220-221 | Graphs that differ only in what createSlug does not read give the same slugs. |
| `Passes.MixStep` | src/index.ts:220-221 | Doing one page moves the pass one page on. |
| `Passes.MixNext` | src/index.ts:220-221 | A space with all its pages done is a space done. |
| `Passes.MixEnds` | src/index.ts:220-221 | A pass not yet started is the start; a pass past the last space is the end. |
| `Passes.SlugPages` | src/index.ts:391-393 | Setting slugs keeps what createSlug reads. |
| `Passes.Slugged` | src/index.ts:388-395 | setSlugs changes only slugs, nothing createSlug reads. |
| `Passes.SluggedPage` | src/index.ts:388-395 | After setSlugs, each page's slug is createSlug of its id in its space's key. |
| `Passes.SlugReady` | src/index.ts:390-392 | Mid-way through setSlugs, createSlug can run on the next page. |
| `Passes.SlugStep` | src/index.ts:392 | Setting the slug createSlug returns moves setSlugs one page on. |
| `Passes.SluggedIdempotent` | src/index.ts:388-395 | Running setSlugs a second time changes nothing. |
| `Passes.AlterPages` | src/index.ts:221-272 | Rewriting bodies keeps what createSlug reads. |
| `Passes.Altered` | src/index.ts:218-274 | alterBody changes nothing createSlug reads. |
| `Passes.AlterReady` | src/index.ts:220-222 | Mid-way through alterBody, every parent chain still ends. |
| `Passes.AlterStep` | src/index.ts:222-271 | Rewriting the next page against the current graph moves alterBody one page on. |
| `Passes.AlteredKeepsSlugs` | src/index.ts:218-274 | createSlug answers the same after alterBody as before it. |
| `Passes.SlugsThenAlter` | src/index.ts:51-58 | setSlugs and alterBody commute: neither reads what the other writes. |
| `Source.ConfluenceSource.constructor` | src/index.ts:23-24 | The source keeps its options and library functions and starts with no spaces. |
| `Source.ConfluenceSource.GetSpaces` | src/index.ts:78-118 | The stored spaces are those of the selector when it is set, else the global spaces of the listing. |
| `Source.ConfluenceSource.GetHomepage` | src/index.ts:120-143 | The pass succeeds exactly when pushing every homepage, stopping at the first throw, succeeds, and the graph is then the result. |
| `Source.ConfluenceSource.GetParentPages` | src/index.ts:145-169 | Every routable top-level page is pushed, unroutable ones are skipped, and `ok` says whether all were routable. |
| `Source.ConfluenceSource.PushParents` | src/index.ts:153-166 | The pushes of one listing follow those of the earlier listings; `routed` says whether all of them were routable. |
| `Source.ConfluenceSource.PushRouted` | src/index.ts:156-165 | A page is appended to the space it names exactly when that space exists. |
| `Source.ConfluenceSource.CollectPageIds` | src/index.ts:180-184 | The first frontier is every page id of every space, space by space. |
| `Source.ConfluenceSource.ChildPass` | src/index.ts:190-214 | One pass keeps the invariant of the walk; on success every child of every request is present; on a throw some child named no known space. |
| `Source.ConfluenceSource.ChildListing` | src/index.ts:193-213 | The callbacks for one listing keep the invariant and, on success, leave all of its children present. |
| `Source.ConfluenceSource.ChildEntry` | src/index.ts:194-211 | One callback keeps the invariant and leaves its child present. |
| `Source.ConfluenceSource.GetChildPages` | src/index.ts:171-216 | The graph only grows by child pages with new ids taken from responses; on success every child of every page is present; on a throw some child names no known space. |
| `Source.ConfluenceSource.ChildRound` | src/index.ts:186-215 | One turn of the outer loop keeps the walk's invariant and either grows the graph or ends the walk. |
| `Source.ConfluenceSource.CreateSlug` | src/index.ts:397-417 | The loop returns the slug of the page's parent chain in the first space with that key. |
| `Source.ConfluenceSource.SetSlugs` | src/index.ts:388-395 | After the pass the graph is `Slugged` of the graph before it. |
| `Source.ConfluenceSource.SlugSpace` | src/index.ts:391-393 | The pages of one space get their slugs, one after the other. |
| `Source.ConfluenceSource.LinkElements` | src/index.ts:223-235 | The link loop gives the link pass, with slugs from createSlug in the page's space. |
| `Source.ConfluenceSource.HeadingElements` | src/index.ts:244-254 | The heading loop sets every heading's id and gives the anchor list. |
| `Source.ConfluenceSource.ImageElements` | src/index.ts:257-269 | The image loop gives the image pass over the page's attachments and the base URL. |
| `Source.ConfluenceSource.RewriteBody` | src/index.ts:222-271 | One page is rewritten as `RewritePage` states, over the current graph. |
| `Source.ConfluenceSource.AlterBody` | src/index.ts:218-274 | After the pass the graph is `Altered` of the graph before it. |
| `Source.ConfluenceSource.AlterSpace` | src/index.ts:221-272 | The pages of one space are rewritten, one after the other. |
| `Source.ConfluenceSource.CreateDownloadLinks` | src/index.ts:276-321 | The records of all image entries of all listings are pushed in order, unroutable ones skipped; `ok` says whether all were routable. |
| `Source.ConfluenceSource.FileListing` | src/index.ts:289-318 | The callbacks of one listing follow those of the earlier listings, each drawing the next name. |
| `Source.ConfluenceSource.FileEntry` | src/index.ts:290-316 | One callback pushes its record when it is an image, and `routed` is false when its space is unknown. |
| `Source.ConfluenceSource.CollectPending` | src/index.ts:328-334 | The work list is every record not yet downloaded, once each, in graph order. |
| `Source.ConfluenceSource.DownloadBatch` | src/index.ts:338-373 | A batch sends `BatchSize` requests and marks exactly `Marks`, changing nothing else. |
| `Source.ConfluenceSource.Answer` | src/index.ts:358-371 | One answer marks the entry it goes to when it is not null. |
| `Source.ConfluenceSource.BatchUrls` | src/index.ts:339-350 | The requests of a batch are the download URLs of the first 100 entries, at most, in list order. |
| `Source.ConfluenceSource.DownloadAttachments` | src/index.ts:323-386 | The loop ends with every record downloaded, changes only `downloaded` flags, and sends no request exactly when nothing was pending. |
| `Source.ConfluenceSource.CreateNodes` | src/index.ts:430-455 | Each collection gains the pages of its kind, in graph order. |
| `Source.ConfluenceSource.AddSpaces` | src/index.ts:432-454 | The loop over the spaces adds each space's pages, in order. |
| `Source.ConfluenceSource.AddPages` | src/index.ts:433-453 | The pages of one space go to their collections, in order. |

## Left out

- HTTP, authentication, `axios-retry` and the rate limiter: each endpoint is a function parameter. A failed download is `fetch(batch, url) == false`, standing for the `null` that `GetAttachment` returns.
- Filesystem effects: emptying the static folder, creating the space folders, and writing the downloaded streams. Logging and `console` output.
- `Promise.all` fan-out: each phase runs its callbacks one after the other, in request order.
- The random names of `nanoid(10)`: the parameter `names(t)` stands for the `t`-th draw.
- `slugify`, `path.parse(..).ext` and the HTML parser and serialiser are opaque functions.
- Markup.FirstParagraphLinks, Markup.LinkPassKeepsText: in the program, an internal link inside the first `<p>` is replaced with markup built from the link's entity-decoded `text`. When that text holds an entity (`&amp;`, `&nbsp;`), the paragraph's `rawText` changes, and so does the description cut from it. In the flat element list a link and a paragraph are separate elements, so this case is not modelled.
- A body is a flat list of the elements the rewriter selects, in document order. Nesting is not modelled: nothing captures a link inside a heading or the first `<p>` being nested deeper. The heading and paragraph texts stand for `rawText`.
- `toLowerCase` lowers the ASCII letters only.
- Text.Take, Markup.DescriptionSpec, Markup.Describe: lengths are counted in Unicode scalar values, not in UTF-16 code units as `substr` counts them. A first paragraph with characters outside the Basic Multilingual Plane (emoji) gets a longer description in the model than in the program, and the program's cut through a surrogate pair has no counterpart here.
- `loadSource` is not one member. Its passes are separate methods, and the model proves that setSlugs and alterBody commute (`Passes.SlugsThenAlter`). The `download_images` switch and the early return when `validateConfig` fails are not modelled as code.
- A throw inside a `.then` callback (getHomepage, getChildPages) makes the method return `ok == false` and stop. A throw inside an `async` callback (getParentPages, createDownloadLinks) is an unhandled rejection: that callback alone fails and the others run. The model returns the combined `ok` flag.
- `Source.ConfluenceSource.CreateSlug`: requires that the walk from the page stops. On a cyclic `parent_page` chain the source loops forever.
- `Source.ConfluenceSource.SetSlugs`, `Source.ConfluenceSource.AlterBody`: require every parent chain of every space to end, for the same reason.
- `Source.ConfluenceSource.GetChildPages`: requires a finite set of ids that holds every page id and every child of each of its ids. This is a termination argument; the source loops forever on an infinite tree.
- `Source.ConfluenceSource.DownloadAttachments`: requires a batch from which every request answers. The source loops forever when a download keeps failing.
- Attachments are not deduplicated by id: the code records an attachment once for every page listing that returns it, and the model does the same.
- `getCollection` on a name never registered: `Nodes.Store.AddNode` requires one of the three registered names. createNodes only ever uses those names.
