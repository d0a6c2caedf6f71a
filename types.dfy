/**
 * The records of the content graph built by the Confluence source plugin
 * (src/interface/confluence.ts) and the shapes of the REST responses it reads.
 */
module Types {

  datatype Option<+T> = None | Some(value: T)

  /** Taking a whole sequence gives the sequence back. */
  lemma TakeAll<T>(s: seq<T>)
    ensures s[..|s|] == s
  {
  }

  /** JavaScript truthiness of an optional string: present and not empty. */
  predicate Truthy(o: Option<string>)
  {
    o.Some? && o.value != ""
  }

  /** The plugin options (IConfig). Optional strings are `None` when absent. */
  datatype Config = Config(
    username: string,
    password: string,
    baseUrl: string,
    spaceKey: Option<string>,
    prefix: Option<string>,
    debug: bool,
    publicOnly: bool,
    rateLimit: bool,
    downloadImages: bool)

  datatype SpaceType = Personal | Global

  /** One entry of the "space" endpoint, expanded with its homepage. */
  datatype SpaceInfo = SpaceInfo(key: string, kind: SpaceType, homepageId: string, homepageTitle: string)

  /** One content item as returned by the content endpoints (body.view, space, labels expanded). */
  datatype Content = Content(
    id: string,
    title: string,
    spaceKey: string,
    body: string,
    labels: seq<string>,
    position: int)

  /** One entry of the "child/attachment" endpoint. */
  datatype AttachmentInfo = AttachmentInfo(
    title: string,
    spaceKey: string,
    fileId: string,
    fileSize: int,
    downloadLink: string)

  /** IAnchor: one heading of a page body. */
  datatype Anchor = Anchor(title: string, anchor: string, position: nat, headingSize: string)

  /** A page of a space. Fields the source leaves undefined until a later pass are options. */
  datatype Page = Page(
    id: string,
    space: string,
    title: string,
    body: string,
    description: Option<string>,
    slug: Option<string>,
    homepage: bool,
    anchor: Option<seq<Anchor>>,
    parentPage: Option<string>,
    labels: seq<string>,
    position: int)

  /** IAttachment: one image to download. */
  datatype Attachment = Attachment(
    id: string,
    contentId: string,
    path: string,
    fileName: string,
    downloadLink: string,
    downloaded: bool,
    fileSize: int,
    spaceKey: string)

  /** ISpaces: a space with the pages and attachments collected so far. */
  datatype Space = Space(
    key: string,
    contentId: string,
    title: string,
    pages: seq<Page>,
    attachments: seq<Attachment>)

  /** A space as created by space discovery: nothing collected yet. */
  function NewSpace(info: SpaceInfo): (s: Space)
    ensures s.pages == [] && s.attachments == []
    ensures s.key == info.key && s.contentId == info.homepageId && s.title == info.homepageTitle
  {
    Space(info.key, info.homepageId, info.homepageTitle, [], [])
  }

  /** The page pushed by getHomepage: flagged as homepage, no parent. */
  function HomePage(c: Content): (p: Page)
    ensures p.homepage && p.parentPage == None
    ensures p.id == c.id && p.space == c.spaceKey && p.title == c.title && p.body == c.body
  {
    Page(c.id, c.spaceKey, c.title, c.body, None, None, true, None, None, c.labels, c.position)
  }

  /** The page pushed by getParentPages: neither homepage nor parented. */
  function ParentPage(c: Content): (p: Page)
    ensures !p.homepage && p.parentPage == None
    ensures p.id == c.id && p.space == c.spaceKey && p.title == c.title && p.body == c.body
  {
    Page(c.id, c.spaceKey, c.title, c.body, None, None, false, None, None, c.labels, c.position)
  }

  /** The page pushed by getChildPages, parented to the id taken from the request URL. */
  function ChildPage(c: Content, parent: string): (p: Page)
    ensures !p.homepage && p.parentPage == Some(parent)
    ensures p.id == c.id && p.space == c.spaceKey && p.title == c.title && p.body == c.body
  {
    Page(c.id, c.spaceKey, c.title, c.body, None, None, false, None, Some(parent), c.labels, c.position)
  }
}
