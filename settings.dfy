/** The two decisions taken on the plugin options alone: validateConfig and getTypeName. */
module Settings {
  import opened Types

  /**
   * validateConfig: the base URL is mandatory, and so are the credentials
   * unless the plugin runs against public content only.
   */
  function ValidateConfig(c: Config): (ok: bool)
    ensures c.baseUrl == "" ==> !ok
    ensures !c.publicOnly && (c.username == "" || c.password == "") ==> !ok
    ensures c.baseUrl != "" && (c.publicOnly || (c.username != "" && c.password != "")) ==> ok
  {
    if c.baseUrl == "" then false
    else if !c.publicOnly && (c.username == "" || c.password == "") then false
    else true
  }

  /** The prefix used for collection names: the configured one, or "Confluence" when it is absent or empty. */
  function Prefix(c: Config): string
  {
    if Truthy(c.prefix) then c.prefix.value else "Confluence"
  }

  /** getTypeName: the collection name for `name`. */
  function TypeName(c: Config, name: string): (r: string)
    ensures |r| > |name|
    ensures r[|r| - |name|..] == name
  {
    Prefix(c) + name
  }

  /** The three collections created before the crawl get three different names, whatever the prefix. */
  lemma CollectionNamesDistinct(c: Config)
    ensures TypeName(c, "Home") != TypeName(c, "Parent")
    ensures TypeName(c, "Home") != TypeName(c, "Child")
    ensures TypeName(c, "Parent") != TypeName(c, "Child")
  {
    assert |TypeName(c, "Home")| + 1 == |TypeName(c, "Child")|;
    assert |TypeName(c, "Child")| + 1 == |TypeName(c, "Parent")|;
  }

  /** With no usable prefix configured, names carry the default "Confluence" prefix. */
  lemma DefaultPrefix(c: Config, name: string)
    requires c.prefix == None || c.prefix == Some("")
    ensures TypeName(c, name) == "Confluence" + name
  {
  }

  /** A configured, non-empty prefix is put in front of the name as it is. */
  lemma CustomPrefix(c: Config, name: string)
    requires Truthy(c.prefix)
    ensures TypeName(c, name) == c.prefix.value + name
  {
  }
}
