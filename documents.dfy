/**
 * What the import pipeline sees of a file: the file-system predicates and the
 * values `json_decode($content, true)` and `simplexml_load_file` give for it.
 * The decoders themselves are not modelled; their outcomes are data.
 */
module Documents {
  import opened Wrappers

  /** One element of the JSON `offers` array; `None` is a missing key or a `null` value. */
  datatype JsonOffer = JsonOffer(
    reference: Option<string>,
    title: Option<string>,
    description: Option<string>,
    urlPath: Option<string>,
    companyname: Option<string>,
    publishedDate: Option<string>)

  /** The decoded top-level JSON object: its `offerUrlPrefix` and `offers` entries. */
  datatype JsonDocument = JsonDocument(offerUrlPrefix: Option<string>, offers: Option<seq<JsonOffer>>)

  /**
   * One `<item>` child of the XML root: the text of its first child element of
   * each name, `None` when it has no such child. SimpleXML has already unwrapped
   * CDATA sections, so the text is what the element holds, markup included.
   */
  datatype XmlItem = XmlItem(
    ref: Option<string>,
    title: Option<string>,
    description: Option<string>,
    url: Option<string>,
    company: Option<string>,
    pubDate: Option<string>)

  /** The loaded XML root element, reduced to its `<item>` children in document order. */
  datatype XmlDocument = XmlDocument(items: seq<XmlItem>)

  /**
   * The file's text as the two decoders see it: `json_decode` either yields a
   * document or leaves an error message in `json_last_error_msg()`;
   * `simplexml_load_file` either yields a root element or `false` (`None`).
   */
  datatype FileContent = FileContent(json: Result<JsonDocument, string>, xml: Option<XmlDocument>)

  /** An existing file: `is_readable`, `filesize` and its content. */
  datatype FileInfo = FileInfo(readable: bool, size: nat, content: FileContent)

  /** The file system: a path that is not a key does not exist (`file_exists` is false). */
  type FileSystem = map<string, FileInfo>

  /** `file_get_contents`: the content, or `None` (PHP's `false`) when the file is missing or unreadable. */
  function ReadFile(fs: FileSystem, path: string): (r: Option<FileContent>)
    ensures r.Some? <==> path in fs && fs[path].readable
    ensures r.Some? ==> r.value == fs[path].content
  {
    if path in fs && fs[path].readable then Some(fs[path].content) else None
  }
}
