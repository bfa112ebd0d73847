/** `JobParserFactory`: which parser handles a file. */
module ParserFactory {
  import opened Wrappers
  import opened Errors
  import opened Strings
  import opened PathInfo
  import opened Documents

  /** The two parser classes the registries name. */
  datatype ParserKind = XmlParser | JsonParser

  /** An ordered constant registry, as a PHP array literal with string keys. */
  type Registry = seq<(string, ParserKind)>

  /** `$parsers`: partner name to parser. */
  const Partners: Registry := [("regionsjob", XmlParser), ("jobteaser", JsonParser)]

  /** `$defaultParsers`: file extension to parser. */
  const DefaultParsers: Registry := [("xml", XmlParser), ("json", JsonParser)]

  /** The keys of a registry are distinct, as the keys of a PHP array are. */
  predicate DistinctKeys(reg: Registry) {
    forall i, j :: 0 <= i < j < |reg| ==> reg[i].0 != reg[j].0
  }

  /** Both registries are PHP arrays: no key appears twice. */
  lemma RegistriesHaveDistinctKeys()
    ensures DistinctKeys(Partners) && DistinctKeys(DefaultParsers)
  {
    assert Partners[0].0[0] != Partners[1].0[0];
    assert DefaultParsers[0].0[0] != DefaultParsers[1].0[0];
  }

  /** `array_keys`: the registry's keys in order. */
  function KeysOf(reg: Registry): (r: seq<string>)
    ensures |r| == |reg| && forall i :: 0 <= i < |reg| ==> r[i] == reg[i].0
  {
    seq(|reg|, i requires 0 <= i < |reg| => reg[i].0)
  }

  /** `isset($reg[$key]) ? $reg[$key] : null`, the first entry under `key`. */
  function Lookup(reg: Registry, key: string): (r: Option<ParserKind>)
    ensures r.Some? <==> key in KeysOf(reg)
    ensures r.Some? ==> exists i :: 0 <= i < |reg| && reg[i] == (key, r.value)
  {
    if |reg| == 0 then None
    else if reg[0].0 == key then
      assert reg[0] == (key, reg[0].1);
      Some(reg[0].1)
    else
      assert KeysOf(reg) == [reg[0].0] + KeysOf(reg[1..]);
      var r := Lookup(reg[1..], key);
      if r.Some? then
        var i :| 0 <= i < |reg[1..]| && reg[1..][i] == (key, r.value);
        assert reg[i + 1] == (key, r.value);
        r
      else
        r
  }

  /** `create`: the parser registered for `partner`, with no other lookup. */
  function Create(partner: string): (r: Result<ParserKind, Error>)
    ensures r.Success? <==> partner in SupportedPartners()
    ensures partner == "regionsjob" ==> r == Success(XmlParser)
    ensures partner == "jobteaser" ==> r == Success(JsonParser)
    ensures r.Failure? ==> r.error == UnsupportedPartner(partner)
  {
    match Lookup(Partners, partner)
    case None => Failure(UnsupportedPartner(partner))
    case Some(kind) => Success(kind)
  }

  /** `createByExtension`: the default parser for `extension`, matched exactly as given. */
  function CreateByExtension(extension: string): (r: Result<ParserKind, Error>)
    ensures r.Success? <==> extension in SupportedExtensions()
    ensures extension == "xml" ==> r == Success(XmlParser)
    ensures extension == "json" ==> r == Success(JsonParser)
    ensures r.Failure? ==> r.error == UnsupportedExtension(extension)
  {
    match Lookup(DefaultParsers, extension)
    case None => Failure(UnsupportedExtension(extension))
    case Some(kind) => Success(kind)
  }

  /** `getSupportedPartners`: the keys `create` accepts, in registry order. */
  function SupportedPartners(): (r: seq<string>)
    ensures r == ["regionsjob", "jobteaser"]
  {
    KeysOf(Partners)
  }

  /** `getSupportedExtensions`: the keys `createByExtension` accepts, in registry order. */
  function SupportedExtensions(): (r: seq<string>)
    ensures r == ["xml", "json"]
  {
    KeysOf(DefaultParsers)
  }

  /** The first key, in order, that is a substring of `name`. */
  function FirstContained(keys: seq<string>, name: string): (r: Option<nat>)
    ensures r.None? <==> forall i :: 0 <= i < |keys| ==> !Contains(name, keys[i])
    ensures r.Some? ==> r.value < |keys| && Contains(name, keys[r.value])
    ensures r.Some? ==> forall i :: 0 <= i < r.value ==> !Contains(name, keys[i])
  {
    if |keys| == 0 then None
    else if Contains(name, keys[0]) then Some(0)
    else
      match FirstContained(keys[1..], name)
      case None => None
      case Some(i) => Some(i + 1)
  }

  /** The lower-cased file name without its extension, as `createFromFile` searches it. */
  function SearchedName(path: string): (r: string)
    ensures |r| == |FileName(path)|
    ensures forall i :: 0 <= i < |r| ==> !IsUpper(r[i])
  {
    Lower(FileName(path))
  }

  /**
   * `createFromFile`: the first partner whose name is contained in the
   * lower-cased file name (extension stripped), else the default parser for
   * the lower-cased extension.
   */
  function CreateFromFile(path: string): (r: Result<ParserKind, Error>)
    ensures Contains(SearchedName(path), "regionsjob") ==> r == Success(XmlParser)
    ensures !Contains(SearchedName(path), "regionsjob") && Contains(SearchedName(path), "jobteaser")
            ==> r == Success(JsonParser)
    ensures !Contains(SearchedName(path), "regionsjob") && !Contains(SearchedName(path), "jobteaser")
            ==> r == CreateByExtension(Lower(Extension(path)))
  {
    var filename := SearchedName(path);
    var partners := SupportedPartners();
    match FirstContained(partners, filename)
    case Some(i) =>
      assert i == 0 || i == 1;
      Create(partners[i])
    case None =>
      assert !Contains(filename, partners[0]) && !Contains(filename, partners[1]);
      CreateByExtension(Lower(Extension(path)))
  }

  /** The JSON marker: `isset($data['offerUrlPrefix'])` on the decoded file. */
  predicate HasOfferUrlPrefix(content: FileContent)
    ensures HasOfferUrlPrefix(content) ==> content.json.Success?
  {
    content.json.Success? && content.json.value.offerUrlPrefix.Some?
  }

  /**
   * The XML marker: `isset($xml->item) && isset($xml->item->ref)`, which looks
   * at the root's FIRST `<item>` child only.
   */
  predicate HasItemRef(content: FileContent)
    ensures HasItemRef(content) ==>
              content.xml.Some? && exists i :: 0 <= i < |content.xml.value.items| && content.xml.value.items[i].ref.Some?
  {
    content.xml.Some? && |content.xml.value.items| > 0 && content.xml.value.items[0].ref.Some?
  }

  /**
   * The XML marker is decided by the first `<item>` alone: items after it,
   * with or without `<ref>`, change nothing.
   */
  lemma ItemSniffSeesFirstItemOnly(json: Result<JsonDocument, string>, first: XmlItem, rest: seq<XmlItem>)
    ensures HasItemRef(FileContent(json, Some(XmlDocument([first] + rest)))) <==> first.ref.Some?
  {
    assert ([first] + rest)[0] == first;
  }

  /**
   * `createFromContent`: a `.json` file with the JSON marker gives the
   * `jobteaser` parser, a `.xml` file with the XML marker the `regionsjob`
   * parser, and otherwise the default parser for the lower-cased extension;
   * the file name is never consulted.
   */
  function CreateFromContent(path: string, content: FileContent): (r: Result<ParserKind, Error>)
    ensures Lower(Extension(path)) == "json" && HasOfferUrlPrefix(content) ==> r == Create("jobteaser")
    ensures Lower(Extension(path)) == "xml" && HasItemRef(content) ==> r == Create("regionsjob")
    ensures r == CreateByExtension(Lower(Extension(path)))
  {
    var extension := Lower(Extension(path));
    if extension == "json" && HasOfferUrlPrefix(content) then
      Create("jobteaser")
    else if extension == "xml" && HasItemRef(content) then
      Create("regionsjob")
    else
      CreateByExtension(extension)
  }
}
