/** `RegionsJobXmlParser`: a loaded RegionsJob XML document to job records. */
module RegionsJobXml {
  import opened Wrappers
  import opened Errors
  import opened Documents
  import opened JobEntity

  /**
   * The record built for one `<item>`: `ref` to `reference`, `title`,
   * `description`, `url`, `company` to `companyName`, `pubDate` to
   * `publishedDate`; each child present is copied verbatim (markup included),
   * each child missing becomes `""`, independently of the others.
   */
  function ItemToJob(item: XmlItem): (j: Job)
    ensures j.id == None
    ensures item.ref.Some? ==> j.reference == item.ref.value
    ensures item.ref.None? ==> j.reference == ""
    ensures item.title.Some? ==> j.title == item.title.value
    ensures item.title.None? ==> j.title == ""
    ensures item.description.Some? ==> j.description == item.description.value
    ensures item.description.None? ==> j.description == ""
    ensures item.url.Some? ==> j.url == item.url.value
    ensures item.url.None? ==> j.url == ""
    ensures item.company.Some? ==> j.companyName == item.company.value
    ensures item.company.None? ==> j.companyName == ""
    ensures item.pubDate.Some? ==> j.publishedDate == item.pubDate.value
    ensures item.pubDate.None? ==> j.publishedDate == ""
  {
    NewJob(
      item.ref.GetOr(""),
      item.title.GetOr(""),
      item.description.GetOr(""),
      item.url.GetOr(""),
      item.company.GetOr(""),
      item.pubDate.GetOr(""))
  }

  /** The records of a loaded document, one per `<item>`, in document order. */
  function DocumentJobs(doc: XmlDocument): (jobs: seq<Job>)
    ensures |jobs| == |doc.items|
    ensures forall i :: 0 <= i < |jobs| ==> jobs[i] == ItemToJob(doc.items[i])
  {
    seq(|doc.items|, i requires 0 <= i < |doc.items| => ItemToJob(doc.items[i]))
  }

  /**
   * What `parse` returns or throws for the file at `path`: `simplexml_load_file`
   * gives `false` for a missing or unreadable file as for malformed XML.
   */
  function ParseResult(fs: FileSystem, path: string): (r: Result<seq<Job>, Error>)
    ensures r.Failure? <==> ReadFile(fs, path).None? || fs[path].content.xml.None?
    ensures r.Failure? ==> r.error == MalformedXml(path)
    ensures r.Success? ==> |r.value| == |fs[path].content.xml.value.items|
    ensures r.Success? ==> forall i :: 0 <= i < |r.value| ==> r.value[i].id == None
  {
    match ReadFile(fs, path)
    case None => Failure(MalformedXml(path))
    case Some(content) =>
      match content.xml
      case None => Failure(MalformedXml(path))
      case Some(doc) => Success(DocumentJobs(doc))
  }

  /** `parse`: load, then build one record per `<item>` child of the root. */
  method Parse(fs: FileSystem, path: string) returns (r: Result<seq<Job>, Error>)
    ensures r == ParseResult(fs, path)
    ensures r.Failure? <==> ReadFile(fs, path).None? || fs[path].content.xml.None?
  {
    var content := ReadFile(fs, path);
    if content.None? || content.value.xml.None? {
      return Failure(MalformedXml(path));
    }
    var xml := content.value.xml.value;
    var jobs: seq<Job> := [];
    var i := 0;
    while i < |xml.items|
      invariant 0 <= i <= |xml.items|
      invariant |jobs| == i
      invariant forall k :: 0 <= k < i ==> jobs[k] == ItemToJob(xml.items[k])
    {
      jobs := jobs + [ItemToJob(xml.items[i])];
      i := i + 1;
    }
    assert jobs == DocumentJobs(xml);
    r := Success(jobs);
  }

  /** A root without `<item>` children parses to no records, not to an error. */
  lemma NoItemsGivesNoRecords()
    ensures DocumentJobs(XmlDocument([])) == []
  {
  }

  /** An `<item>` with none of the six children gives a record of empty strings. */
  lemma EmptyItemDefaults()
    ensures ItemToJob(XmlItem(None, None, None, None, None, None)) == Job("", "", "", "", "", "", None)
  {
  }

  /** A RegionsJob document publishing `jobs`: each `<item>` carries all six children. */
  function Encode(jobs: seq<Job>): XmlDocument {
    XmlDocument(seq(|jobs|, i requires 0 <= i < |jobs| =>
      XmlItem(Some(jobs[i].reference), Some(jobs[i].title), Some(jobs[i].description),
              Some(jobs[i].url), Some(jobs[i].companyName), Some(jobs[i].publishedDate))))
  }

  /** Parsing gives back exactly the records a document was built from, when none has an id. */
  lemma EncodeRoundTrip(jobs: seq<Job>)
    requires forall i :: 0 <= i < |jobs| ==> jobs[i].id == None
    ensures DocumentJobs(Encode(jobs)) == jobs
  {
    var parsed := DocumentJobs(Encode(jobs));
    assert forall i :: 0 <= i < |jobs| ==> parsed[i] == jobs[i];
  }
}
