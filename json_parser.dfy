/** `JobTeaserJsonParser`: a decoded JobTeaser JSON document to job records. */
module JobTeaserJson {
  import opened Wrappers
  import opened Errors
  import opened Documents
  import opened JobEntity

  /** `$data['offerUrlPrefix'] ?? ''`. */
  function UrlPrefix(doc: JsonDocument): (r: string)
    ensures doc.offerUrlPrefix.Some? ==> r == doc.offerUrlPrefix.value
    ensures doc.offerUrlPrefix.None? ==> r == ""
  {
    doc.offerUrlPrefix.GetOr("")
  }

  /** `$data['offers'] ?? []`. */
  function Offers(doc: JsonDocument): (r: seq<JsonOffer>)
    ensures doc.offers.Some? ==> r == doc.offers.value
    ensures doc.offers.None? ==> r == []
  {
    doc.offers.GetOr([])
  }

  /**
   * The record built for one offer: each key present is copied, each key
   * missing becomes `""`, independently of the others; the URL is the prefix
   * followed by the path.
   */
  function OfferToJob(prefix: string, offer: JsonOffer): (j: Job)
    ensures j.id == None
    ensures offer.reference.Some? ==> j.reference == offer.reference.value
    ensures offer.reference.None? ==> j.reference == ""
    ensures offer.title.Some? ==> j.title == offer.title.value
    ensures offer.title.None? ==> j.title == ""
    ensures offer.description.Some? ==> j.description == offer.description.value
    ensures offer.description.None? ==> j.description == ""
    ensures offer.urlPath.Some? ==> j.url == prefix + offer.urlPath.value
    ensures offer.urlPath.None? ==> j.url == prefix
    ensures offer.companyname.Some? ==> j.companyName == offer.companyname.value
    ensures offer.companyname.None? ==> j.companyName == ""
    ensures offer.publishedDate.Some? ==> j.publishedDate == offer.publishedDate.value
    ensures offer.publishedDate.None? ==> j.publishedDate == ""
  {
    NewJob(
      offer.reference.GetOr(""),
      offer.title.GetOr(""),
      offer.description.GetOr(""),
      prefix + offer.urlPath.GetOr(""),
      offer.companyname.GetOr(""),
      offer.publishedDate.GetOr(""))
  }

  /** The records of a decoded document, one per offer, in order. */
  function DocumentJobs(doc: JsonDocument): (jobs: seq<Job>)
    ensures |jobs| == |Offers(doc)|
    ensures forall i :: 0 <= i < |jobs| ==> jobs[i] == OfferToJob(UrlPrefix(doc), Offers(doc)[i])
  {
    var offers := Offers(doc);
    seq(|offers|, i requires 0 <= i < |offers| => OfferToJob(UrlPrefix(doc), offers[i]))
  }

  /**
   * What `parse` returns or throws for the file at `path`: a missing or
   * unreadable file and a file that does not decode are errors, and a
   * decoded document gives one id-less record per offer.
   */
  function ParseResult(fs: FileSystem, path: string): (r: Result<seq<Job>, Error>)
    ensures ReadFile(fs, path).None? ==> r == Failure(UnreadableFile(path))
    ensures ReadFile(fs, path).Some? && fs[path].content.json.Failure? ==>
              r == Failure(MalformedJson(fs[path].content.json.error))
    ensures r.Success? <==> ReadFile(fs, path).Some? && fs[path].content.json.Success?
    ensures r.Success? ==> |r.value| == |Offers(fs[path].content.json.value)|
    ensures r.Success? ==> forall i :: 0 <= i < |r.value| ==> r.value[i].id == None
  {
    match ReadFile(fs, path)
    case None => Failure(UnreadableFile(path))
    case Some(content) =>
      match content.json
      case Failure(reason) => Failure(MalformedJson(reason))
      case Success(doc) => Success(DocumentJobs(doc))
  }

  /** `parse`: read, decode, then build one record per offer. */
  method Parse(fs: FileSystem, path: string) returns (r: Result<seq<Job>, Error>)
    ensures r == ParseResult(fs, path)
    ensures ReadFile(fs, path).None? ==> r == Failure(UnreadableFile(path))
  {
    var content := ReadFile(fs, path);
    if content.None? {
      return Failure(UnreadableFile(path));
    }
    var data := content.value.json;
    if data.Failure? {
      return Failure(MalformedJson(data.error));
    }
    var jobs: seq<Job> := [];
    var urlPrefix := UrlPrefix(data.value);
    var offers := Offers(data.value);
    var i := 0;
    while i < |offers|
      invariant 0 <= i <= |offers|
      invariant |jobs| == i
      invariant forall k :: 0 <= k < i ==> jobs[k] == OfferToJob(urlPrefix, offers[k])
    {
      jobs := jobs + [OfferToJob(urlPrefix, offers[i])];
      i := i + 1;
    }
    assert jobs == DocumentJobs(data.value);
    r := Success(jobs);
  }

  /** A document without an `offers` key parses to no records, not to an error. */
  lemma MissingOffersGivesNoRecords(prefix: Option<string>)
    ensures DocumentJobs(JsonDocument(prefix, None)) == []
  {
  }

  /** An offer with no keys at all gives a record of empty strings whose URL is the prefix. */
  lemma EmptyOfferDefaults(prefix: string)
    ensures OfferToJob(prefix, JsonOffer(None, None, None, None, None, None))
            == Job("", "", "", prefix, "", "", None)
  {
  }

  /** A document without `offerUrlPrefix` keeps each offer's path, as it is, as its URL. */
  lemma MissingPrefixKeepsPath(offers: seq<JsonOffer>)
    ensures forall i :: 0 <= i < |offers| ==>
              DocumentJobs(JsonDocument(None, Some(offers)))[i].url == offers[i].urlPath.GetOr("")
  {
    var doc := JsonDocument(None, Some(offers));
    assert UrlPrefix(doc) == "";
    forall i | 0 <= i < |offers|
      ensures DocumentJobs(doc)[i].url == offers[i].urlPath.GetOr("")
    {
      assert DocumentJobs(doc)[i] == OfferToJob("", offers[i]);
    }
  }

  /**
   * A JobTeaser document publishing `jobs` under `prefix`: each offer carries
   * every field, and the URL past the prefix as its path.
   */
  function Encode(prefix: string, jobs: seq<Job>): (doc: JsonDocument)
    requires forall i :: 0 <= i < |jobs| ==> |prefix| <= |jobs[i].url|
  {
    JsonDocument(Some(prefix), Some(seq(|jobs|, i requires 0 <= i < |jobs| =>
      JsonOffer(Some(jobs[i].reference), Some(jobs[i].title), Some(jobs[i].description),
                Some(jobs[i].url[|prefix|..]), Some(jobs[i].companyName), Some(jobs[i].publishedDate)))))
  }

  /**
   * Parsing gives back exactly the records a document was built from, when
   * every URL starts with the document's prefix and no record has an id.
   */
  lemma EncodeRoundTrip(prefix: string, jobs: seq<Job>)
    requires forall i :: 0 <= i < |jobs| ==> |prefix| <= |jobs[i].url| && jobs[i].url[..|prefix|] == prefix
    requires forall i :: 0 <= i < |jobs| ==> jobs[i].id == None
    ensures DocumentJobs(Encode(prefix, jobs)) == jobs
  {
    var parsed := DocumentJobs(Encode(prefix, jobs));
    forall i | 0 <= i < |jobs| ensures parsed[i] == jobs[i] {
      assert jobs[i].url == prefix + jobs[i].url[|prefix|..];
    }
  }
}
