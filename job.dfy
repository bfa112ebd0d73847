/** The canonical job-offer record and its array form. */
module JobEntity {
  import opened Wrappers

  /** A job offer; `id` is set only on records read back from the repository. */
  datatype Job = Job(
    reference: string,
    title: string,
    description: string,
    url: string,
    companyName: string,
    publishedDate: string,
    id: Option<int>)

  /** `new Job(...)` without the optional `id` argument. */
  function NewJob(reference: string, title: string, description: string, url: string,
                  companyName: string, publishedDate: string): (j: Job)
    ensures j.id == None
    ensures j.reference == reference && j.title == title && j.description == description
    ensures j.url == url && j.companyName == companyName && j.publishedDate == publishedDate
  {
    Job(reference, title, description, url, companyName, publishedDate, None)
  }

  /** A value held in the PHP array produced by `toArray`. */
  datatype Value = NullValue | IntValue(i: int) | StringValue(s: string)

  /** A PHP associative array with string keys (its key order is not modelled). */
  type Entries = map<string, Value>

  function IdValue(id: Option<int>): Value {
    match id
    case None => NullValue
    case Some(n) => IntValue(n)
  }

  /** `Job::toArray`: the record keyed by the table's column names. */
  function ToArray(j: Job): (a: Entries)
    ensures a.Keys == {"id", "reference", "title", "description", "url", "company_name", "publication"}
  {
    map[
      "id" := IdValue(j.id),
      "reference" := StringValue(j.reference),
      "title" := StringValue(j.title),
      "description" := StringValue(j.description),
      "url" := StringValue(j.url),
      "company_name" := StringValue(j.companyName),
      "publication" := StringValue(j.publishedDate)]
  }

  function GetString(a: Entries, key: string): Option<string> {
    if key in a && a[key].StringValue? then Some(a[key].s) else None
  }

  /**
   * Reads a record back from its array form: the inverse of `ToArray`, used
   * here only to state what `ToArray` keeps.
   */
  function FromArray(a: Entries): Option<Job> {
    var id :=
      if "id" !in a then None
      else match a["id"]
        case NullValue => Some(None)
        case IntValue(n) => Some(Some(n))
        case StringValue(_) => None;
    var reference := GetString(a, "reference");
    var title := GetString(a, "title");
    var description := GetString(a, "description");
    var url := GetString(a, "url");
    var company := GetString(a, "company_name");
    var publication := GetString(a, "publication");
    if id.Some? && reference.Some? && title.Some? && description.Some? && url.Some?
       && company.Some? && publication.Some?
    then Some(Job(reference.value, title.value, description.value, url.value,
                  company.value, publication.value, id.value))
    else None
  }

  /** `toArray` loses nothing: every field, `id` included, is recovered from the array. */
  lemma ToArrayRoundTrip(j: Job)
    ensures FromArray(ToArray(j)) == Some(j)
  {
    ToArrayEntries(j);
  }

  /**
   * The two renamed keys: `company_name` holds `companyName` and `publication`
   * holds `publishedDate`; the other fields sit under their own names.
   */
  lemma ToArrayEntries(j: Job)
    ensures ToArray(j)["id"] == IdValue(j.id)
    ensures ToArray(j)["reference"] == StringValue(j.reference)
    ensures ToArray(j)["title"] == StringValue(j.title)
    ensures ToArray(j)["description"] == StringValue(j.description)
    ensures ToArray(j)["url"] == StringValue(j.url)
    ensures ToArray(j)["company_name"] == StringValue(j.companyName)
    ensures ToArray(j)["publication"] == StringValue(j.publishedDate)
  {
  }
}
