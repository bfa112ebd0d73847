/** `JobImportService`: validate, select a parser, parse, persist. */
module ImportService {
  import opened Wrappers
  import opened Errors
  import opened Strings
  import opened PathInfo
  import opened Documents
  import opened JobEntity
  import opened ParserFactory
  import JobTeaserJson
  import RegionsJobXml
  import opened Repository

  /**
   * `validateFile`: existence, then readability, then a non-zero size, each
   * failure with its own error.
   */
  function ValidateFile(fs: FileSystem, path: string): (r: Outcome<Error>)
    ensures r == Pass <==> path in fs && fs[path].readable && fs[path].size > 0
    ensures path !in fs ==> r == Fail(FileNotFound(path))
    ensures path in fs && !fs[path].readable ==> r == Fail(FileNotReadable(path))
    ensures path in fs && fs[path].readable && fs[path].size == 0 ==> r == Fail(FileEmpty(path))
  {
    if path !in fs then Fail(FileNotFound(path))
    else if !fs[path].readable then Fail(FileNotReadable(path))
    else if fs[path].size == 0 then Fail(FileEmpty(path))
    else Pass
  }

  /**
   * `createParser`: an explicit partner is looked up with no fallback;
   * otherwise content detection, and file-name detection only when content
   * detection throws.
   */
  function CreateParser(path: string, partner: Option<string>, content: FileContent): (r: Result<ParserKind, Error>)
    ensures partner.Some? ==> r == Create(partner.value)
    ensures partner.None? && Lower(Extension(path)) in SupportedExtensions() ==>
              r == CreateByExtension(Lower(Extension(path)))
    ensures partner.None? && Lower(Extension(path)) !in SupportedExtensions() ==>
              r == CreateFromFile(path)
  {
    match partner
    case Some(p) => Create(p)
    case None =>
      var detected := CreateFromContent(path, content);
      if detected.Failure? then CreateFromFile(path) else detected
  }

  /** What `$parser->parse($filepath)` returns or throws for the selected parser. */
  function ParseWith(kind: ParserKind, fs: FileSystem, path: string): (r: Result<seq<Job>, Error>)
    ensures r.Success? ==> forall i :: 0 <= i < |r.value| ==> r.value[i].id == None
  {
    match kind
    case XmlParser => RegionsJobXml.ParseResult(fs, path)
    case JsonParser => JobTeaserJson.ParseResult(fs, path)
  }

  /** The dynamic dispatch `$parser->parse($filepath)`. */
  method RunParser(kind: ParserKind, fs: FileSystem, path: string) returns (r: Result<seq<Job>, Error>)
    ensures r == ParseWith(kind, fs, path)
  {
    match kind
    case XmlParser => r := RegionsJobXml.Parse(fs, path);
    case JsonParser => r := JobTeaserJson.Parse(fs, path);
  }

  /** The records `import` and `append` obtain, or the error they throw before persisting. */
  function Parsed(fs: FileSystem, path: string, partner: Option<string>): (r: Result<seq<Job>, Error>)
    ensures r.Success? ==> ValidateFile(fs, path) == Pass && CreateParser(path, partner, fs[path].content).Success?
  {
    match ValidateFile(fs, path)
    case Fail(e) => Failure(e)
    case Pass =>
      match CreateParser(path, partner, fs[path].content)
      case Failure(e) => Failure(e)
      case Success(kind) => ParseWith(kind, fs, path)
  }

  /** A file that passes validation goes, unchanged, to the parser that was selected for it. */
  lemma SelectedParserDecides(fs: FileSystem, path: string, partner: Option<string>, kind: ParserKind)
    requires ValidateFile(fs, path) == Pass
    requires path in fs && CreateParser(path, partner, fs[path].content) == Success(kind)
    ensures Parsed(fs, path, partner) == ParseWith(kind, fs, path)
  {
  }

  /** A file that fails validation is never handed to a parser: its error is the result. */
  lemma ValidationComesFirst(fs: FileSystem, path: string, partner: Option<string>)
    requires ValidateFile(fs, path).Fail?
    ensures Parsed(fs, path, partner) == Failure(ValidateFile(fs, path).error)
  {
  }

  /** Without a partner, selection fails exactly when the extension is unsupported and no partner name is in the file name. */
  lemma DetectionFailsOnlyWithoutAnyHint(path: string, content: FileContent)
    ensures CreateParser(path, None, content).Failure? <==>
              Lower(Extension(path)) !in SupportedExtensions()
              && !Contains(SearchedName(path), "regionsjob") && !Contains(SearchedName(path), "jobteaser")
    ensures CreateParser(path, None, content).Failure? ==>
              CreateParser(path, None, content).error == UnsupportedExtension(Lower(Extension(path)))
  {
  }

  /** Every record a parser returns is unsaved: it has no `id`. */
  lemma ParsedRecordsHaveNoId(fs: FileSystem, path: string, partner: Option<string>)
    requires Parsed(fs, path, partner).Success?
    ensures forall i :: 0 <= i < |Parsed(fs, path, partner).value| ==> Parsed(fs, path, partner).value[i].id == None
  {
    var kind := CreateParser(path, partner, fs[path].content).value;
    match kind
    case XmlParser =>
      var doc := fs[path].content.xml.value;
      assert Parsed(fs, path, partner).value == RegionsJobXml.DocumentJobs(doc);
    case JsonParser =>
      var doc := fs[path].content.json.value;
      assert Parsed(fs, path, partner).value == JobTeaserJson.DocumentJobs(doc);
  }

  class JobImportService {
    const repository: MySqlJobRepository

    constructor (repository: MySqlJobRepository)
      ensures this.repository == repository
    {
      this.repository := repository;
    }

    /**
     * `import`: replaces the stored set with the file's records. An empty
     * parse throws before the table is touched; `clear` runs outside the
     * `saveAll` transaction, so a fault while saving leaves the table empty.
     */
    method Import(fs: FileSystem, path: string, partner: Option<string>, failAt: Option<nat>)
      returns (r: Result<nat, Error>)
      requires repository.Valid()
      modifies repository
      ensures repository.Valid()
      ensures Parsed(fs, path, partner).Failure? ==>
                r == Failure(Parsed(fs, path, partner).error) && unchanged(repository)
      ensures Parsed(fs, path, partner) == Success([]) ==>
                r == Failure(NoJobsFound(path)) && unchanged(repository)
      ensures Parsed(fs, path, partner).Success? && Parsed(fs, path, partner).value != [] ==>
                var jobs := Parsed(fs, path, partner).value;
                if Faults(jobs, failAt) then
                  r == Failure(StorageFailure) && repository.rows == []
                  && repository.nextId == old(repository.nextId) + failAt.value
                else
                  r == Success(|jobs|) && repository.rows == NewRows(old(repository.nextId), jobs)
                  && repository.nextId == old(repository.nextId) + |jobs|
                  && Records(repository.rows) == jobs
    {
      var valid := ValidateFile(fs, path);
      if valid.Fail? {
        return Failure(valid.error);
      }
      var parser := CreateParser(path, partner, fs[path].content);
      if parser.Failure? {
        return Failure(parser.error);
      }
      var jobs := RunParser(parser.value, fs, path);
      if jobs.Failure? {
        return Failure(jobs.error);
      }
      if |jobs.value| == 0 {
        return Failure(NoJobsFound(path));
      }
      ParsedRecordsHaveNoId(fs, path, partner);
      RecordsOfNewRows(repository.nextId, jobs.value);
      repository.Clear();
      var saved := repository.SaveAll(jobs.value, failAt);
      if saved.Fail? {
        return Failure(saved.error);
      }
      r := Success(|jobs.value|);
    }

    /**
     * `import` with the replacement done by one transaction: a fault while
     * saving leaves the previous rows in place.
     */
    method ImportAtomic(fs: FileSystem, path: string, partner: Option<string>, failAt: Option<nat>)
      returns (r: Result<nat, Error>)
      requires repository.Valid()
      modifies repository
      ensures repository.Valid()
      ensures Parsed(fs, path, partner).Failure? ==>
                r == Failure(Parsed(fs, path, partner).error) && unchanged(repository)
      ensures Parsed(fs, path, partner) == Success([]) ==>
                r == Failure(NoJobsFound(path)) && unchanged(repository)
      ensures Parsed(fs, path, partner).Success? && Parsed(fs, path, partner).value != [] ==>
                var jobs := Parsed(fs, path, partner).value;
                if Faults(jobs, failAt) then
                  r == Failure(StorageFailure) && repository.rows == old(repository.rows)
                  && repository.nextId == old(repository.nextId) + failAt.value
                else
                  r == Success(|jobs|) && repository.rows == NewRows(old(repository.nextId), jobs)
                  && repository.nextId == old(repository.nextId) + |jobs|
                  && Records(repository.rows) == jobs
    {
      var valid := ValidateFile(fs, path);
      if valid.Fail? {
        return Failure(valid.error);
      }
      var parser := CreateParser(path, partner, fs[path].content);
      if parser.Failure? {
        return Failure(parser.error);
      }
      var jobs := RunParser(parser.value, fs, path);
      if jobs.Failure? {
        return Failure(jobs.error);
      }
      if |jobs.value| == 0 {
        return Failure(NoJobsFound(path));
      }
      ParsedRecordsHaveNoId(fs, path, partner);
      RecordsOfNewRows(repository.nextId, jobs.value);
      var saved := repository.ReplaceAll(jobs.value, failAt);
      if saved.Fail? {
        return Failure(saved.error);
      }
      r := Success(|jobs.value|);
    }

    /**
     * `append`: adds the file's records to the stored set. An empty parse is
     * not an error: it returns 0 and leaves the table alone.
     */
    method Append(fs: FileSystem, path: string, partner: Option<string>, failAt: Option<nat>)
      returns (r: Result<nat, Error>)
      requires repository.Valid()
      modifies repository
      ensures repository.Valid()
      ensures Parsed(fs, path, partner).Failure? ==>
                r == Failure(Parsed(fs, path, partner).error) && unchanged(repository)
      ensures Parsed(fs, path, partner) == Success([]) ==>
                r == Success(0) && unchanged(repository)
      ensures Parsed(fs, path, partner).Success? && Parsed(fs, path, partner).value != [] ==>
                var jobs := Parsed(fs, path, partner).value;
                if Faults(jobs, failAt) then
                  r == Failure(StorageFailure) && repository.rows == old(repository.rows)
                  && repository.nextId == old(repository.nextId) + failAt.value
                else
                  r == Success(|jobs|)
                  && repository.rows == old(repository.rows) + NewRows(old(repository.nextId), jobs)
                  && repository.nextId == old(repository.nextId) + |jobs|
                  && Records(repository.rows) == Records(old(repository.rows)) + jobs
    {
      var valid := ValidateFile(fs, path);
      if valid.Fail? {
        return Failure(valid.error);
      }
      var parser := CreateParser(path, partner, fs[path].content);
      if parser.Failure? {
        return Failure(parser.error);
      }
      var jobs := RunParser(parser.value, fs, path);
      if jobs.Failure? {
        return Failure(jobs.error);
      }
      if |jobs.value| == 0 {
        return Success(0);
      }
      ParsedRecordsHaveNoId(fs, path, partner);
      RecordsOfNewRows(repository.nextId, jobs.value);
      ghost var before := repository.rows;
      var saved := repository.SaveAll(jobs.value, failAt);
      if saved.Fail? {
        return Failure(saved.error);
      }
      RecordsAppend(before, NewRows(old(repository.nextId), jobs.value));
      r := Success(|jobs.value|);
    }

    /** `getTotalJobs`: the repository's `count`. */
    method GetTotalJobs() returns (n: nat)
      requires repository.Valid()
      ensures n == |repository.rows|
    {
      n := repository.Count();
    }

    /** `getAllJobs`: the repository's `findAll`. */
    method GetAllJobs() returns (jobs: seq<Job>)
      requires repository.Valid()
      ensures IsListing(repository.rows, jobs)
      ensures forall k :: 0 <= k < |jobs| ==> jobs[k].id.Some? && jobs[k].id.value >= 1
    {
      jobs := repository.FindAll();
    }

    /** `clearAllJobs`: the repository's `clear`. */
    method ClearAllJobs()
      requires repository.Valid()
      modifies repository
      ensures repository.Valid()
      ensures repository.rows == [] && repository.nextId == old(repository.nextId)
    {
      repository.Clear();
    }
  }
}
