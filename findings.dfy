/**
 * Concrete runs of `import` against a table holding one row, where the
 * storage layer faults on the first insert of a one-offer JobTeaser file.
 */
module ImportFaultScenario {
  import opened Wrappers
  import opened Documents
  import opened JobEntity
  import opened Repository
  import opened ImportService
  import ParserFactory

  const FeedPath: string := "feed.json"

  /** A readable, non-empty JobTeaser file holding one offer. */
  function Feed(): FileSystem {
    var offer := JsonOffer(Some("JT001"), Some("Dev"), None, Some("/1"), Some("WebAgency"), Some("2024-01-01"));
    map[FeedPath := FileInfo(true, 64, FileContent(Success(JsonDocument(Some("http://x"), Some([offer]))), None))]
  }

  /** The feed parses, with the partner given, to exactly one record. */
  lemma FeedParsed()
    ensures Parsed(Feed(), FeedPath, Some("jobteaser")).Success?
    ensures |Parsed(Feed(), FeedPath, Some("jobteaser")).value| == 1
  {
    var fs := Feed();
    assert ValidateFile(fs, FeedPath) == Pass;
    assert ParserFactory.Create("jobteaser") == Success(ParserFactory.JsonParser);
    assert ReadFile(fs, FeedPath) == Some(fs[FeedPath].content);
  }

  /** As written: the fault leaves the table empty although it held a row before. */
  method ImportFaultEmptiesStore() returns (before: nat, after: nat)
    ensures before == 1 && after == 0
  {
    var repository := new MySqlJobRepository();
    repository.Save(Job("OLD", "", "", "", "", "", None));
    var service := new JobImportService(repository);
    before := service.GetTotalJobs();
    FeedParsed();
    var r := service.Import(Feed(), FeedPath, Some("jobteaser"), Some(0));
    after := service.GetTotalJobs();
  }

  /** Corrected: the same fault leaves the row that was there. */
  method ImportAtomicFaultKeepsStore() returns (before: nat, after: nat)
    ensures before == 1 && after == 1
  {
    var repository := new MySqlJobRepository();
    repository.Save(Job("OLD", "", "", "", "", "", None));
    var service := new JobImportService(repository);
    before := service.GetTotalJobs();
    FeedParsed();
    var r := service.ImportAtomic(Feed(), FeedPath, Some("jobteaser"), Some(0));
    after := service.GetTotalJobs();
  }
}
