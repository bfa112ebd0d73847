/**
 * Concrete cases the repository's tests pin down, proved on the model: the
 * file-name hint is ignored for a supported extension, and the integration
 * run import, append, import.
 */
module ImportCases {
  import opened Wrappers
  import opened Strings
  import opened PathInfo
  import opened Documents
  import opened JobEntity
  import opened ParserFactory
  import opened Repository
  import opened ImportService
  import RegionsJobXml
  import JobTeaserJson

  const MisnamedXml: string := "jobteaser-export" + "." + "xml"

  lemma MisnamedXmlExtension()
    ensures Lower(Extension(MisnamedXml)) == "xml"
  {
    SplitNameExt("jobteaser-export", "xml");
    LowerKeepsLowerCase("xml");
  }

  lemma MisnamedXmlFileName()
    ensures FileName(MisnamedXml) == "jobteaser-export"
  {
    SplitNameExt("jobteaser-export", "xml");
  }

  lemma ExportNameIsLowerCase()
    ensures Lower("jobteaser-export") == "jobteaser-export"
  {
    LowerKeepsLowerCase("jobteaser-export");
  }

  lemma MisnamedXmlSearchedName()
    ensures SearchedName(MisnamedXml) == "jobteaser-export"
  {
    MisnamedXmlFileName();
    ExportNameIsLowerCase();
  }

  lemma MisnamedXmlNameMatches()
    ensures Contains("jobteaser-export", "jobteaser")
    ensures !Contains("jobteaser-export", "regionsjob")
  {
    var name := "jobteaser-export";
    assert OccursAt(name, "jobteaser", 0);
    forall i | 0 <= i <= |name| - 10 ensures !OccursAt(name, "regionsjob", i) {
      assert name[i] != 'r';
    }
  }

  /**
   * With no partner, an `.xml` file named after JobTeaser still gets the XML
   * parser: the file name is consulted only when the extension is unsupported,
   * although a file-name search alone would pick the JSON parser.
   */
  lemma ExtensionWinsOverFileName(content: FileContent)
    ensures CreateParser(MisnamedXml, None, content) == Success(XmlParser)
    ensures CreateFromFile(MisnamedXml) == Success(JsonParser)
  {
    MisnamedXmlExtension();
    MisnamedXmlSearchedName();
    MisnamedXmlNameMatches();
  }

  const XmlPath: string := "regionsjob_sample" + "." + "xml"
  const JsonPath: string := "jobteaser_sample" + "." + "json"

  /** A RegionsJob `<item>` carrying all six children. */
  function XmlItemOf(ref: string, title: string, description: string, url: string, company: string,
                     date: string): XmlItem {
    XmlItem(Some(ref), Some(title), Some("<p>Nous recherchons un " + description + ".</p>"), Some(url),
            Some(company), Some(date))
  }

  /** A JobTeaser offer carrying all six keys. */
  function OfferOf(ref: string, title: string, description: string, path: string, company: string,
                   date: string): JsonOffer {
    JsonOffer(Some(ref), Some(title), Some("Nous recherchons un " + description + "."), Some(path),
              Some(company), Some(date))
  }

  /**
   * `regionsjob_sample.xml`, with the references, titles, companies and the
   * first item's URL and date the parser's tests assert. The descriptions are
   * stand-ins holding the phrase the tests look for in the first one, and the
   * second item's URL and date are stand-ins.
   */
  function XmlFixture(): FileInfo {
    FileInfo(true, 512, FileContent(
      Failure("Syntax error"),
      Some(XmlDocument([
        XmlItemOf("TEST001", "Développeur PHP Senior (H/F)", "développeur PHP Senior",
                  "http://www.regionsjob.com/test/TEST001", "TechCorp", "2024/01/15"),
        XmlItemOf("TEST002", "Analyste Fonctionnel (H/F)", "analyste fonctionnel",
                  "http://www.regionsjob.com/test/TEST002", "DataSoft", "2024/01/16")]))))
  }

  /**
   * `jobteaser_sample.json`, with the references, titles, companies and the
   * first offer's full URL and date the parser's tests assert. The descriptions
   * are stand-ins holding the phrase the tests look for in the first one. The
   * split of the URL between prefix and path, and the second offer's path and
   * date, are stand-ins too.
   */
  function JsonFixture(): FileInfo {
    FileInfo(true, 512, FileContent(
      Success(JsonDocument(Some("http://www.jobteaser.com"), Some([
        OfferOf("JT001", "Chef de Projet Digital (H/F)", "chef de projet digital", "/test/offer-1", "WebAgency", "Mon Jan 15 10:30:00 CET 2024"),
        OfferOf("JT002", "Data Scientist Senior (H/F)", "data scientist senior", "/test/offer-2", "FinanceAI", "Tue Jan 16 09:00:00 CET 2024")]))),
      None))
  }

  /** The fixtures directory holding the two files. */
  function Fixtures(): FileSystem {
    map[XmlPath := XmlFixture(), JsonPath := JsonFixture()]
  }

  lemma FixtureFiles()
    ensures XmlPath in Fixtures() && Fixtures()[XmlPath] == XmlFixture()
    ensures JsonPath in Fixtures() && Fixtures()[JsonPath] == JsonFixture()
  {
    assert XmlPath[0] != JsonPath[0];
  }

  lemma XmlFixtureExtension()
    ensures Lower(Extension(XmlPath)) == "xml"
  {
    SplitNameExt("regionsjob_sample", "xml");
    LowerKeepsLowerCase("xml");
  }

  lemma JsonFixtureExtension()
    ensures Lower(Extension(JsonPath)) == "json"
  {
    SplitNameExt("jobteaser_sample", "json");
    LowerKeepsLowerCase("json");
  }

  lemma XmlFixtureSelected()
    ensures ValidateFile(Fixtures(), XmlPath) == Pass
    ensures CreateParser(XmlPath, None, Fixtures()[XmlPath].content) == Success(XmlParser)
  {
    FixtureFiles();
    XmlFixtureExtension();
  }

  lemma XmlFixtureRecords()
    ensures RegionsJobXml.ParseResult(Fixtures(), XmlPath).Success?
    ensures |RegionsJobXml.ParseResult(Fixtures(), XmlPath).value| == 2
    ensures RegionsJobXml.ParseResult(Fixtures(), XmlPath).value[0].reference == "TEST001"
    ensures RegionsJobXml.ParseResult(Fixtures(), XmlPath).value[0].companyName == "TechCorp"
  {
    FixtureFiles();
    assert ReadFile(Fixtures(), XmlPath) == Some(XmlFixture().content);
  }

  lemma XmlFixtureParsed()
    ensures Parsed(Fixtures(), XmlPath, None).Success? && |Parsed(Fixtures(), XmlPath, None).value| == 2
    ensures Parsed(Fixtures(), XmlPath, None).value[0].reference == "TEST001"
    ensures Parsed(Fixtures(), XmlPath, None).value[0].companyName == "TechCorp"
  {
    XmlFixtureSelected();
    FixtureFiles();
    SelectedParserDecides(Fixtures(), XmlPath, None, XmlParser);
    XmlFixtureRecords();
  }

  lemma JsonFixtureSelected()
    ensures ValidateFile(Fixtures(), JsonPath) == Pass
    ensures CreateParser(JsonPath, None, Fixtures()[JsonPath].content) == Success(JsonParser)
  {
    FixtureFiles();
    JsonFixtureExtension();
  }

  lemma JsonFixtureRecords()
    ensures JobTeaserJson.ParseResult(Fixtures(), JsonPath).Success?
    ensures |JobTeaserJson.ParseResult(Fixtures(), JsonPath).value| == 2
    ensures JobTeaserJson.ParseResult(Fixtures(), JsonPath).value[0].reference == "JT001"
    ensures JobTeaserJson.ParseResult(Fixtures(), JsonPath).value[1].reference == "JT002"
  {
    FixtureFiles();
    assert ReadFile(Fixtures(), JsonPath) == Some(JsonFixture().content);
  }

  lemma JsonFixtureParsed()
    ensures Parsed(Fixtures(), JsonPath, None).Success? && |Parsed(Fixtures(), JsonPath, None).value| == 2
    ensures Parsed(Fixtures(), JsonPath, None).value[0].reference == "JT001"
    ensures Parsed(Fixtures(), JsonPath, None).value[1].reference == "JT002"
  {
    JsonFixtureSelected();
    FixtureFiles();
    SelectedParserDecides(Fixtures(), JsonPath, None, JsonParser);
    JsonFixtureRecords();
  }

  /**
   * Import the XML fixture, append the JSON one, import the JSON one again:
   * two rows, then four, then only the two JobTeaser rows.
   */
  method ImportAppendImport() returns (imported: nat, total: nat, replaced: nat, references: seq<string>)
    ensures imported == 2 && total == 4 && replaced == 2
    ensures references == ["JT001", "JT002"]
  {
    XmlFixtureParsed();
    JsonFixtureParsed();
    var repository := new MySqlJobRepository();
    var service := new JobImportService(repository);
    var first := service.Import(Fixtures(), XmlPath, None, None);
    imported := first.value;
    var second := service.Append(Fixtures(), JsonPath, None, None);
    total := service.GetTotalJobs();
    var third := service.Import(Fixtures(), JsonPath, None, None);
    replaced := service.GetTotalJobs();
    var stored := Records(repository.rows);
    references := [stored[0].reference, stored[1].reference];
  }
}
