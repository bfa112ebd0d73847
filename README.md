# Job-offer import pipeline, modelled in Dafny

This project models the core of a small PHP application that imports job offers published by two partners:
RegionsJob, which publishes XML, and JobTeaser, which publishes JSON. It also proves properties of that model.
The pipeline has four parts:

- **Parser selection** (`JobParserFactory`). Two constant registries map a partner name or a file extension to a
  parser. Four entry points use them: lookup by partner, lookup by extension, a first-match substring search of
  the lower-cased file name, and content sniffing with a fallback to the extension.
- **The two format parsers**. Each turns a decoded document into a sequence of `Job` records. A missing field
  becomes `""`. The JSON parser builds each URL as the document's prefix followed by the offer's path.
- **The repository** (`MySqlJobRepository`). This is the `job` table, held in memory as a sequence of rows plus an
  auto-increment counter. `saveAll` is all-or-nothing. `findAll` returns the rows ordered by `publication`
  descending.
- **The import service** (`JobImportService`). It validates the file, selects a parser, parses the file, and then
  either replaces the stored set (`import`) or adds to it (`append`). The `JobsLister` delegations sit beside it.

Modules and files:

| file | module | models |
|---|---|---|
| wrappers.dfy | `Wrappers` | `Option` (PHP `null`, `??`), `Result`/`Outcome` (thrown exceptions) |
| errors.dfy | `Errors` | the exceptions thrown and their messages |
| strings.dfy | `Strings` | `strtolower`, `str_contains`, and the string order used by `ORDER BY` |
| pathinfo.dfy | `PathInfo` | `pathinfo` base name, file name and extension |
| documents.dfy | `Documents` | the file system and the values `json_decode` and `simplexml_load_file` return |
| job.dfy | `JobEntity` | `Job` and `toArray` |
| factory.dfy | `ParserFactory` | `JobParserFactory` |
| json_parser.dfy | `JobTeaserJson` | `JobTeaserJsonParser` |
| xml_parser.dfy | `RegionsJobXml` | `RegionsJobXmlParser` |
| repository.dfy | `Repository` | `MySqlJobRepository` |
| service.dfy | `ImportService` | `JobImportService` |
| lister.dfy | `Lister` | `JobsLister` |
| cases.dfy | `ImportCases` | concrete cases from the repository's tests |
| findings.dfy | `ImportFaultScenario` | the concrete run behind the finding below |

How the outside world is represented:

- **The file system** is a `map` from path to `FileInfo(readable, size, content)`. A path that is not a key does
  not exist.
- **A file's content** is what the two decoders make of it. `json_decode` either gives an offers document or an
  error message. `simplexml_load_file` either gives the root's `<item>` children or `false`.
- **Storage faults** are injected. `failAt: Option<nat>` is the index of the `INSERT` that throws, if the batch
  gets that far.
- **Exceptions** are `Failure`/`Fail` values that carry an `Errors.Error`.

Where the code and a plain reading of its design differ, the model follows the code:

- **Detection order.** The file-name search runs only when content detection throws
  (src/Service/JobImportService.php:109-115). Content detection throws only for an unsupported extension. When
  the content sniff is inconclusive, `createFromContent` goes straight to the extension
  (src/Factory/JobParserFactory.php:122) and never looks at the file name. So with the current registries the
  sniff never changes the outcome: `createFromContent` always returns `createByExtension` of the lower-cased
  extension (`ParserFactory.CreateFromContent`). A `.xml` file named after JobTeaser gets the XML parser
  (`ImportCases.ExtensionWinsOverFileName`).
- **The XML sniff** `isset($xml->item->ref)` looks only at the root's first `<item>` child
  (`ParserFactory.ItemSniffSeesFirstItemOnly`).
- **`clear` in `import`** runs outside the `saveAll` transaction. A storage fault during `import` therefore
  leaves the table empty (see "## Findings").

## Model

| member | source | states |
|---|---|---|
| `Strings.Lower` | src/Factory/JobParserFactory.php:75-76 | `strtolower` keeps the length, lowers each ASCII capital, and leaves no capital behind |
| `Strings.LowerKeepsLowerCase` | src/Factory/JobParserFactory.php:75-76 | a string without ASCII capitals is unchanged by `strtolower` |
| `Strings.Contains` | src/Factory/JobParserFactory.php:80 | `str_contains` is true exactly when the needle occurs at some position of the haystack |
| `Strings.LastIndexOf` | src/Factory/JobParserFactory.php:75-76 | finds the last occurrence of a character, and finds none exactly when the character is absent |
| `Strings.LexLe` | src/Repository/MySqlJobRepository.php:66 | the string order `ORDER BY publication` uses: code point by code point, with a proper prefix first |
| `Strings.LexLePrefix` | src/Repository/MySqlJobRepository.php:66 | a string sorts at or before every string it is a prefix of |
| `Strings.LexLeTotal` | src/Repository/MySqlJobRepository.php:66 | any two publication strings are comparable under the `ORDER BY` order |
| `Strings.LexLeTransitive` | src/Repository/MySqlJobRepository.php:66 | the `ORDER BY` order is transitive |
| `Strings.LexLeAntisymmetric` | src/Repository/MySqlJobRepository.php:66 | two strings that each sort at or before the other are equal |
| `PathInfo.BaseName` | src/Factory/JobParserFactory.php:75 | the base name is the suffix of the path after its last `/` and contains no `/` |
| `PathInfo.FileName` | src/Factory/JobParserFactory.php:75 | `PATHINFO_FILENAME` is a prefix of the base name |
| `PathInfo.Extension` | src/Factory/JobParserFactory.php:76 | the extension contains no `.` and no `/` |
| `PathInfo.BaseNameSplits` | src/Factory/JobParserFactory.php:75-76 | file name + `.` + extension rebuilds the base name; with no `.`, the file name is the base name and the extension is `""` |
| `PathInfo.SplitNameExt` | src/Factory/JobParserFactory.php:75-76 | for a path without `/` of the form name `.` ext, where ext has no `.`: the base name is the whole path, the file name is name (dots included) and the extension is ext |
| `JobEntity.NewJob` | src/Entity/Job.php:9-18 | a `Job` built without an id has `id = null` and keeps the six strings given |
| `JobEntity.ToArray` | src/Entity/Job.php:20-31 | `toArray` has exactly the keys id, reference, title, description, url, company_name, publication |
| `JobEntity.ToArrayEntries` | src/Entity/Job.php:23-29 | `company_name` holds companyName and `publication` holds publishedDate; id, reference, title, description and url are copied under their own names |
| `JobEntity.ToArrayRoundTrip` | src/Entity/Job.php:20-31 | `toArray` loses nothing: the record, id included, is recovered from the array |
| `Documents.ReadFile` | src/Parser/JobTeaserJsonParser.php:13-16 | `file_get_contents` succeeds exactly for an existing, readable file, and then gives that file's content |
| `Errors.Message` | src/Service/JobImportService.php:126-136 | every thrown message ends with the value it names (the partner, extension, path or decoder message), after a non-empty lead; the lead texts are the throw sites' sentences, written out in `Message`; the other throw sites are JobParserFactory.php:42 and :59, JobTeaserJsonParser.php:15 and :20, RegionsJobXmlParser.php:15 and JobImportService.php:35 |
| `ParserFactory.Lookup` | src/Factory/JobParserFactory.php:41-45 | a registry lookup succeeds exactly for the registry's keys and returns that key's entry |
| `ParserFactory.Partners` | src/Factory/JobParserFactory.php:16-22 | the partner registry: `regionsjob` → XML parser, then `jobteaser` → JSON parser |
| `ParserFactory.DefaultParsers` | src/Factory/JobParserFactory.php:27-30 | the extension registry: `xml` → XML parser, then `json` → JSON parser |
| `ParserFactory.RegistriesHaveDistinctKeys` | src/Factory/JobParserFactory.php:16-30 | no key appears twice in either registry, as in a PHP array, so the first-match lookup is the array lookup |
| `ParserFactory.KeysOf` | src/Factory/JobParserFactory.php:132 | `array_keys` of a registry: its keys, in registry order |
| `ParserFactory.Create` | src/Factory/JobParserFactory.php:39-47 | `create` succeeds exactly for the supported partners: `regionsjob` gives the XML parser and `jobteaser` the JSON parser; otherwise it fails with "Partenaire non supporté" for that name |
| `ParserFactory.CreateByExtension` | src/Factory/JobParserFactory.php:56-64 | `xml` gives the XML parser and `json` the JSON parser; anything else, matched case-sensitively, fails with "Extension non supportée" |
| `ParserFactory.SupportedPartners` | src/Factory/JobParserFactory.php:130-133 | the partner keys in registry order, `regionsjob` then `jobteaser` |
| `ParserFactory.SupportedExtensions` | src/Factory/JobParserFactory.php:140-143 | the extension keys in registry order, `xml` then `json` |
| `ParserFactory.FirstContained` | src/Factory/JobParserFactory.php:79-83 | returns the first key, in order, contained in the name; returns none exactly when no key is contained |
| `ParserFactory.SearchedName` | src/Factory/JobParserFactory.php:75 | the searched name has one character per character of `PATHINFO_FILENAME` and no ASCII capital |
| `ParserFactory.CreateFromFile` | src/Factory/JobParserFactory.php:73-87 | a lower-cased file name containing `regionsjob` gives XML, even if it also contains `jobteaser`; otherwise `jobteaser` gives JSON; otherwise the result is `createByExtension` of the lower-cased extension |
| `ParserFactory.HasOfferUrlPrefix` | src/Factory/JobParserFactory.php:104 | the JSON marker can only hold for a file that decodes |
| `ParserFactory.HasItemRef` | src/Factory/JobParserFactory.php:116 | when the XML marker holds, the file loads and some `<item>` has a `<ref>` |
| `ParserFactory.ItemSniffSeesFirstItemOnly` | src/Factory/JobParserFactory.php:116 | `$xml->item->ref` looks only at the first `<item>`: the marker holds exactly when that item has a `<ref>`, whatever the later items hold |
| `ParserFactory.CreateFromContent` | src/Factory/JobParserFactory.php:95-123 | a `.json` file with `offerUrlPrefix` gives `create('jobteaser')`; a `.xml` file whose first item has a `ref` gives `create('regionsjob')`; in every case the result equals `createByExtension` of the lower-cased extension, so the file name is never consulted |
| `JobTeaserJson.OfferToJob` | src/Parser/JobTeaserJsonParser.php:27-34 | each field is handled on its own: `reference`, `title`, `description`, `companyname` and `publishedDate` are copied when the key is present and become `""` when it is missing; the url is the prefix followed by `urlPath`, or the prefix alone when `urlPath` is missing; the record has no id |
| `JobTeaserJson.UrlPrefix` | src/Parser/JobTeaserJsonParser.php:24 | `offerUrlPrefix` when present, `""` otherwise |
| `JobTeaserJson.Offers` | src/Parser/JobTeaserJsonParser.php:26 | `offers` when present, no offers otherwise |
| `JobTeaserJson.DocumentJobs` | src/Parser/JobTeaserJsonParser.php:23-35 | one record per element of `offers` (default none), the i-th built from the i-th offer |
| `JobTeaserJson.ParseResult` | src/Parser/JobTeaserJsonParser.php:11-38 | a missing or unreadable file gives "Impossible de lire le fichier"; a file that does not decode gives "Erreur de parsing JSON" with the decoder's message; it succeeds exactly when the file is read and decodes, and then gives one id-less record per offer |
| `JobTeaserJson.Parse` | src/Parser/JobTeaserJsonParser.php:11-38 | the read, decode and `foreach` loop return exactly `JobTeaserJson.ParseResult` |
| `JobTeaserJson.MissingOffersGivesNoRecords` | src/Parser/JobTeaserJsonParser.php:26 | a document without `offers` gives the empty sequence, not an error |
| `JobTeaserJson.EmptyOfferDefaults` | src/Parser/JobTeaserJsonParser.php:28-33 | an offer with no keys gives empty strings, with the url equal to the prefix |
| `JobTeaserJson.MissingPrefixKeepsPath` | src/Parser/JobTeaserJsonParser.php:24-31 | with no `offerUrlPrefix`, each record's url is the offer's `urlPath` as it is (`""` when missing) |
| `JobTeaserJson.EncodeRoundTrip` | src/Parser/JobTeaserJsonParser.php:23-35 | parsing a document built from id-less records whose urls start with the prefix gives back exactly those records |
| `RegionsJobXml.ItemToJob` | src/Parser/RegionsJobXmlParser.php:20-27 | each child is handled on its own: `ref` → reference, `title`, `description`, `url`, `company` → companyName and `pubDate` → publishedDate are copied verbatim (markup included) when present and become `""` when missing; the record has no id |
| `RegionsJobXml.DocumentJobs` | src/Parser/RegionsJobXmlParser.php:19-28 | one record per `<item>` child of the root, in document order |
| `RegionsJobXml.ParseResult` | src/Parser/RegionsJobXmlParser.php:11-31 | fails with "Impossible de parser le fichier XML" exactly when the file cannot be read or loaded; otherwise one id-less record per `<item>` |
| `RegionsJobXml.Parse` | src/Parser/RegionsJobXmlParser.php:11-31 | the load and `foreach` loop return exactly `RegionsJobXml.ParseResult`, and fail exactly when the file cannot be read or loaded |
| `RegionsJobXml.NoItemsGivesNoRecords` | src/Parser/RegionsJobXmlParser.php:19 | a root without `<item>` children gives the empty sequence, not an error |
| `RegionsJobXml.EmptyItemDefaults` | src/Parser/RegionsJobXmlParser.php:21-26 | an item with none of the six children gives empty strings |
| `RegionsJobXml.EncodeRoundTrip` | src/Parser/RegionsJobXmlParser.php:19-28 | parsing a document built from id-less records gives back exactly those records |
| `Repository.JobFromRow` | src/Repository/MySqlJobRepository.php:71-79 | a fetched row becomes a job that carries the row's integer id, and writing that job back under the id gives the same row |
| `Repository.JobsOf` | src/Repository/MySqlJobRepository.php:69-80 | the fetch loop: one job per fetched row, in fetch order, the i-th rebuilt from the i-th row |
| `Repository.NewRows` | src/Repository/MySqlJobRepository.php:43-52 | the rows the insert loop creates: one per job, in order, under consecutive keys from the counter's value |
| `Repository.Listing` | src/Repository/MySqlJobRepository.php:61-83 | one result `findAll` may give: the stable sort, one job per stored row, ties in table order; `Repository.ListingIsOrdered` shows it is a valid listing |
| `Repository.RowFor` | src/Repository/MySqlJobRepository.php:18-30 | the `INSERT` writes the given key and the job's six strings, dropping nothing but the job's own id |
| `Repository.SortByPublicationDesc` | src/Repository/MySqlJobRepository.php:63-67 | `ORDER BY` returns as many rows as the table holds (permutation and order: `Repository.SortByPublicationDescSorted`) |
| `Repository.RecordsOfNewRows` | src/Repository/MySqlJobRepository.php:43-52 | inserting id-less records stores exactly those records, in order |
| `Repository.SortByPublicationDescSorted` | src/Repository/MySqlJobRepository.php:63-67 | the `ORDER BY publication DESC` result is a permutation of the rows, sorted non-increasing by publication |
| `Repository.ListingIsOrdered` | src/Repository/MySqlJobRepository.php:61-83 | `Listing` meets `IsListing`: as many jobs as rows, one rebuilt job per stored row (a permutation), in non-increasing publication order |
| `Repository.MySqlJobRepository.Save` | src/Repository/MySqlJobRepository.php:16-31 | appends exactly one row holding the job's six strings under the counter's value, a key above every key already in the table; the counter goes up by one and the earlier rows are unchanged |
| `Repository.MySqlJobRepository.InsertEach` | src/Repository/MySqlJobRepository.php:43-52 | the insert loop appends one row per job, in order, up to the faulting index |
| `Repository.MySqlJobRepository.SaveAll` | src/Repository/MySqlJobRepository.php:33-59 | on success, appends one row per job in order (none for an empty batch); on a fault, rolls the table back to exactly its state before the call and rethrows |
| `Repository.MySqlJobRepository.ReplaceAll` | src/Service/JobImportService.php:39-40 | the corrected replace-all: the `DELETE` and the inserts in one transaction; on success the table holds exactly one row per job, and on a fault it is rolled back to its previous rows |
| `Repository.MySqlJobRepository.FindAll` | src/Repository/MySqlJobRepository.php:61-83 | `IsListing`: every stored row exactly once as a job, sorted non-increasing by publication, with ties in no promised order; every job has a positive id |
| `Repository.MySqlJobRepository.Clear` | src/Repository/MySqlJobRepository.php:85-88 | empties the table; the key counter is not reset |
| `Repository.MySqlJobRepository.Count` | src/Repository/MySqlJobRepository.php:90-94 | the number of stored rows, which is also the length of `findAll` |
| `ImportService.ValidateFile` | src/Service/JobImportService.php:124-137 | checks in order: missing gives "n'existe pas", unreadable gives "n'est pas lisible", size 0 gives "est vide"; passes otherwise |
| `ImportService.CreateParser` | src/Service/JobImportService.php:102-116 | an explicit partner gives `create(partner)` with no fallback; with none, a supported extension decides alone, and only an unsupported one falls to `createFromFile` |
| `ImportService.RunParser` | src/Service/JobImportService.php:32 | the selected parser's result |
| `ImportService.ParseWith` | src/Service/JobImportService.php:32 | the selected parser's result; every record it gives has no id |
| `ImportService.Parsed` | src/Service/JobImportService.php:26-32 | the validate, select and parse steps `import` and `append` share (also :54-58): records come only after validation passes and a parser is selected |
| `ImportService.ValidationComesFirst` | src/Service/JobImportService.php:26-32 | a file that fails validation is never parsed; the validation error is the result |
| `ImportService.SelectedParserDecides` | src/Service/JobImportService.php:26-32 | a file that passes validation goes to the selected parser, whose result is the result |
| `ImportService.DetectionFailsOnlyWithoutAnyHint` | src/Service/JobImportService.php:109-115 | without a partner, selection fails exactly when the extension is unsupported and no partner name is in the file name, and the error is "Extension non supportée" |
| `ImportService.ParsedRecordsHaveNoId` | src/Service/JobImportService.php:32 | every record a parser returns has no id |
| `ImportService.JobImportService.Import` | src/Service/JobImportService.php:24-43 | a validation, selection or parse failure, or an empty parse ("Aucun job trouvé"), leaves the table unchanged; a fault while saving leaves it empty; success returns the count, and the table then holds exactly the parsed records |
| `ImportService.JobImportService.ImportAtomic` | src/Service/JobImportService.php:24-43 | the corrected `import`: the same, except that a fault while saving leaves the previous rows in place |
| `ImportService.JobImportService.Append` | src/Service/JobImportService.php:52-67 | failures leave the table unchanged; an empty parse returns 0 with no write; success keeps every previous row and appends one per record, returning the count |
| `ImportService.JobImportService.GetTotalJobs` | src/Service/JobImportService.php:72-75 | the number of stored rows |
| `ImportService.JobImportService.GetAllJobs` | src/Service/JobImportService.php:82-85 | what `findAll` promises: a listing of the stored rows by publication descending, with positive ids |
| `ImportService.JobImportService.ClearAllJobs` | src/Service/JobImportService.php:90-93 | empties the table |
| `Lister.JobsLister.List` | src/Lister/JobsLister.php:21-24 | what `findAll` promises: a listing of the stored rows by publication descending, with positive ids; the repository is not modified |
| `Lister.ArraysOf` | src/Lister/JobsLister.php:35-37 | `array_map` of `toArray`: one array per job, in order, the i-th being `toArray` of the i-th job |
| `Lister.JobsLister.ListAsArray` | src/Lister/JobsLister.php:31-38 | as many arrays as rows, and they are `ArraysOf` some valid listing of the rows (`IsListing`), the order `findAll` returns |
| `Lister.JobsLister.Count` | src/Lister/JobsLister.php:43-46 | the repository's count |
| `ImportCases.ExtensionWinsOverFileName` | src/Service/JobImportService.php:109-115 | with no partner, `jobteaser-export.xml` gets the XML parser, although a file-name search alone would pick JSON |
| `ImportCases.XmlFixtureParsed` | tests/Unit/Service/JobImportServiceTest.php:36-46 | with no partner, the RegionsJob fixture passes validation, gets the XML parser and gives two records, the first with reference TEST001 and company TechCorp |
| `ImportCases.JsonFixtureParsed` | tests/Unit/Service/JobImportServiceTest.php:59-69 | with no partner, the JobTeaser fixture gets the JSON parser and gives two records, JT001 then JT002 |
| `ImportCases.ImportAppendImport` | tests/Integration/JobImportIntegrationTest.php:45-91 | importing the two-item XML fixture, appending the two-offer JSON fixture, then importing the JSON fixture gives 2, then 4, then 2 rows holding only JT001 and JT002 |
| `ImportFaultScenario.ImportFaultEmptiesStore` | src/Service/JobImportService.php:39-40 | with `import` as written, a table of one row, and a fault on the first insert, the table ends with 0 rows |
| `ImportFaultScenario.ImportAtomicFaultKeepsStore` | src/Service/JobImportService.php:39-40 | with the corrected `import`, the same run leaves the one row |

## Left out

- Decoder internals: the JSON grammar behind `json_decode` and XML well-formedness and CDATA unwrapping behind
  `simplexml_load_file` are not modelled. Their results are data: `Documents.FileContent`.
- Non-string JSON values are not modelled. Offer values and `offerUrlPrefix` are strings or absent. A decoded
  top level that is not an array needs no case of its own: both `??` defaults apply and `isset` is false, so it
  is the document `JsonDocument(None, None)`, which parses to no records (`JobTeaserJson.MissingOffersGivesNoRecords`).
  An `offers` value that is not an array makes `foreach` warn and also gives no records. The model has no such
  value: it is the same outcome as a missing `offers`.
- Real file-system predicates: `file_exists`, `is_readable`, `filesize` and `file_get_contents` read a
  `Documents.FileSystem` map. Clocks, races between validation and reading, and PHP warnings are not modelled.
- `ParserFactory.CreateFromContent` takes the file's content as an argument instead of reading it. On an
  unreadable `.json` file, the source passes `false` to `json_decode` and fails with a `TypeError`. That case is
  not modelled, because the service validates readability first.
- `PathInfo.BaseName`: PHP's `basename` also strips trailing slashes. The model takes the text after the last
  `/`.
- Strings are sequences of code points. MySQL and SQLite collations are not modelled: `ORDER BY` is a
  code-point lexicographic order.
- The database's choice among rows with equal publications is not modelled. `FindAll`'s body keeps table order
  for ties (`Repository.Listing`), but its contract, and those of `GetAllJobs`, `List` and `ListAsArray`,
  promise only `Repository.IsListing`: the permutation and the order, as `ORDER BY publication DESC` does.
- `Repository.MySqlJobRepository.Save`: a failing single `INSERT` is not modelled. Faults are injected only
  into `saveAll`.
- `Repository.MySqlJobRepository.SaveAll`: the keys used by rolled-back inserts are not reused, as with InnoDB
  auto-increment. SQLite would reuse them.
- The PDO connection and `DatabaseConnectionFactory` are not part of this model. Nor are the console command
  and its output (`ImportCommand`, `public/index.php`), the test runner and demo scripts, and the performance
  tests.
- Dynamic instantiation (`new $parserClass()`) is modelled as the `ParserFactory.ParserKind` tag, with dispatch
  in `ImportService.RunParser`.
- `JobEntity.ToArray` returns a map from key to value, so the order of the keys in PHP's associative array is not modelled. The key set and each key's value are.
- `Errors.Message` gives no text for a storage fault, because the driver's own message is not modelled.
- Concurrency: the pipeline is single-threaded, and concurrent writers are not modelled.

## Findings

| source | as written | input that shows it | evidently intended | confidence | as-written member | corrected member |
|---|---|---|---|---|---|---|
| src/Service/JobImportService.php:39-40 | `import` calls `clear()` before, and outside, the transaction that `saveAll` opens, so a storage fault during `saveAll` rolls back only the inserts and the table stays empty | a table holding one row, a readable one-offer JobTeaser file, and the first `INSERT` faulting | previous rows survive a failed import: replace-all is one transaction. No test reaches this path: the error-recovery test at tests/Integration/JobImportIntegrationTest.php:163-185 imports a malformed file, which fails while parsing, before `clear()`, so it would pass with the code as written. Its comment about a real implementation with transactions is only a hint of the intent | medium, not executed | `ImportFaultScenario.ImportFaultEmptiesStore` (models `ImportService.JobImportService.Import`) | `ImportService.JobImportService.ImportAtomic`, through `Repository.MySqlJobRepository.ReplaceAll` (proved by `ImportFaultScenario.ImportAtomicFaultKeepsStore`) |
