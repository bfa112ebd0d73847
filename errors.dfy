/** The exceptions the import pipeline throws, one constructor per `throw` site. */
module Errors {

  datatype Error =
    | UnsupportedPartner(partner: string)      // JobParserFactory::create
    | UnsupportedExtension(extension: string)  // JobParserFactory::createByExtension
    | UnreadableFile(path: string)             // JobTeaserJsonParser::parse, file_get_contents failed
    | MalformedJson(reason: string)            // JobTeaserJsonParser::parse, json_last_error() set
    | MalformedXml(path: string)               // RegionsJobXmlParser::parse, simplexml_load_file failed
    | FileNotFound(path: string)               // JobImportService::validateFile
    | FileNotReadable(path: string)            // JobImportService::validateFile
    | FileEmpty(path: string)                  // JobImportService::validateFile
    | NoJobsFound(path: string)                // JobImportService::import
    | StorageFailure                           // a PDOException raised by an INSERT

  /** The value an exception names: the partner, the extension, the path or the decoder's message. */
  function Subject(e: Error): string {
    match e
    case UnsupportedPartner(p) => p
    case UnsupportedExtension(x) => x
    case UnreadableFile(p) => p
    case MalformedJson(reason) => reason
    case MalformedXml(p) => p
    case FileNotFound(p) => p
    case FileNotReadable(p) => p
    case FileEmpty(p) => p
    case NoJobsFound(p) => p
    case StorageFailure => ""
  }

  /**
   * The exception's message text: a fixed French sentence for its kind,
   * followed by the value it names.
   */
  function Message(e: Error): (r: string)
    ensures !e.StorageFailure? ==> |Subject(e)| < |r| && r[|r| - |Subject(e)|..] == Subject(e)
  {
    match e
    case UnsupportedPartner(p) => "Partenaire non supporté: " + p
    case UnsupportedExtension(x) => "Extension non supportée: " + x
    case UnreadableFile(p) => "Impossible de lire le fichier : " + p
    case MalformedJson(reason) => "Erreur de parsing JSON : " + reason
    case MalformedXml(p) => "Impossible de parser le fichier XML : " + p
    case FileNotFound(p) => "Le fichier n'existe pas: " + p
    case FileNotReadable(p) => "Le fichier n'est pas lisible: " + p
    case FileEmpty(p) => "Le fichier est vide: " + p
    case NoJobsFound(p) => "Aucun job trouvé dans le fichier: " + p
    case StorageFailure => ""  // the database driver's own message is not modelled
  }
}
