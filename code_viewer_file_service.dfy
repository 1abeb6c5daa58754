/**
 * The language the code viewer highlights a file in, decided from its name.
 */
module CodeViewerFileService {
  import opened Wrappers
  import opened Strings
  import opened ParseService
  import GraphService

  /** `detectLanguage`: TypeScript for `.ts` and `.tsx`, JavaScript for every other name. */
  function DetectLanguage(filePath: string): (r: Language)
    ensures r == TypeScript <==> EndsWith(filePath, ".ts") || EndsWith(filePath, ".tsx")
  {
    if EndsWith(filePath, ".ts") || EndsWith(filePath, ".tsx") then TypeScript else JavaScript
  }

  /** The viewer and the graph's nodes agree on every file's language. */
  lemma AgreesWithGraphNodes(filePath: string)
    ensures DetectLanguage(filePath) == GraphService.NodeLanguage(filePath)
  {
  }

  /** On the files the parser accepts, the viewer picks the parser's language. */
  lemma AgreesWithParser(filePath: string)
    requires ShouldParse(filePath)
    ensures GetLanguage(filePath) == Some(DetectLanguage(filePath))
  {
    var n := |filePath|;
    if EndsWith(filePath, ".js") {
      assert filePath[n - 2] == ".js"[1];
    } else if EndsWith(filePath, ".jsx") {
      assert filePath[n - 1] == ".jsx"[3];
    }
  }
}
