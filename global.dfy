/**
 * The lookup tables and the two fixed error pages of GLOBAL.h. Every table has
 * `TOTAL_CONTENT_TYPES` slots; the slots beyond a table's initialisers hold
 * empty strings.
 */
module Global {
  const TOTAL_CONTENT_TYPES: nat := 7

  /** Extensions read as text, and those read as binary (note "jpeg" without its dot). */
  const TEXT_FILE_FORMATS: seq<string> := [".html", ".css", ".svg", "", "", "", ""]
  const BINARY_FILE_FORMATS: seq<string> := [".png", ".jpg", "jpeg", ".webp", "", "", ""]

  /** The content types served in text mode, those served in binary mode, and all of them. */
  const TEXT_CONTENT_TYPES: seq<string> := ["text/html", "text/css", "image/svg+xml", "", "", "", ""]
  const IMAGE_CONTENT_TYPES: seq<string> := ["image/jpeg", "image/jpg", "image/png", "image/webp", "", "", ""]
  const ALL_CONTENT_TYPES: seq<string> :=
    ["text/html", "text/css", "image/svg+xml", "image/jpeg", "image/jpg", "image/png", "image/webp"]

  /** The left margin of every line of the error pages (48 spaces). */
  const MARGIN: string := "                                                "

  /** The first lines of both error pages, up to the title. */
  const PAGE_HEAD: string :=
    "\n" + MARGIN + "<!DOCTYPE html>\n" + MARGIN + "<html>\n" + MARGIN + "<head>\n" + MARGIN + "    "

  const PAGE_TITLE: string := "<title>404 Not Found</title>"

  /** The layout both error pages share; `content` is the lines inside `<body>`. */
  function ErrorPage(content: string): string {
    PAGE_HEAD + PAGE_TITLE + "\n" + MARGIN + "</head>\n" + MARGIN + "<body>\n"
    + content + MARGIN + "</body>\n" + MARGIN + "</html>"
  }

  const CONTENT_TYPE_NOT_SUPPORTED_HTML: string :=
    ErrorPage(MARGIN + "    <h1>Content type not supported</h1>\n")

  const RESOURCE_NOT_FOUND_HTML: string :=
    ErrorPage(MARGIN + "    <h1>Not Found</h1>\n"
              + MARGIN + "    <p>The requested URL was not found on this server.</p>\n")

  /** Every table has `TOTAL_CONTENT_TYPES` slots, and the slots past a table's initialisers are empty. */
  lemma TablesHaveTotalLength()
    ensures |TEXT_FILE_FORMATS| == |BINARY_FILE_FORMATS| == TOTAL_CONTENT_TYPES
    ensures |TEXT_CONTENT_TYPES| == |IMAGE_CONTENT_TYPES| == |ALL_CONTENT_TYPES| == TOTAL_CONTENT_TYPES
    ensures forall k :: 3 <= k < TOTAL_CONTENT_TYPES ==> TEXT_FILE_FORMATS[k] == "" && TEXT_CONTENT_TYPES[k] == ""
    ensures forall k :: 4 <= k < TOTAL_CONTENT_TYPES ==> BINARY_FILE_FORMATS[k] == "" && IMAGE_CONTENT_TYPES[k] == ""
  {
  }

  /**
   * `ALL_CONTENT_TYPES` is the non-empty text types followed by the non-empty
   * image types, in table order.
   */
  lemma AllContentTypesLayout()
    ensures forall k :: 0 <= k < 3 ==> TEXT_CONTENT_TYPES[k] != ""
    ensures forall k :: 0 <= k < 4 ==> IMAGE_CONTENT_TYPES[k] != ""
    ensures ALL_CONTENT_TYPES == TEXT_CONTENT_TYPES[..3] + IMAGE_CONTENT_TYPES[..4]
  {
    assert TEXT_CONTENT_TYPES[..3] == ["text/html", "text/css", "image/svg+xml"];
    assert IMAGE_CONTENT_TYPES[..4] == ["image/jpeg", "image/jpg", "image/png", "image/webp"];
  }

  /** No extension is both a text format and a binary format; only the empty filler slots coincide. */
  lemma FormatTablesDisjoint()
    ensures forall e :: e in TEXT_FILE_FORMATS && e in BINARY_FILE_FORMATS ==> e == ""
  {
  }

  /**
   * `ALL_CONTENT_TYPES` holds exactly the non-empty text and image types, so
   * each of its types has exactly one read mode (text or image), and the empty
   * type is not in it.
   */
  lemma ReadModePartition()
    ensures "" !in ALL_CONTENT_TYPES
    ensures forall t :: t in ALL_CONTENT_TYPES <==> t != "" && (t in TEXT_CONTENT_TYPES || t in IMAGE_CONTENT_TYPES)
    ensures forall t :: t in TEXT_CONTENT_TYPES && t in IMAGE_CONTENT_TYPES ==> t == ""
  {
  }

  /**
   * `.svg` is a text format, but the text content type listed for SVG is
   * "image/svg+xml", while classifying `.svg` yields "text/svg", which no table lists.
   */
  lemma SvgTypeMismatch()
    ensures ".svg" in TEXT_FILE_FORMATS && "image/svg+xml" in TEXT_CONTENT_TYPES
    ensures "text/svg" !in ALL_CONTENT_TYPES && "text/svg" !in TEXT_CONTENT_TYPES
  {
  }

  /** Every error page, whatever its message, carries the title "404 Not Found" at the same place. */
  lemma ErrorPageTitle(content: string)
    ensures |PAGE_HEAD| == 227 && |ErrorPage(content)| == 478 + |content|
    ensures ErrorPage(content)[227..255] == PAGE_TITLE == "<title>404 Not Found</title>"
  {
    var rest := ErrorPage(content)[|PAGE_HEAD| + |PAGE_TITLE|..];
    assert ErrorPage(content) == PAGE_HEAD + PAGE_TITLE + rest;
  }

  /** The two fixed pages differ only in their message: both have that title. */
  lemma ErrorPagesTitle()
    ensures |CONTENT_TYPE_NOT_SUPPORTED_HTML| == 566 && |RESOURCE_NOT_FOUND_HTML| == 656
    ensures CONTENT_TYPE_NOT_SUPPORTED_HTML[227..255] == "<title>404 Not Found</title>"
    ensures RESOURCE_NOT_FOUND_HTML[227..255] == "<title>404 Not Found</title>"
    ensures CONTENT_TYPE_NOT_SUPPORTED_HTML != RESOURCE_NOT_FOUND_HTML
  {
    ErrorPageTitle(MARGIN + "    <h1>Content type not supported</h1>\n");
    ErrorPageTitle(MARGIN + "    <h1>Not Found</h1>\n" + MARGIN + "    <p>The requested URL was not found on this server.</p>\n");
  }
}
