/**
 * The request/response pipeline of http_parser.cpp: an `HTTPRequest` object
 * that is reused for every request (its fields survive from one request to the
 * next) and an `HTTPResponse` object that serialises the response.
 *
 * Each method of the two classes is specified by a pure function of the
 * object's fields before the call (`ParseRequestSpec`, `ContentTypeOf`,
 * `ResponseInfo`, `HandleSpec`, `ResponseText`); the properties of those
 * functions are proved in module HttpProperties.
 */
module HttpParser {
  import opened Wrappers
  import opened StdText
  import opened StdPath
  import opened Global

  const EXIT_SUCCESS: int := 0
  const EXIT_FAILURE: int := 1

  /** The open mode of a file read: `std::ios::in` or `std::ios::binary`. */
  datatype ReadMode = TextMode | BinaryMode

  /**
   * The file system as the server sees it, keyed by the path text it opens
   * (relative to the working directory, for example "./index.html").
   */
  datatype FsEntry = Directory | RegularFile(contents: string)
  type FileSystem = map<string, FsEntry>

  /** One attempt to read a file: the path and the open mode. */
  datatype FileRead = FileRead(path: string, mode: ReadMode)

  /** The contents `getFileData` obtains for `path`; `None` for a directory or a missing or unreadable file. */
  function FileData(fs: FileSystem, path: string): Option<string> {
    if path in fs && fs[path].RegularFile? then Some(fs[path].contents) else None
  }

  /** The fields of an `HTTPRequest` (with those it inherits from `HTTPMessage`), as a value. */
  datatype RequestFields = RequestFields(
    message: string,
    httpVersion: string,
    headers: map<string, string>,
    body: string,
    requestMethod: string,
    resourcePath: string,
    contentType: string,
    contentTypeStatus: string)

  // ----- parseRequest -----

  /**
   * The state of the `std::istringstream` over the message: the text, the read
   * position, and whether the stream has failed. A failed stream is treated as
   * exhausted (its position is the end of the text), so every later
   * extraction and `getline` on it fails too.
   */
  datatype InputStream = InputStream(text: string, pos: nat, failed: bool) {
    ghost predicate Valid() { pos <= |text| && (failed ==> pos == |text|) }
  }

  /**
   * `stream >> str`: on a good stream, the next whitespace-delimited token; when
   * no token is left the stream fails and `str` keeps its previous value
   * `current`, as it does on a stream that had already failed.
   */
  function ReadWord(st: InputStream, current: string): (r: (InputStream, string))
    requires st.Valid()
    ensures r.0.Valid() && r.0.text == st.text && st.pos <= r.0.pos
    ensures st.failed ==> r == (st, current)
  {
    if st.failed then (st, current)
    else
      match ExtractToken(st.text, st.pos)
      case None => (st.(pos := |st.text|, failed := true), current)
      case Some((t, j)) => (st.(pos := j), t)
  }

  /** The stream after `stream >> method >> resource_path >> http_version`, with the three variables. */
  function ReadRequestLine(f: RequestFields): (r: (InputStream, string, string, string))
    ensures r.0.Valid() && r.0.text == f.message
  {
    var (s1, m) := ReadWord(InputStream(f.message, 0, false), f.requestMethod);
    var (s2, t) := ReadWord(s1, f.resourcePath);
    var (s3, v) := ReadWord(s2, f.httpVersion);
    (s3, m, t, v)
  }

  /**
   * A header line split at its first colon: the name verbatim, the value with
   * its leading spaces and tabs removed. Lines without a colon (the empty line
   * among them) give nothing.
   */
  function ParseHeaderLine(line: string): Option<(string, string)> {
    match Find(line, ':')
    case None => None
    case Some(c) => Some((line[..c], TrimLeadingBlanks(line[c + 1..])))
  }

  /** `headers[header_name] = header_value` for a non-empty line that has a colon. */
  function HeaderStep(headers: map<string, string>, line: string): map<string, string> {
    if line == "" then headers
    else
      match ParseHeaderLine(line)
      case None => headers
      case Some((name, value)) => headers[name := value]
  }

  /** The `getline` loop applies its first line, then the rest. */
  lemma ApplyHeaderLinesStep(headers: map<string, string>, line: string, rest: seq<string>)
    ensures ApplyHeaderLines(headers, [line] + rest) == ApplyHeaderLines(HeaderStep(headers, line), rest)
  {
    assert ([line] + rest)[1..] == rest;
  }

  /** The header map after the `getline` loop has read `lines`, in order. */
  function ApplyHeaderLines(headers: map<string, string>, lines: seq<string>): map<string, string>
    decreases |lines|
  {
    if lines == [] then headers else ApplyHeaderLines(HeaderStep(headers, lines[0]), lines[1..])
  }

  /** The resource path after the "." prefix and the index fallback, with the content type the fallback sets. */
  function ServedPath(target: string, contentType: string): (string, string) {
    var path := "." + target;
    if path == "./" || path == "" then ("./index.html", "text/html") else (path, contentType)
  }

  /** The fields after `parseRequest`, from the fields before it. */
  function ParseRequestSpec(f: RequestFields): RequestFields {
    var (st, m, t, v) := ReadRequestLine(f);
    var (path, ct) := ServedPath(t, f.contentType);
    f.(requestMethod := m, resourcePath := path, httpVersion := v, contentType := ct,
       headers := ApplyHeaderLines(f.headers, LinesFrom(f.message, st.pos)))
  }

  // ----- getContentType -----

  /**
   * The table scan of `getContentType` from slot `i` on, for an extension whose
   * first dot is at `dot`: the first slot whose text format or binary format
   * equals the extension gives "text/" or "image/" followed by what comes after
   * the dot; "USCT" when no slot matches.
   */
  function ScanFormats(ext: string, dot: nat, i: nat): string
    requires dot < |ext|
    decreases TOTAL_CONTENT_TYPES - i
  {
    if i >= TOTAL_CONTENT_TYPES then "USCT"
    else if ext == TEXT_FILE_FORMATS[i] then "text/" + ext[dot + 1..]
    else if ext == BINARY_FILE_FORMATS[i] then "image/" + ext[dot + 1..]
    else ScanFormats(ext, dot, i + 1)
  }

  /** The content type `getContentType` derives from an extension: the extension itself when it has no dot, else the table scan. */
  function ContentTypeOf(ext: string): string {
    match Find(ext, '.')
    case None => ext
    case Some(dot) => ScanFormats(ext, dot, 0)
  }

  // ----- readDataOfResourcetoBody -----

  /** The read mode for a servable content type. */
  function ModeFor(contentType: string): ReadMode
    requires contentType in ALL_CONTENT_TYPES
  {
    if contentType in TEXT_CONTENT_TYPES then TextMode else BinaryMode
  }

  /** The one slot of the text or image table that holds a servable content type. */
  function TableSlot(contentType: string): (k: nat)
    requires contentType in ALL_CONTENT_TYPES
    ensures k < TOTAL_CONTENT_TYPES
    ensures TEXT_CONTENT_TYPES[k] == contentType || IMAGE_CONTENT_TYPES[k] == contentType
    ensures forall j :: 0 <= j < TOTAL_CONTENT_TYPES && j != k ==>
      TEXT_CONTENT_TYPES[j] != contentType && IMAGE_CONTENT_TYPES[j] != contentType
    ensures (TEXT_CONTENT_TYPES[k] == contentType) == (ModeFor(contentType) == TextMode)
  {
    if contentType == "text/html" || contentType == "image/jpeg" then 0
    else if contentType == "text/css" || contentType == "image/jpg" then 1
    else if contentType == "image/svg+xml" || contentType == "image/png" then 2
    else 3
  }

  // ----- setHTTPResponseInfo -----

  /**
   * `info` with the entries `setHTTPResponseInfo` writes, from the request's
   * fields and the read status: a failed read is "404 Not Found" with the
   * not-found page; an empty or unsupported content type is "404 Bad Request"
   * with the unsupported-type page; anything else is "200 OK" with the body.
   */
  function ResponseInfo(info: map<string, string>, httpVersion: string, contentType: string, body: string, status: int): map<string, string> {
    var info := info["http-version" := httpVersion];
    if status == EXIT_FAILURE then
      info["status-code" := "404"]["reason-phrase" := "Not Found"]["body" := RESOURCE_NOT_FOUND_HTML]
    else if contentType == "USCT" || contentType == "" then
      info["status-code" := "404"]["reason-phrase" := "Bad Request"]
          ["content-type" := "Content-Type: " + contentType]["body" := CONTENT_TYPE_NOT_SUPPORTED_HTML]
    else
      info["status-code" := "200"]["reason-phrase" := "OK"]
          ["content-type" := "Content-Type: " + contentType]["body" := body]
  }

  // ----- handleRequest -----

  /** What one `handleRequest` call leaves: the new fields, the response info, and the files it read. */
  datatype Handled = Handled(fields: RequestFields, info: map<string, string>, readAttempts: seq<FileRead>)

  /** The fields `getContentType` leaves: the content type of the resource path's extension. */
  function Classified(p: RequestFields): RequestFields {
    p.(contentType := ContentTypeOf(Extension(p.resourcePath)))
  }

  /** The fields after `parseRequest` and `getContentType`. */
  function ClassifiedRequest(f: RequestFields): RequestFields {
    Classified(ParseRequestSpec(f))
  }

  /**
   * The part of `handleRequest` after parsing and classification: a file is
   * read only for a GET of a servable type; the response info is built from
   * the fields afterwards, with the read's status, or as if a read had
   * succeeded when there was none.
   */
  function RespondSpec(c: RequestFields, fs: FileSystem): Handled {
    if c.requestMethod == "GET" && c.contentType in ALL_CONTENT_TYPES then
      var data := FileData(fs, c.resourcePath);
      var c' := if data.Some? then c.(body := data.value) else c;
      var status := if data.Some? then EXIT_SUCCESS else EXIT_FAILURE;
      Handled(c', ResponseInfo(map[], c'.httpVersion, c'.contentType, c'.body, status),
              [FileRead(c.resourcePath, ModeFor(c.contentType))])
    else
      Handled(c, ResponseInfo(map[], c.httpVersion, c.contentType, c.body, EXIT_SUCCESS), [])
  }

  /** `handleRequest`: parse, classify, then respond. */
  function HandleSpec(f: RequestFields, fs: FileSystem): Handled {
    RespondSpec(ClassifiedRequest(f), fs)
  }

  // ----- constructResponse -----

  /** `info[key]` on a copy of the map: a missing key reads as the empty string. */
  function Lookup(info: map<string, string>, key: string): string {
    if key in info then info[key] else ""
  }

  /** The serialised response: status line, the content-type line, an empty line, then the body. */
  function ResponseText(info: map<string, string>): string {
    Lookup(info, "http-version") + " " + Lookup(info, "status-code") + " " + Lookup(info, "reason-phrase") + "\r\n"
    + Lookup(info, "content-type") + "\r\n\r\n"
    + Lookup(info, "body")
  }

  class HTTPRequest {
    var message: string
    var httpVersion: string
    var headers: map<string, string>
    var body: string
    /** The request method (the field `method` of the source; `method` is a keyword here). */
    var requestMethod: string
    var resourcePath: string
    var contentType: string
    var contentTypeStatus: string
    /** The files this object has tried to read, oldest first. */
    ghost var fileReads: seq<FileRead>

    function Fields(): RequestFields
      reads this
    {
      RequestFields(message, httpVersion, headers, body, requestMethod, resourcePath, contentType, contentTypeStatus)
    }

    /** A default-constructed request: every string empty, no headers. */
    constructor ()
      ensures Fields() == RequestFields("", "", map[], "", "", "", "", "")
      ensures fileReads == []
    {
      message, httpVersion, headers, body := "", "", map[], "";
      requestMethod, resourcePath, contentType, contentTypeStatus := "", "", "", "";
      fileReads := [];
    }

    method SetRequest(request: string)
      modifies this`message
      ensures message == request
    {
      message := request;
    }

    method GetRequest() returns (request: string)
      ensures request == message
    {
      request := message;
    }

    /**
     * Reads the request line's three tokens into `requestMethod`, `resourcePath` and
     * `httpVersion`, prefixes the path with ".", maps "./" to "./index.html",
     * and stores every header line of the rest of the message.
     */
    method ParseRequest()
      modifies this
      ensures Fields() == ParseRequestSpec(old(Fields()))
      ensures fileReads == old(fileReads)
    {
      ghost var spec := ParseRequestSpec(Fields());
      var pos := ReadRequestLineTokens();
      ResolveResourcePath();
      assert Fields() == spec.(headers := headers);
      ReadHeaders(pos);
    }

    /** Prefixes the resource path with "." and serves "./index.html" (as "text/html") for "./". */
    method ResolveResourcePath()
      modifies this`resourcePath, this`contentType
      ensures (resourcePath, contentType) == ServedPath(old(resourcePath), old(contentType))
    {
      resourcePath := "." + resourcePath;
      if resourcePath == "./" || resourcePath == "" {
        resourcePath := "./index.html";
        contentType := "text/html";
      }
    }

    /**
     * `request_message_stream >> method >> resource_path >> http_version`;
     * returns where the stream stands afterwards.
     */
    method ReadRequestLineTokens() returns (pos: nat)
      modifies this`requestMethod, this`resourcePath, this`httpVersion
      ensures pos == ReadRequestLine(old(Fields())).0.pos
      ensures requestMethod == ReadRequestLine(old(Fields())).1
      ensures resourcePath == ReadRequestLine(old(Fields())).2
      ensures httpVersion == ReadRequestLine(old(Fields())).3
    {
      var stream := InputStream(message, 0, false);
      var read := ReadWord(stream, requestMethod);
      stream, requestMethod := read.0, read.1;
      read := ReadWord(stream, resourcePath);
      stream, resourcePath := read.0, read.1;
      read := ReadWord(stream, httpVersion);
      stream, httpVersion := read.0, read.1;
      pos := stream.pos;
    }

    /** The `getline` loop of `parseRequest`: stores the header line of every line from `pos` on. */
    method ReadHeaders(pos: nat)
      requires pos <= |message|
      modifies this`headers
      ensures headers == ApplyHeaderLines(old(headers), LinesFrom(message, pos))
    {
      var at := pos;
      var next := GetLine(message, at);
      while next.Some?
        invariant at <= |message| && next == GetLine(message, at)
        invariant ApplyHeaderLines(headers, LinesFrom(message, at)) == ApplyHeaderLines(old(headers), LinesFrom(message, pos))
        decreases |message| - at
      {
        var (line, after) := next.value;
        LinesFromStep(message, at);
        ApplyHeaderLinesStep(headers, line, LinesFrom(message, after));
        if line != "" {
          var colon := Find(line, ':');
          if colon.Some? {
            var name := line[..colon.value];
            var value := line[colon.value + 1..];
            value := TrimLeadingBlanks(value);
            headers := headers[name := value];
          }
        }
        at := after;
        next := GetLine(message, at);
      }
    }

    /** Sets `contentType` from the extension of `resourcePath` by scanning the format tables. */
    method GetContentType()
      modifies this`contentType
      ensures contentType == ContentTypeOf(Extension(resourcePath))
    {
      contentType := Extension(resourcePath);
      ClassifyContentType();
      assert resourcePath == old(resourcePath);
    }

    /** The table scan of `getContentType`, applied to the extension held in `contentType`. */
    method ClassifyContentType()
      modifies this`contentType
      ensures contentType == ContentTypeOf(old(contentType))
    {
      var dot := Find(contentType, '.');
      if dot.Some? {
        ghost var ext := contentType;
        for i := 0 to TOTAL_CONTENT_TYPES
          invariant contentType == ext
          invariant ScanFormats(ext, dot.value, i) == ContentTypeOf(ext)
        {
          if contentType == TEXT_FILE_FORMATS[i] {
            contentType := "text/" + contentType[dot.value + 1..];
            return;
          } else if contentType == BINARY_FILE_FORMATS[i] {
            contentType := "image/" + contentType[dot.value + 1..];
            return;
          }
        }
        contentType := "USCT";
      }
    }

    /**
     * The file read, as an oracle over `fs`: on success `body` holds the file's
     * contents; a directory, or a path that cannot be opened, fails and leaves
     * `body` as it was.
     */
    method GetFileData(fs: FileSystem, mode: ReadMode) returns (status: int)
      modifies this`body, this`fileReads
      ensures fileReads == old(fileReads) + [FileRead(resourcePath, mode)]
      ensures status == (if FileData(fs, resourcePath).Some? then EXIT_SUCCESS else EXIT_FAILURE)
      ensures body == FileData(fs, resourcePath).GetOr(old(body))
    {
      fileReads := fileReads + [FileRead(resourcePath, mode)];
      if resourcePath in fs && fs[resourcePath].Directory? {
        return EXIT_FAILURE;
      }
      if resourcePath in fs {
        body := fs[resourcePath].contents;
        return EXIT_SUCCESS;
      }
      return EXIT_FAILURE;
    }

    /** Reads the resource once, in text mode for a text type and in binary mode for an image type. */
    method ReadDataOfResourceToBody(fs: FileSystem) returns (status: int)
      requires contentType in ALL_CONTENT_TYPES
      modifies this`body, this`fileReads
      ensures fileReads == old(fileReads) + [FileRead(resourcePath, ModeFor(contentType))]
      ensures status == (if FileData(fs, resourcePath).Some? then EXIT_SUCCESS else EXIT_FAILURE)
      ensures body == FileData(fs, resourcePath).GetOr(old(body))
    {
      // The source leaves the status uninitialised; the precondition makes exactly one slot assign it.
      status := EXIT_FAILURE;
      ghost var slot := TableSlot(contentType);
      for i := 0 to TOTAL_CONTENT_TYPES
        invariant i <= slot ==> fileReads == old(fileReads) && body == old(body)
        invariant i > slot ==> fileReads == old(fileReads) + [FileRead(resourcePath, ModeFor(contentType))]
        invariant i > slot ==> status == (if FileData(fs, resourcePath).Some? then EXIT_SUCCESS else EXIT_FAILURE)
        invariant i > slot ==> body == FileData(fs, resourcePath).GetOr(old(body))
      {
        if contentType == TEXT_CONTENT_TYPES[i] {
          status := GetFileData(fs, TextMode);
        } else if contentType == IMAGE_CONTENT_TYPES[i] {
          status := GetFileData(fs, BinaryMode);
        }
      }
    }

    /** Returns `info` with the response entries for the current fields and the read status. */
    method SetHTTPResponseInfo(info: map<string, string>, status: int) returns (result: map<string, string>)
      ensures result == ResponseInfo(info, httpVersion, contentType, body, status)
    {
      result := info["http-version" := httpVersion];
      if status == EXIT_FAILURE {
        result := result["status-code" := "404"];
        result := result["reason-phrase" := "Not Found"];
        result := result["body" := RESOURCE_NOT_FOUND_HTML];
      } else {
        if contentType == "USCT" || contentType == "" {
          result := result["status-code" := "404"];
          result := result["reason-phrase" := "Bad Request"];
          result := result["content-type" := "Content-Type: " + contentType];
          result := result["body" := CONTENT_TYPE_NOT_SUPPORTED_HTML];
        } else {
          result := result["status-code" := "200"];
          result := result["reason-phrase" := "OK"];
          result := result["content-type" := "Content-Type: " + contentType];
          result := result["body" := body];
        }
      }
    }

    /** Parses the message, classifies the resource, reads it when it is a GET of a servable type, and builds the response info. */
    method HandleRequest(fs: FileSystem) returns (info: map<string, string>)
      modifies this
      ensures Fields() == HandleSpec(old(Fields()), fs).fields
      ensures info == HandleSpec(old(Fields()), fs).info
      ensures fileReads == old(fileReads) + HandleSpec(old(Fields()), fs).readAttempts
    {
      ParseAndClassify();
      info := Respond(fs);
    }

    /** The first two steps of `handleRequest`: `parseRequest`, then `getContentType`. */
    method ParseAndClassify()
      modifies this
      ensures Fields() == ClassifiedRequest(old(Fields()))
      ensures fileReads == old(fileReads)
    {
      ParseRequest();
      GetContentType();
    }

    /** The loop of `handleRequest` over `ALL_CONTENT_TYPES`, on the parsed and classified fields. */
    method Respond(fs: FileSystem) returns (info: map<string, string>)
      modifies this`body, this`fileReads
      ensures Fields() == RespondSpec(old(Fields()), fs).fields
      ensures info == RespondSpec(old(Fields()), fs).info
      ensures fileReads == old(fileReads) + RespondSpec(old(Fields()), fs).readAttempts
    {
      info := map[];
      for i := 0 to TOTAL_CONTENT_TYPES
        invariant requestMethod == "GET" ==> forall k :: 0 <= k < i ==> contentType != ALL_CONTENT_TYPES[k]
      {
        if requestMethod == "GET" {
          if contentType == ALL_CONTENT_TYPES[i] {
            var status := ReadDataOfResourceToBody(fs);
            info := SetHTTPResponseInfo(info, status);
            return;
          }
        }
      }
      info := SetHTTPResponseInfo(info, EXIT_SUCCESS);
    }
  }

  class HTTPResponse {
    var message: string
    var httpVersion: string
    var headers: map<string, string>
    var body: string
    var statusCode: string
    var reasonPhrase: string

    constructor ()
      ensures message == httpVersion == body == statusCode == reasonPhrase == "" && headers == map[]
    {
      message, httpVersion, headers, body := "", "", map[], "";
      statusCode, reasonPhrase := "", "";
    }

    /** Records the status fields and serialises the response described by `info`. */
    method ConstructResponse(info: map<string, string>) returns (response: string)
      modifies this`statusCode, this`reasonPhrase, this`httpVersion
      ensures statusCode == Lookup(info, "status-code")
      ensures reasonPhrase == Lookup(info, "reason-phrase")
      ensures httpVersion == Lookup(info, "http-version")
      ensures response == ResponseText(info)
    {
      statusCode := Lookup(info, "status-code");
      reasonPhrase := Lookup(info, "reason-phrase");
      httpVersion := Lookup(info, "http-version");
      response := "";
      assert response + Lookup(info, "http-version") == Lookup(info, "http-version");
      response := response + Lookup(info, "http-version") + " ";
      response := response + Lookup(info, "status-code") + " ";
      response := response + Lookup(info, "reason-phrase") + "\r\n";
      response := response + Lookup(info, "content-type") + "\r\n\r\n";
      response := response + Lookup(info, "body");
    }
  }
}
