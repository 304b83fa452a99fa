/**
 * What `handleRequest`, `setHTTPResponseInfo` and `constructResponse`
 * guarantee, proved about the specification functions of module HttpParser:
 * which requests read a file, which response each request gets, and that the
 * serialised response can be split back into its parts.
 */
module ResponseProperties {
  import opened Wrappers
  import opened StdText
  import opened StdPath
  import opened Global
  import opened HttpParser
  import opened HttpProperties

  // ----- setHTTPResponseInfo -----

  /** The five keys of the response info are different strings, and no servable type is empty or "USCT". */
  lemma ResponseKeysDistinct()
    ensures "http-version" != "status-code" && "http-version" != "reason-phrase" && "http-version" != "body"
    ensures "http-version" != "content-type" && "status-code" != "reason-phrase" && "status-code" != "body"
    ensures "status-code" != "content-type" && "reason-phrase" != "body" && "reason-phrase" != "content-type"
    ensures "body" != "content-type"
    ensures "USCT" !in ALL_CONTENT_TYPES && "" !in ALL_CONTENT_TYPES
  {
  }

  /**
   * `setHTTPResponseInfo` adds the version, status code, reason phrase and
   * body, and a content-type line unless the read failed; every other entry
   * of `info` is kept.
   */
  lemma ResponseInfoKeys(info: map<string, string>, httpVersion: string, contentType: string, body: string, status: int)
    ensures var r := ResponseInfo(info, httpVersion, contentType, body, status);
      && r.Keys == info.Keys + {"http-version", "status-code", "reason-phrase", "body"}
                   + (if status == EXIT_FAILURE then {} else {"content-type"})
      && r["http-version"] == httpVersion
  {
    ResponseKeysDistinct();
  }

  /** Entries of `info` under other keys pass through `setHTTPResponseInfo` unchanged. */
  lemma ResponseInfoKeepsOthers(info: map<string, string>, httpVersion: string, contentType: string, body: string, status: int, k: string)
    requires k in info && k !in {"http-version", "status-code", "reason-phrase", "body", "content-type"}
    ensures k in ResponseInfo(info, httpVersion, contentType, body, status)
    ensures ResponseInfo(info, httpVersion, contentType, body, status)[k] == info[k]
  {
  }

  /** A response is "200" exactly when the read did not fail and the type is neither empty nor "USCT". */
  lemma OkIff(info: map<string, string>, httpVersion: string, contentType: string, body: string, status: int)
    ensures var r := ResponseInfo(info, httpVersion, contentType, body, status);
      r["status-code"] == "200" <==> status != EXIT_FAILURE && contentType != "USCT" && contentType != ""
  {
    ResponseKeysDistinct();
  }

  // ----- handleRequest -----

  /**
   * A file is read exactly for a GET of a servable content type, once, at the
   * resolved path, in the mode of its table; otherwise nothing is read.
   */
  lemma ReadIff(c: RequestFields, fs: FileSystem)
    ensures RespondSpec(c, fs).readAttempts != [] <==> c.requestMethod == "GET" && c.contentType in ALL_CONTENT_TYPES
    ensures RespondSpec(c, fs).readAttempts != [] ==>
      RespondSpec(c, fs).readAttempts == [FileRead(c.resourcePath, ModeFor(c.contentType))]
  {
  }

  /** Responding changes the body only, and only with the contents of a file it read. */
  lemma RespondFrame(c: RequestFields, fs: FileSystem)
    ensures RespondSpec(c, fs).fields == c.(body := RespondSpec(c, fs).fields.body)
    ensures var b := RespondSpec(c, fs).fields.body;
      b == c.body || (c.resourcePath in fs && fs[c.resourcePath] == RegularFile(b))
  {
  }

  /** A GET of a servable type whose file is missing, or is a directory, is answered "404 Not Found". */
  lemma MissingFileIsNotFound(c: RequestFields, fs: FileSystem)
    requires c.requestMethod == "GET" && c.contentType in ALL_CONTENT_TYPES
    requires c.resourcePath !in fs || fs[c.resourcePath].Directory?
    ensures var h := RespondSpec(c, fs);
      && Lookup(h.info, "status-code") == "404" && Lookup(h.info, "reason-phrase") == "Not Found"
      && Lookup(h.info, "body") == RESOURCE_NOT_FOUND_HTML && "content-type" !in h.info
      && h.fields == c
  {
    ResponseKeysDistinct();
    assert FileData(fs, c.resourcePath) == None;
    var info := ResponseInfo(map[], c.httpVersion, c.contentType, c.body, EXIT_FAILURE);
    assert RespondSpec(c, fs) == Handled(c, info, [FileRead(c.resourcePath, ModeFor(c.contentType))]);
    assert info == map["http-version" := c.httpVersion, "status-code" := "404", "reason-phrase" := "Not Found", "body" := RESOURCE_NOT_FOUND_HTML];
  }

  /** A GET of a servable type whose file exists is answered "200 OK" with the file's contents and its type. */
  lemma ServedFileIsOk(c: RequestFields, fs: FileSystem, contents: string)
    requires c.requestMethod == "GET" && c.contentType in ALL_CONTENT_TYPES
    requires c.resourcePath in fs && fs[c.resourcePath] == RegularFile(contents)
    ensures var h := RespondSpec(c, fs);
      && Lookup(h.info, "status-code") == "200" && Lookup(h.info, "reason-phrase") == "OK"
      && Lookup(h.info, "content-type") == "Content-Type: " + c.contentType
      && Lookup(h.info, "body") == contents && h.fields.body == contents
  {
    ResponseKeysDistinct();
    assert c.contentType != "USCT" && c.contentType != "";
  }

  /** A request whose extension is unknown or missing is answered "404 Bad Request" with the unsupported-type page. */
  lemma UnsupportedIsBadRequest(c: RequestFields, fs: FileSystem)
    requires c.contentType == "USCT" || c.contentType == ""
    ensures var h := RespondSpec(c, fs);
      && Lookup(h.info, "status-code") == "404" && Lookup(h.info, "reason-phrase") == "Bad Request"
      && Lookup(h.info, "body") == CONTENT_TYPE_NOT_SUPPORTED_HTML && h.readAttempts == []
  {
    ResponseKeysDistinct();
  }

  /**
   * The stale-body case: a request that is not a GET, or whose type is
   * classified but not servable (".svg" gives "text/svg"), reads nothing and
   * is still answered "200 OK" with whatever body the reused request object
   * held from before.
   */
  lemma StaleBodyServed(c: RequestFields, fs: FileSystem)
    requires c.contentType != "USCT" && c.contentType != ""
    requires c.requestMethod != "GET" || c.contentType !in ALL_CONTENT_TYPES
    ensures var h := RespondSpec(c, fs);
      && h.readAttempts == [] && h.fields == c
      && Lookup(h.info, "status-code") == "200" && Lookup(h.info, "body") == c.body
  {
    ResponseKeysDistinct();
  }

  // ----- the whole of handleRequest -----

  /**
   * A GET whose path has one of the extensions .html, .css, .png, .jpg or
   * .webp and names a file is answered "200 OK" with the file's contents and
   * the type the extension classifies as.
   */
  lemma GetOfServableFile(p: RequestFields, fs: FileSystem, contents: string)
    requires p.requestMethod == "GET" && Extension(p.resourcePath) in {".html", ".css", ".png", ".jpg", ".webp"}
    requires p.resourcePath in fs && fs[p.resourcePath] == RegularFile(contents)
    ensures var h := RespondSpec(Classified(p), fs);
      && Lookup(h.info, "status-code") == "200" && Lookup(h.info, "body") == contents
      && Lookup(h.info, "content-type") == "Content-Type: " + ClassifyExtension(Extension(p.resourcePath))
  {
    var ext := Extension(p.resourcePath);
    var ct := ClassifyExtension(ext);
    assert Classified(p).contentType == ct by {
      ContentTypeOfExtension(p.resourcePath);
    }
    assert ct in ALL_CONTENT_TYPES by {
      ServableIff(ext);
    }
    ServedFileIsOk(Classified(p), fs, contents);
  }

  /**
   * A request for an ".svg" path reads no file and is answered "200 OK" with
   * the body the reused request object held before the call.
   */
  lemma SvgServesStaleBody(p: RequestFields, fs: FileSystem)
    requires Extension(p.resourcePath) == ".svg"
    ensures var h := RespondSpec(Classified(p), fs);
      && h.readAttempts == [] && Lookup(h.info, "status-code") == "200" && Lookup(h.info, "body") == p.body
  {
    assert Classified(p).contentType == "text/svg" && "text/svg" !in ALL_CONTENT_TYPES by {
      ContentTypeOfExtension(p.resourcePath);
      ClassificationCornerCases();
    }
    StaleBodyServed(Classified(p), fs);
  }

  /**
   * `handleRequest` on a message that `parseRequest` reads as a GET of an
   * existing file with a servable extension answers "200 OK" with the file.
   */
  lemma HandleServesFile(f: RequestFields, fs: FileSystem, contents: string)
    requires ParseRequestSpec(f).requestMethod == "GET"
    requires Extension(ParseRequestSpec(f).resourcePath) in {".html", ".css", ".png", ".jpg", ".webp"}
    requires ParseRequestSpec(f).resourcePath in fs && fs[ParseRequestSpec(f).resourcePath] == RegularFile(contents)
    ensures Lookup(HandleSpec(f, fs).info, "status-code") == "200" && Lookup(HandleSpec(f, fs).info, "body") == contents
  {
    GetOfServableFile(ParseRequestSpec(f), fs, contents);
  }

  /**
   * `handleRequest` on a message whose path ends in ".svg" reads nothing and
   * answers "200 OK" with the body left over from the previous request.
   */
  lemma HandleServesStaleSvg(f: RequestFields, fs: FileSystem)
    requires Extension(ParseRequestSpec(f).resourcePath) == ".svg"
    ensures HandleSpec(f, fs).readAttempts == []
    ensures Lookup(HandleSpec(f, fs).info, "status-code") == "200" && Lookup(HandleSpec(f, fs).info, "body") == f.body
  {
    SvgServesStaleBody(ParseRequestSpec(f), fs);
    ParseRequestFrame(f);
  }

  // ----- constructResponse -----

  /**
   * Reads a serialised response back: the version and the status code up to
   * a space each, the reason phrase and the content-type line up to a
   * "\r\n" each, an empty line, then the body.
   */
  function ParseResponseText(text: string): Option<(string, string, string, string, string)> {
    match SplitAt(text, ' ')
    case None => None
    case Some((version, rest)) =>
      match SplitAt(rest, ' ')
      case None => None
      case Some((code, rest)) =>
        match SplitAt(rest, '\r')
        case None => None
        case Some((reason, rest)) =>
          if |rest| == 0 || rest[0] != '\n' then None
          else
            match SplitAt(rest[1..], '\r')
            case None => None
            case Some((contentType, rest)) =>
              if |rest| < 3 || rest[..3] != "\n\r\n" then None
              else Some((version, code, reason, contentType, rest[3..]))
  }

  /** The parts of a response, joined as `constructResponse` joins them, grouped from the right. */
  function JoinedFromRight(v: string, s: string, r: string, t: string, b: string): string {
    v + " " + (s + " " + (r + "\r" + ("\n" + (t + "\r" + ("\n\r\n" + b)))))
  }

  /** The response text is the joined parts of the info, whichever way the concatenation is grouped. */
  lemma ResponseTextRegrouped(info: map<string, string>)
    ensures ResponseText(info) == JoinedFromRight(Lookup(info, "http-version"), Lookup(info, "status-code"),
      Lookup(info, "reason-phrase"), Lookup(info, "content-type"), Lookup(info, "body"))
  {
    var v, s, r := Lookup(info, "http-version"), Lookup(info, "status-code"), Lookup(info, "reason-phrase");
    var t, b := Lookup(info, "content-type"), Lookup(info, "body");
    var b6 := "\r\n\r\n" + b;
    var b5 := t + b6;
    var b4 := "\r\n" + b5;
    var b3 := r + b4;
    var b2 := " " + b3;
    AppendAssoc(v + " " + s + " " + r + "\r\n" + t, "\r\n\r\n", b);
    AppendAssoc(v + " " + s + " " + r + "\r\n", t, b6);
    AppendAssoc(v + " " + s + " " + r, "\r\n", b5);
    AppendAssoc(v + " " + s + " ", r, b4);
    AppendAssoc(v + " " + s, " ", b3);
    AppendAssoc(v + " ", s, b2);
    AppendAssoc(s, " ", b3);
    assert "\r\n" == "\r" + "\n";
    AppendAssoc("\r", "\n", b5);
    AppendAssoc(r, "\r", "\n" + b5);
    assert "\r\n\r\n" == "\r" + "\n\r\n";
    AppendAssoc("\r", "\n\r\n", b);
    AppendAssoc(t, "\r", "\n\r\n" + b);
  }

  /** Joined parts split back into the same parts when the separators cannot occur inside them. */
  lemma ParseJoined(v: string, s: string, r: string, t: string, b: string)
    requires ' ' !in v && ' ' !in s && '\r' !in r && '\r' !in t
    ensures ParseResponseText(JoinedFromRight(v, s, r, t, b)) == Some((v, s, r, t, b))
  {
    var d := "\n\r\n" + b;
    var c := "\n" + (t + "\r" + d);
    SplitAtJoin(v, ' ', s + " " + (r + "\r" + c));
    SplitAtJoin(s, ' ', r + "\r" + c);
    SplitAtJoin(r, '\r', c);
    assert c[0] == '\n' && c[1..] == t + "\r" + d;
    SplitAtJoin(t, '\r', d);
    assert d[..3] == "\n\r\n" && d[3..] == b;
  }

  /**
   * The response text `constructResponse` builds keeps every part of the
   * response info recoverable, provided the version and status code hold no
   * space and the reason phrase and content-type line hold no carriage return.
   */
  lemma ResponseTextRoundTrip(info: map<string, string>)
    requires ' ' !in Lookup(info, "http-version") && ' ' !in Lookup(info, "status-code")
    requires '\r' !in Lookup(info, "reason-phrase") && '\r' !in Lookup(info, "content-type")
    ensures ParseResponseText(ResponseText(info)) ==
      Some((Lookup(info, "http-version"), Lookup(info, "status-code"), Lookup(info, "reason-phrase"),
            Lookup(info, "content-type"), Lookup(info, "body")))
  {
    ResponseTextRegrouped(info);
    ParseJoined(Lookup(info, "http-version"), Lookup(info, "status-code"), Lookup(info, "reason-phrase"),
      Lookup(info, "content-type"), Lookup(info, "body"));
  }

  /** A response built from scratch has a space-free status code and a reason phrase without carriage returns. */
  lemma StatusLineSeparatorFree(httpVersion: string, contentType: string, body: string, status: int)
    ensures var r := ResponseInfo(map[], httpVersion, contentType, body, status);
      ' ' !in Lookup(r, "status-code") && '\r' !in Lookup(r, "reason-phrase")
  {
    ResponseKeysDistinct();
    assert ' ' !in "404" && ' ' !in "200";
    assert '\r' !in "Not Found" && '\r' !in "Bad Request" && '\r' !in "OK";
    var r := ResponseInfo(map[], httpVersion, contentType, body, status);
    if status == EXIT_FAILURE {
      assert Lookup(r, "status-code") == "404" && Lookup(r, "reason-phrase") == "Not Found";
    } else if contentType == "USCT" || contentType == "" {
      assert Lookup(r, "status-code") == "404" && Lookup(r, "reason-phrase") == "Bad Request";
    } else {
      assert Lookup(r, "status-code") == "200" && Lookup(r, "reason-phrase") == "OK";
    }
  }

  /** A response built from scratch has a content-type line without carriage returns when the type has none. */
  lemma ContentTypeLineSeparatorFree(httpVersion: string, contentType: string, body: string, status: int)
    requires '\r' !in contentType
    ensures '\r' !in Lookup(ResponseInfo(map[], httpVersion, contentType, body, status), "content-type")
  {
    ResponseKeysDistinct();
    assert '\r' !in "Content-Type: ";
  }
}
