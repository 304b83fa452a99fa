# ccerve request pipeline, logger and command line in Dafny

ccerve is a small static-file HTTP server written in C++. This project models
its sequential core and proves properties of that model:

- **The request/response pipeline** (`ccerve/src/http_parser.cpp`). One
  `HTTPRequest` object, owned by the server, is reused for every request the
  server handles, across connections and clients.
  `handleRequest` runs these steps:
  - `parseRequest` reads the request line's method, target and version with
    `>>`, prefixes the target with `"."`, and stores every `name: value`
    header line;
  - `getContentType` classifies the path's extension through the tables of
    `GLOBAL.h`;
  - for a GET of a servable type, `readDataOfResourcetoBody` reads the file
    in text or binary mode;
  - `setHTTPResponseInfo` fills the response map with a status, a reason
    phrase, a content-type line and a body.

  `HTTPResponse::constructResponse` then serialises that map.
- **The lookup tables and error pages** of `ccerve/include/GLOBAL.h`, as
  constants.
- **The producer side of the asynchronous logger** (`ccerve/include/logger.hpp`
  and its older copy `ccerve/include/logger_impl.hpp`):
  - a level filter in front of a FIFO queue of records formatted as
    `[time] - [name] - [tag] - message\n`;
  - coloured `info`/`warn`/`error` tags;
  - `addSink`;
  - the write step that hands the oldest record to every sink.
- **The argument handling of `main`** (`ccerve/src/main.cpp`): the `argc`
  dispatch, `std::stoi` with its two exceptions, and the port's upper bound.

The modules follow the program:

| module | file | what it holds |
|---|---|---|
| `Wrappers` | wrappers.dfy | `Option` |
| `StdText` | std_text.dfy | the standard-library string operations the parser relies on: `>>` on a string, `getline`, `find`, `find_first_not_of` + `erase` |
| `StdPath` | std_path.dfy | `std::filesystem::path::filename()` and `extension()` |
| `Global` | global.dfy | the tables and the two error pages |
| `HttpParser` | http_parser.dfy | the classes `HTTPRequest` and `HTTPResponse`; each method is verified against a specification function of the fields before the call |
| `HttpProperties` | http_properties.dfy | properties of parsing and classification |
| `ResponseProperties` | response_properties.dfy | properties of reading, the response info and the serialised response |
| `Logging` | logger.dfy | the `Logger` class and the free `info`/`warn`/`error` |
| `LoggingProperties` | logger_properties.dfy | the filter, the tags, the record format round trip, FIFO draining |
| `Cli` | cli.dfy | `std::stoi` and the decision `main` takes |

Behaviour of the source that the model reproduces rather than corrects:

- The binary format `"jpeg"` has no dot, so `.jpeg` files are "USCT"
  (unsupported).
- `.svg` classifies as `"text/svg"`, which is not in `ALL_CONTENT_TYPES`.
  Such a request reads no file and is answered "200 OK" with whatever body
  the reused request object still holds.
- Headers and the body survive from one request the server handles to the
  next, whichever connection or client sends it.
- A message without tokens keeps the method, version and path of the
  previous request the server handled, and the path gains one more `"."` prefix.
- The `resource_path == ""` test can never succeed.
- The port check has no lower bound.

The file read (`getFileData`) is an oracle: a map from path text to a
directory or a regular file. Each read attempt is recorded with its mode in a
ghost trace `fileReads`. The clock that stamps log records is a parameter.

## Model

| member | source | states |
|---|---|---|
| `StdText.ExtractTokenSpec` | ccerve/src/http_parser.cpp:26 | one `>>` fails exactly when only whitespace is left; otherwise it takes a non-empty whitespace-free token that only whitespace precedes and whitespace or the end of input follows |
| `StdText.ExtractTokenAt` | ccerve/src/http_parser.cpp:26 | the converse: whitespace then a maximal non-whitespace run is read as exactly that run, and the stream stops after it |
| `StdText.Find` | ccerve/src/http_parser.cpp:45 | `find` gives `npos` exactly when the character is absent, else the index of its first occurrence |
| `StdText.TrimLeadingBlanks` | ccerve/src/http_parser.cpp:52 | the result is a suffix of the value; everything dropped is a space or tab; the result does not start with one, so an all-blank value becomes empty |
| `StdText.GetLineSpec` | ccerve/src/http_parser.cpp:38 | one `getline` yields a line without `'\n'` that the input continues with `'\n'`, or that runs to the end of input |
| `StdText.LinesFromNoNewline` | ccerve/src/http_parser.cpp:38 | no line read by the `getline` loop contains `'\n'` (a `'\r'` stays in the line) |
| `StdText.LinesFromRoundTrip` | ccerve/src/http_parser.cpp:38 | re-terminating every line read with `'\n'` gives back the rest of the message, plus one `'\n'` when the message did not end in one |
| `StdPath.FileName` | ccerve/src/http_parser.cpp:64-65 | the file name is the suffix of the path after its last `'/'` and contains no `'/'` |
| `StdPath.ExtensionSpec` | ccerve/src/http_parser.cpp:64-65 | the extension is empty exactly when the file name is `..` or has no dot after its first character; otherwise it starts with its only dot and holds no `'/'` |
| `StdPath.ExtensionOf` | ccerve/src/http_parser.cpp:64-65 | the converse: a directory part, a stem other than `.` and a dot-suffix without further dots give that suffix as the extension |
| `Global.TablesHaveTotalLength` | ccerve/include/GLOBAL.h:4-11 | every table has `TOTAL_CONTENT_TYPES` = 7 slots, and the slots past the initialisers are empty |
| `Global.AllContentTypesLayout` | ccerve/include/GLOBAL.h:9-11 | `ALL_CONTENT_TYPES` is the non-empty text types followed by the non-empty image types |
| `Global.ReadModePartition` | ccerve/include/GLOBAL.h:9-11 | a type is in `ALL_CONTENT_TYPES` exactly when it is a non-empty text or image type; no non-empty type is both; `""` is not servable |
| `Global.FormatTablesDisjoint` | ccerve/include/GLOBAL.h:6-7 | no extension is both a text and a binary format; only the empty filler slots coincide |
| `HttpProperties.JpegEntryUnreachable` | ccerve/include/GLOBAL.h:7 | the third binary format is `"jpeg"`, and no path's extension ever equals it |
| `Global.SvgTypeMismatch` | ccerve/include/GLOBAL.h:6-9 | `.svg` is a text format and the listed SVG type is `image/svg+xml`, but `text/svg` is in no table |
| `Global.ErrorPagesTitle` | ccerve/include/GLOBAL.h:15-36 | the two error pages are 566 and 656 characters long, differ, and both carry the title `404 Not Found` at the same place |
| `HttpParser.ReadWord` | ccerve/src/http_parser.cpp:26 | a `>>` keeps the stream valid and never moves it backwards; on a failed stream it changes neither the stream nor the variable |
| `HttpParser.HTTPRequest.constructor` | ccerve/include/http_parser.h:12-29 | a new request object has empty strings and no headers |
| `HttpParser.HTTPRequest.SetRequest` | ccerve/src/http_parser.cpp:12-15 | the message becomes the given text |
| `HttpParser.HTTPRequest.GetRequest` | ccerve/src/http_parser.cpp:17-20 | returns the stored message |
| `HttpParser.HTTPRequest.ParseRequest` | ccerve/src/http_parser.cpp:22-58 | the new fields are `ParseRequestSpec` of the old ones: three `>>` reads, the `"."` prefix and index fallback, then the header lines folded into the old map; no file is read |
| `HttpParser.HTTPRequest.ReadRequestLineTokens` | ccerve/src/http_parser.cpp:24-26 | the method, path and version are the three successive `>>` results, each keeping its old value when the stream has failed |
| `HttpParser.HTTPRequest.ResolveResourcePath` | ccerve/src/http_parser.cpp:27-34 | the path gets its `"."` prefix, and `"./"` becomes `"./index.html"` with type `text/html` |
| `HttpParser.HTTPRequest.ReadHeaders` | ccerve/src/http_parser.cpp:36-57 | the loop leaves the old header map updated by every line `getline` yields, in order |
| `HttpParser.HTTPRequest.GetContentType` | ccerve/src/http_parser.cpp:62-88 | the content type becomes the classification of the path's extension |
| `HttpParser.HTTPRequest.ClassifyContentType` | ccerve/src/http_parser.cpp:67-87 | the table scan gives the first slot's `text/` or `image/` type, `USCT` when no slot matches, and leaves a dotless extension as it is |
| `HttpParser.HTTPRequest.GetFileData` | ccerve/src/http_parser.cpp:90-111 | success exactly when the path names a regular file, whose contents become the body; a directory or a missing file fails and keeps the body; the attempt is recorded |
| `HttpParser.TableSlot` | ccerve/src/http_parser.cpp:143-153 | a servable type sits in exactly one slot of the text or image table, and that slot decides the read mode |
| `HttpParser.HTTPRequest.ReadDataOfResourceToBody` | ccerve/src/http_parser.cpp:138-155 | exactly one read, in the mode of the type's table, whose status and body are those of `GetFileData` |
| `HttpParser.HTTPRequest.SetHTTPResponseInfo` | ccerve/src/http_parser.cpp:157-184 | the result is `ResponseInfo` of the map, the fields and the read status |
| `HttpParser.HTTPRequest.ParseAndClassify` | ccerve/src/http_parser.cpp:115-116 | parse then classify: the fields become `ClassifiedRequest` of the old ones |
| `HttpParser.HTTPRequest.Respond` | ccerve/src/http_parser.cpp:119-135 | the loop over `ALL_CONTENT_TYPES` reads the file only for a GET of a servable type, then builds the response info (as if a read succeeded when there was none) |
| `HttpParser.HTTPRequest.HandleRequest` | ccerve/src/http_parser.cpp:113-136 | the new fields, the returned map and the reads made are those of `HandleSpec` of the old fields |
| `HttpParser.HTTPResponse.constructor` | ccerve/include/http_parser.h:45-52 | a new response object has empty strings and no headers |
| `HttpParser.HTTPResponse.ConstructResponse` | ccerve/src/http_parser.cpp:186-201 | status code, reason phrase and version are copied from the map (missing keys read as `""`), and the result is `ResponseText` of the map |
| `HttpProperties.ParseHeaderLineSpec` | ccerve/src/http_parser.cpp:44-52 | a line is split exactly when it has a colon: at its first colon, into the verbatim name and the value without leading blanks |
| `HttpProperties.ParseHeaderLineOf` | ccerve/src/http_parser.cpp:44-52 | the converse: a colon-free name, `':'` and a value are split back into the name and the trimmed value |
| `HttpProperties.ApplyHeaderLinesKeys` | ccerve/src/http_parser.cpp:38-57 | the keys afterwards are the old keys plus the names of the header lines; nothing is removed |
| `HttpProperties.ApplyHeaderLinesAppend` | ccerve/src/http_parser.cpp:38-57 | reading two runs of lines in turn is reading them together |
| `HttpProperties.LastHeaderWins` | ccerve/src/http_parser.cpp:55 | the last line that names a header decides its value |
| `HttpProperties.UntouchedHeaderKept` | ccerve/src/http_parser.cpp:38-57 | a header that no line names keeps its old value, so headers of earlier requests survive |
| `HttpProperties.ServedPathSpec` | ccerve/src/http_parser.cpp:27-34 | target `/` gives `./index.html` with `text/html`; any other target gets a `"."` prefix; the stored path is never empty |
| `HttpProperties.ReadWordSpec` | ccerve/src/http_parser.cpp:26 | `>>` fails exactly when only whitespace is left, keeping the variable; otherwise it reads a whitespace-free token that ends at the new position |
| `HttpProperties.RequestLineTokens` | ccerve/src/http_parser.cpp:24-38 | a message whose first three tokens are at given places sets the method, path and version from them, and the header loop starts after the third |
| `HttpProperties.BlankMessageKeepsFields` | ccerve/src/http_parser.cpp:26-34 | a message without tokens keeps the method, the version and the headers, and re-prefixes the old path |
| `HttpProperties.BlankAfterIndexRequest` | ccerve/src/http_parser.cpp:26-34 | a blank message after a request for `/` turns the path into `../index.html` |
| `HttpProperties.ParseRequestFrame` | ccerve/src/http_parser.cpp:22-58 | `parseRequest` keeps the message, the body and the content-type status, never drops a header, and leaves a path that starts with `'.'` |
| `HttpProperties.ScanFormatsFrom` | ccerve/src/http_parser.cpp:71-86 | the scan from slot `i` gives `text/` for a text format among the remaining slots, `image/` for a binary one, else `USCT` |
| `HttpProperties.ContentTypeOfExtension` | ccerve/src/http_parser.cpp:62-88 | for every path, the table scan equals classification by table membership |
| `HttpProperties.ClassifyExtensionCases` | ccerve/src/http_parser.cpp:62-88 | `.html`, `.css`, `.svg` give `text/` + name; `.png`, `.jpg`, `.webp` give `image/` + name; no extension gives `""`; anything else gives `USCT` |
| `HttpProperties.ServableIff` | ccerve/src/http_parser.cpp:62-88 | a classified type is servable exactly for `.html`, `.css`, `.png`, `.jpg`, `.webp` |
| `HttpProperties.ClassificationCornerCases` | ccerve/src/http_parser.cpp:62-88 | `.jpeg` is `USCT`; `.svg` is `text/svg`, which is not servable; no extension stays `""` |
| `HttpProperties.ModeForSpec` | ccerve/src/http_parser.cpp:143-153 | a servable type is read in text mode exactly when it is not an image type, and in binary mode exactly when it is an image type, so the two tables decide the mode between them |
| `ResponseProperties.ResponseInfoKeys` | ccerve/src/http_parser.cpp:157-184 | version, status code, reason phrase and body are always set, content-type unless the read failed, and the version is copied |
| `ResponseProperties.ResponseInfoKeepsOthers` | ccerve/src/http_parser.cpp:157-184 | entries under other keys pass through unchanged |
| `ResponseProperties.OkIff` | ccerve/src/http_parser.cpp:157-184 | the status is `200` exactly when the read did not fail and the type is neither `USCT` nor empty |
| `ResponseProperties.ReadIff` | ccerve/src/http_parser.cpp:121-131 | a file is read exactly for a GET of a servable type: once, at the resolved path, in the mode of its table |
| `ResponseProperties.RespondFrame` | ccerve/src/http_parser.cpp:113-136 | responding changes the body only, and only to the contents of a file it read |
| `ResponseProperties.MissingFileIsNotFound` | ccerve/src/http_parser.cpp:161-166 | a GET of a servable type whose file is missing or is a directory gets `404 Not Found`, the not-found page and no content-type |
| `ResponseProperties.ServedFileIsOk` | ccerve/src/http_parser.cpp:176-182 | a GET of a servable type whose file exists gets `200 OK`, its type and its contents |
| `ResponseProperties.UnsupportedIsBadRequest` | ccerve/src/http_parser.cpp:169-175 | an empty or `USCT` type gets `404 Bad Request` and the unsupported-type page, with no read |
| `ResponseProperties.StaleBodyServed` | ccerve/src/http_parser.cpp:134 | a non-GET, or a classified type that is not servable, reads nothing and gets `200` with the body of the previous request the server handled |
| `ResponseProperties.GetOfServableFile` | ccerve/src/http_parser.cpp:116-130 | after parsing, a GET of an existing file with a servable extension gets `200` with the file's contents and the type its extension classifies as |
| `ResponseProperties.SvgServesStaleBody` | ccerve/src/http_parser.cpp:116-134 | after parsing, an `.svg` path reads nothing and gets `200` with the body of the previous request the server handled |
| `ResponseProperties.HandleServesFile` | ccerve/src/http_parser.cpp:113-136 | `handleRequest` on a GET of an existing file with a servable extension answers `200` with the file |
| `ResponseProperties.HandleServesStaleSvg` | ccerve/src/http_parser.cpp:113-136 | `handleRequest` on an `.svg` path reads nothing and answers `200` with the body of the previous request the server handled |
| `ResponseProperties.ResponseTextRoundTrip` | ccerve/src/http_parser.cpp:192-198 | the serialised response splits back into version, code, reason, content-type line and body when the first two hold no space and the next two no `'\r'` |
| `ResponseProperties.StatusLineSeparatorFree` | ccerve/src/http_parser.cpp:161-182 | a response built from an empty map has a space-free status code and a reason phrase without `'\r'` |
| `ResponseProperties.ContentTypeLineSeparatorFree` | ccerve/src/http_parser.cpp:173-180 | its content-type line has no `'\r'` when the type has none |
| `Logging.SeverityOrder` | ccerve/include/logger.hpp:48-52 | `INFO < WARN < ERROR` is a strict total order with INFO least and ERROR greatest |
| `Logging.Broadcast` | ccerve/include/logger.hpp:90-91 | one record goes to every sink, one delivery per sink, in the sinks' order |
| `Logging.Logger.constructor` | ccerve/include/logger.hpp:69-72 | a logger starts with the given name, level and sinks, and an empty queue |
| `Logging.Logger.Default` | ccerve/include/logger.hpp:69-72 | the default arguments: no name, level INFO, one standard-output sink |
| `Logging.Logger.AddSink` | ccerve/include/logger.hpp:75-76 | the sink is appended to the sinks |
| `Logging.Logger.Log` | ccerve/include/logger_impl.hpp:10-24 | the queue becomes `Logged` of the old queue: one record more at the tail unless the level is below the logger's |
| `Logging.Logger.Info` | ccerve/include/logger_impl.hpp:26-29 | logs at INFO with the green `info` tag |
| `Logging.Logger.Warn` | ccerve/include/logger_impl.hpp:31-34 | logs at WARN with the yellow `warn` tag |
| `Logging.Logger.Error` | ccerve/include/logger_impl.hpp:36-39 | logs at ERROR with the red `error` tag |
| `Logging.Logger.Write` | ccerve/include/logger.hpp:90-91 | one write step: the oldest record leaves the queue and goes to every sink in order; an empty queue is left alone |
| `Logging.Info` | ccerve/include/logger_impl.hpp:41-44 | the free `info` is the default logger's `info` |
| `Logging.Warn` | ccerve/include/logger_impl.hpp:46-49 | the free `warn` is the default logger's `warn` |
| `Logging.Error` | ccerve/include/logger_impl.hpp:51-54 | the free `error` is the default logger's `error` |
| `LoggingProperties.AcceptsIff` | ccerve/include/logger_impl.hpp:12 | a message passes exactly when its level is at least the configured one; ERROR always passes; INFO loggers pass everything |
| `LoggingProperties.LoggedSpec` | ccerve/include/logger.hpp:99-117 | a `log` call appends exactly one record at the tail when the level passes and otherwise changes nothing; queued records are unchanged |
| `LoggingProperties.DefaultLevelKeepsAll` | ccerve/include/logger.hpp:69-72 | at the default level INFO every message is queued |
| `LoggingProperties.TagLayout` | ccerve/include/logger.hpp:59-61 | each tag is the level's name between its colour code and the reset code, and holds no `']'` |
| `LoggingProperties.TagsDistinct` | ccerve/include/logger.hpp:119-138 | different levels get different tags |
| `LoggingProperties.RecordRoundTrip` | ccerve/include/logger.hpp:149-150 | time, name, tag and message can be read back from a record when the first three hold no `']'` |
| `LoggingProperties.DeliveriesAppend` | ccerve/include/logger.hpp:90-91 | delivering two runs of records in turn is delivering them together |
| `LoggingProperties.DrainedFifo` | ccerve/include/logger.hpp:90-91 | `n` write steps remove the `n` oldest records and deliver them oldest first to every sink |
| `LoggingProperties.DeliveriesLength` | ccerve/include/logger.hpp:90-91 | delivering records produces exactly one delivery per sink and record |
| `LoggingProperties.DeliveriesComplete` | ccerve/include/logger.hpp:90-91 | every sink receives every record, and every delivery is of a listed record to a listed sink |
| `LoggingProperties.NewRecordWaits` | ccerve/include/logger_impl.hpp:17-21 | after an accepted `log`, the records queued before it are delivered first, and then the new record is the only one left |
| `Cli.StoiOfNumeral` | ccerve/src/main.cpp:35 | `stoi` reads back every `int` written in decimal, and refuses a larger magnitude as out of range |
| `Cli.StoiWithoutDigits` | ccerve/src/main.cpp:35 | text without a digit is an invalid argument |
| `Cli.StoiOfDigitRun` | ccerve/src/main.cpp:35 | leading whitespace, an optional `+` or `-` and a run of digits (leading zeros allowed) read as the signed value of the digits, or `out_of_range` beyond `int`, whatever non-digit text follows |
| `Cli.StoiIgnoresRest` | ccerve/src/main.cpp:35 | for any leading whitespace, sign and digit run, appending text that does not start with a digit leaves the result unchanged |
| `Cli.ParseCommandLine` | ccerve/src/main.cpp:24-57 | the outcome of `main`'s branches equals `CommandLine` of the arguments |
| `Cli.CommandLineCases` | ccerve/src/main.cpp:27-57 | one argument listens on 127.0.0.1:8000; three take the address verbatim and listen exactly when `stoi` succeeds with at most 65535; any other count is a usage error |
| `Cli.PortRange` | ccerve/src/main.cpp:35-51 | every `int` up to 65535 is accepted as a port, including 0 and negatives; larger `int`s are refused; numerals beyond `int` are out of range |
| `Cli.StoiNonNumericPrefix` | ccerve/src/main.cpp:35 | when no digit follows the leading whitespace and the optional sign (as in "abc8080", "-+1" or " -x1"), `std::stoi` throws `invalid_argument`; with `Cli.StoiOfDigitRun` every string is covered |
| `Cli.NonNumericPort` | ccerve/src/main.cpp:42-46 | a port argument with no digit after its leading whitespace and optional sign fails with `Invalid port number: ` and the argument |

## Left out

- Sockets, `accept`, `read`, `write`, the server loop and `exit()` on error
  (ccerve/src/http_server.cpp, ccerve/include/sockets.hpp) are I/O.
  Only the reuse of one `HTTPRequest` object from that loop is kept: every
  specification function maps the fields before a call to the fields after it.
- The write thread, mutex, condition variable and stop flag of `Logger` only
  serialise the steps, so the steps are modelled as sequential calls. The
  logger registry and the default-logger singleton are left out, and the
  default logger is a parameter of the free `info`/`warn`/`error`.
- Sink output (ccerve/include/sinks.hpp, ccerve/src/sinks.cpp) is not
  modelled. A sink is a value (`StdOutSink` or `FileSink(path)`), and what
  `write` hands it is recorded as a `Delivery`.
- `Logging.Logger.Write`: the body of `write` is not shown. It is modelled
  from its declaration and comment as one step that pops the oldest record
  and delivers it to every sink.
- `std::vformat`: the log methods receive the message already formatted.
- The time from `getCurrentTime` (ccerve/src/utils.cpp) is a parameter.
- `getFileData`'s file system is a map from path text to a directory or a
  regular file. Text-mode newline translation, permissions and I/O errors
  are left out; an unopenable file is a path absent from the map.
- `HttpParser.HTTPRequest.ReadDataOfResourceToBody` requires a servable
  content type. Outside that case the source returns an uninitialised status;
  its only caller establishes the requirement.
- `HttpParser.HTTPRequest.SetHTTPResponseInfo`: the map the source fills by
  reference is passed in and returned.
- The source's field `method` is named `requestMethod`, because `method` is
  a keyword here.
- `printHeaders` is console output. `parseResponse` is declared but has no
  body. The setters and getters of `Logger` whose bodies are not shown
  (`setLogLevel`, `getLogLevel`, `setLoggerName`, `getLoggerName`) are also
  left out.
- The legacy synchronous logger (ccerve/src/logger.cpp, ccerve/include/logger.h)
  writes straight to the console and a file.
- ccerve/include/http_parser.hpp declares a newer free-function API without
  bodies. It is not part of this model.
- `Logging.Logger.constructor`: modelled from its declaration in
  ccerve/include/logger.hpp; the source shows no body for it.
- `Logging.Logger.Default`: modelled from the default arguments of that
  declaration; the source shows no body for it.
- `Logging.Logger.AddSink`: modelled from its declaration and comment; the
  source shows no body for it.
- `Cli.Usage`: when the argument vector is empty, the program name is taken
  to be empty.
- `Cli.Stoi` models base 10 only, with `int` as 32 bits. Locale-dependent
  whitespace beyond the "C" locale is left out.
- `StdPath.Extension` models the POSIX path syntax, where `'/'` is the only
  separator.
