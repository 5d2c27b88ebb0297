# DPNetwork request building and load guards, in Dafny

This project models the core of DPNetwork, a small Swift networking library.
The library has two source trees: an older one under `DPNetwork/Sources/DPNetwork`
and a newer one under `Sources/DPNetwork`. Each revision is modelled as its own
module, function or class, so that both can be read beside the Swift they
come from. The project covers:

- **Parameter encoding.**
  - `addingPercentEncoding()` with the delimiters removed from the allowed set.
  - `toQueryString` and `toFormData` of the parameters protocol.
  - The one-byte MIME sniff and the `Data` appenders.
  - The multipart file parts of `Files.createFormData`.
- **Request assembly.** There are three revisions:
  - `Request.createURLRequest` (with `parametersToQueryString` and `parametersToFormData`);
  - the static `URLRequest.create`;
  - `DPURLRequestGenerator`, a builder class whose setters replace its fields.
  A request is a record: URL string, verb, header fields kept under
  case-folded names with set semantics, and an optional body.
- **Load guards and paging flags.**
  - `isLoading` on `Request` and `DPRequest` (with `forceReload`).
  - `modelsIsLoadingAll` on both `DPRequestWithMappingResponse` classes.
  - `isLoadingAll` on `RequestMappingModels`.
  Each is a Dafny class with its fields. A load is one method, and the
  asynchronous callback is a separate `Complete…` method that takes the
  transport outcome as an input.
- **Response classification and in-flight bookkeeping.**
  - `NetworkWorker` keeps a table of active tasks keyed by URL.
  - `DPNetworkWorker` and `DPURLSession` keep a single task slot.
  - All three classify a response by transport error, status-code membership,
    the bare `ok` body (older tree only) and decoding.
  - `ResponseStatusCode` gives the default success list.
- **Response mapping.** `mapToModels` drops unmappable responses in the newer
  tree and is all-or-nothing in the older tree. `mapOptionalsToModels` skips
  nil responses as well.

Calls into code that is not part of the library become inputs:

- JSON encoding and decoding: a `Parameters` record holding what `JSONEncoder`
  and `JSONSerialization` returned, and a `decode` function.
- `URL(string:)`: a `validUrl` predicate.
- `mapToModel()`: a function parameter.
- The UUID-based boundary: a `Boundary` argument.
- Foundation's description of a non-string value (an array, a number, a nested object), which `"\(value)"` prints: a string carried by the value.

## Model

| member | source | states |
|---|---|---|
| Common.ErrorFrom | Sources/DPNetwork/DPNetworkError.swift:19-23 | `error(_:)` never returns nil; its code is the wrapped error's code, or 0 when there is none, so the `?? .unknown` fallbacks are dead |
| PercentEncoding.AllowedCharacters | DPNetwork/Sources/DPNetwork/Extensions/String+Extensions.swift:6-7 | the allowed set is exactly the ASCII letters, digits and `-._~/?` (the RFC 3986 unreserved set plus `/` and `?`), all ASCII |
| PercentEncoding.PercentEncodeEncoded | DPNetwork/Sources/DPNetwork/Extensions/String+Extensions.swift:9 | every character of the output is an allowed character or `%` |
| PercentEncoding.NoReservedCharacter | DPNetwork/Sources/DPNetwork/Extensions/String+Extensions.swift:7-9 | no character of `:#[]@!$&'()*+,;=` appears in the output |
| PercentEncoding.NeverFails | DPNetwork/Sources/DPNetwork/Extensions/String+Extensions.swift:9 | the encoding never returns nil for a valid string |
| PercentEncoding.AllowedUnchanged | DPNetwork/Sources/DPNetwork/Extensions/String+Extensions.swift:9 | a string made only of allowed characters is returned unchanged |
| PercentEncoding.IdempotentOnAllowed | DPNetwork/Sources/DPNetwork/Extensions/String+Extensions.swift:9 | encoding is idempotent on strings of allowed characters |
| PercentEncoding.PercentSignIsEscaped | DPNetwork/Sources/DPNetwork/Extensions/String+Extensions.swift:6-9 | `%` itself is escaped, as `%25` |
| PercentEncoding.Escape | DPNetwork/Sources/DPNetwork/Extensions/String+Extensions.swift:9 | each UTF-8 byte of a disallowed character becomes three characters `%XX` |
| PercentEncoding.RoundTrip | DPNetwork/Sources/DPNetwork/Extensions/String+Extensions.swift:6-9 | percent-decoding the output gives back the UTF-8 bytes of the input |
| PercentEncoding.Injective | DPNetwork/Sources/DPNetwork/Extensions/String+Extensions.swift:9 | two strings with the same encoding have the same UTF-8 bytes |
| RequestParameters.ToDictionary | DPNetwork/Sources/DPNetwork/DPRequestParametersProtocol.swift:24-36 | nil exactly when `toData` is nil or the JSON is not a string-keyed dictionary; otherwise that dictionary |
| RequestParameters.QueryItem | DPNetwork/Sources/DPNetwork/DPRequestParametersProtocol.swift:43-74 | the `item` of one entry, built with the index loop over an array, is the reference `Item`: `key=value` for a string or other value, and the `key[]=element` pieces joined by `&` for an array |
| RequestParameters.ToQueryString | DPNetwork/Sources/DPNetwork/DPRequestParametersProtocol.swift:38-81 | the `forEach` over the entries gives the reference query string, and the result is nil exactly when `toDictionary` is nil |
| RequestParameters.EmptyDictionaryGivesEmptyString | DPNetwork/Sources/DPNetwork/DPRequestParametersProtocol.swift:80 | an empty dictionary gives `""` |
| RequestParameters.ArrayParameterElements | DPNetwork/Sources/DPNetwork/DPRequestParametersProtocol.swift:52-68 | the array loop yields one `key[]=` + encoded element text per element, in array order (strings verbatim, others by description) |
| RequestParameters.ItemOfEntry | DPNetwork/Sources/DPNetwork/DPRequestParametersProtocol.swift:43-77 | no entry is dropped; each entry's item is its segments joined by `&`, so an empty array gives the item `""` |
| RequestParameters.QueryStringIsJoinOfSegments | DPNetwork/Sources/DPNetwork/DPRequestParametersProtocol.swift:76-80 | one item per entry, and the query string is all entries' segments joined by `&` |
| RequestParameters.SegmentsHaveNoAmpersand | DPNetwork/Sources/DPNetwork/DPRequestParametersProtocol.swift:44-72 | no segment contains `&`, so splitting the query at `&` recovers the segments |
| RequestParameters.ReadStringEntry | DPNetwork/Sources/DPNetwork/DPRequestParametersProtocol.swift:48-50 | a `key=value` segment splits at `=` and decodes to the key's and the value's UTF-8 bytes |
| RequestParameters.ReadArrayElement | DPNetwork/Sources/DPNetwork/DPRequestParametersProtocol.swift:64-65 | a `key[]=element` segment decodes to `key[]` and the element's text |
| RequestParameters.ReadEntry | DPNetwork/Sources/DPNetwork/DPRequestParametersProtocol.swift:43-74 | each segment of one entry reads back as that entry's key and value (or array element) bytes; an empty array reads as one unreadable segment |
| RequestParameters.QueryStringReadsBack | DPNetwork/Sources/DPNetwork/DPRequestParametersProtocol.swift:38-81 | round trip: splitting the query at `&` and `=` and percent-decoding gives every entry's key and value bytes, entry by entry |
| RequestParameters.ToFormData | DPNetwork/Sources/DPNetwork/DPRequestParametersProtocol.swift:83-96 | the loop gives the reference bytes; nil exactly for a nil or empty dictionary |
| RequestParameters.FormDataIsParts | DPNetwork/Sources/DPNetwork/DPRequestParametersProtocol.swift:87-95 | the body is the UTF-8 of one part per entry in order, each `--b CRLF`, the disposition with `name`, a blank line, the value and CRLF, with no closing delimiter |
| RequestParameters.PartLinesBytes | DPNetwork/Sources/DPNetwork/DPRequestParametersProtocol.swift:88-92 | appending the three lines of an entry is the UTF-8 of that entry's part |
| LegacyDataExtensions.MimeType | DPNetwork/Sources/DPNetwork/Extensions/Data+Extensions.swift:5-21 | the result is `application/octet-stream` or a value of the signature table |
| LegacyDataExtensions.MimeTypeTable | DPNetwork/Sources/DPNetwork/Extensions/Data+Extensions.swift:6-20 | each MIME type is returned exactly when the first byte is its signature byte (0x49 and 0x4D both for TIFF); octet-stream exactly for empty data or an unknown byte |
| LegacyDataExtensions.EmptyIsOctetStream | DPNetwork/Sources/DPNetwork/Extensions/Data+Extensions.swift:17-20 | empty data leaves `code` at 0, which is not in the table, so it gives octet-stream |
| LegacyDataExtensions.OnlyFirstByte | DPNetwork/Sources/DPNetwork/Extensions/Data+Extensions.swift:17-18 | two payloads with the same first byte get the same type |
| LegacyDataExtensions.AppendStrings | DPNetwork/Sources/DPNetwork/Extensions/Data+Extensions.swift:23-29 | appends the UTF-8 bytes of each non-nil string in order, skips nils, and keeps the old bytes as a prefix |
| LegacyDataExtensions.Utf8OfPresentIsUtf8OfJoin | DPNetwork/Sources/DPNetwork/Extensions/Data+Extensions.swift:23-29 | appending strings one by one is appending the UTF-8 of their concatenation, nils left out |
| LegacyDataExtensions.AppendDatas | DPNetwork/Sources/DPNetwork/Extensions/Data+Extensions.swift:31-37 | appends each non-nil data in order; the new length is the old plus the sum of the non-nil lengths |
| DataExtensions.MimeType | Sources/DPNetwork/Extensions/Data+Extensions.swift:5-21 | the result is octet-stream or a value of the signature table |
| DataExtensions.SameAsOlderRevision | Sources/DPNetwork/Extensions/Data+Extensions.swift:6-20 | the newer sniff agrees with the older one on every input |
| DataExtensions.OnlyFirstByte | Sources/DPNetwork/Extensions/Data+Extensions.swift:17-18 | only the first byte is inspected |
| DataExtensions.EmptyIsOctetStream | Sources/DPNetwork/Extensions/Data+Extensions.swift:17-20 | empty data gives octet-stream |
| DataExtensions.AppendStrings | Sources/DPNetwork/Extensions/Data+Extensions.swift:23-29 | appends the non-nil strings' UTF-8 bytes in order; the existing bytes are a prefix of the result |
| ResponseStatusCodes.EqualIffSameValue | DPNetwork/Sources/DPNetwork/ResponseStatusCode.swift:3-11 | two status codes are equal exactly when their `intValue`s are |
| ResponseStatusCodes.DefaultMembership | DPNetwork/Sources/DPNetwork/ResponseStatusCode.swift:13-27 | a code is in `defaultSuccessful` exactly when it is 200 or 204, and the array's list is the element's list |
| UrlRequests.StringValueInjective | DPNetwork/Sources/DPNetwork/Request.swift:208-221 | the raw values of `HTTPMethod` are distinct, so the verb names the case |
| UrlRequests.SetValue | DPNetwork/Sources/DPNetwork/Extensions/URLRequest+RequestHeader.swift:7 | `setValue` makes the named field hold the value, leaves every field of a different (case-folded) name alone, and keeps URL, verb and body |
| UrlRequests.SingleHeader | DPNetwork/Sources/DPNetwork/Extensions/URLRequest+RequestHeader.swift:6-8 | setting a one-header list is a single `setValue` |
| UrlRequests.UntouchedFieldsKept | DPNetwork/Sources/DPNetwork/Extensions/URLRequest+RequestHeader.swift:6-8 | a field the list does not name keeps its previous value, or stays absent |
| UrlRequests.LastOccurrenceWins | DPNetwork/Sources/DPNetwork/Extensions/URLRequest+RequestHeader.swift:7 | a header's value is what the field ends with when no later header names it again: set, not append |
| UrlRequests.FieldNames | DPNetwork/Sources/DPNetwork/Extensions/URLRequest+RequestHeader.swift:6-8 | setting headers never removes a field: the names afterwards are the old names plus the list's |
| UrlRequests.FieldsAfterAppend | DPNetwork/Sources/DPNetwork/Extensions/URLRequest+RequestHeader.swift:6-8 | headers apply in list order: setting `a + b` is setting `a`, then `b` |
| RequestHeaderExtension.SetRequestHeaders | DPNetwork/Sources/DPNetwork/Extensions/URLRequest+RequestHeader.swift:5-9 | the `forEach` gives the request with the headers set in list order; nil changes nothing |
| LegacyUrlRequestExtensions.SetRequestHeaders | DPNetwork/Sources/DPNetwork/Extensions/URLRequest+Extensions.swift:5-9 | the same set-in-order semantics for `DPRequest.Header` |
| UrlRequestExtensions.AppendRequestHeaders | Sources/DPNetwork/Extensions/URLRequest+Extensions.swift:5-9 | despite the name, each header is set in list order (a duplicate key replaces); nil changes nothing |
| BodyFormats.ApplicationFormData | DPNetwork/Sources/DPNetwork/Request.swift:378-380 | the form-data Content-Type declares exactly the boundary's `stringValue` |
| BodyFormats.MultipartFormData | DPNetwork/Sources/DPNetwork/Request.swift:382-384 | the multipart Content-Type declares exactly the boundary's `stringValue` |
| BodyFormats.ContentTypesDistinct | Sources/DPNetwork/DPRequest.swift:240-254 | the JSON and url-encoded values declare no boundary; the multipart and form-data values never coincide; the multipart value determines its boundary |
| BodyFormats.FilePartsInOrder | DPNetwork/Sources/DPNetwork/Request.swift:327-343 | the buffer is the concatenation of one part per file, in list order |
| BodyFormats.PartsOfIndex | DPNetwork/Sources/DPNetwork/Request.swift:331-340 | part `i` is file `i`'s delimiter, disposition with `name` and `filename`, sniffed Content-Type, blank line, raw bytes and CRLF |
| BodyFormats.FileHeadBytes | DPNetwork/Sources/DPNetwork/Request.swift:332-336 | the three appended header lines are the UTF-8 of the file's part head |
| BodyFormats.FilePartsHoldPayloads | DPNetwork/Sources/DPNetwork/Request.swift:338 | the form data is at least as long as all the file payloads together |
| BodyFormats.ClosingLineMismatch | DPNetwork/Sources/DPNetwork/Request.swift:100 | as written, the closing line closes the struct's description `Boundary(stringValue: "…")`, never the boundary the multipart Content-Type declares; its UTF-8 is longer than the intended line by the type name and 17 bytes |
| BodyFormats.ClosingLineCloses | DPNetwork/Sources/DPNetwork/Request.swift:89-100 | the corrected closing line closes exactly the boundary the Content-Type declares, and differs from every part's opening delimiter |
| LegacyRequest.HttpMethodMapping | DPNetwork/Sources/DPNetwork/Request.swift:234-251 | each case maps to its namesake verb except `upload`, which is POST; that is the only collision, and OPTIONS, TRACE and CONNECT are never produced |
| LegacyRequest.OneSegmentPerEntry | DPNetwork/Sources/DPNetwork/Request.swift:127-162 | `parametersToQueryString` gives one segment per entry, in place, a failure contributing `""` |
| LegacyRequest.SegmentsAreItems | DPNetwork/Sources/DPNetwork/Request.swift:128-161 | since encoding never fails, those segments are exactly the protocol version's items |
| LegacyRequest.SameAsProtocolQueryString | DPNetwork/Sources/DPNetwork/Request.swift:124-165 | `parametersToQueryString` equals the protocol's `toQueryString` on every input |
| LegacyRequest.BaseFields | DPNetwork/Sources/DPNetwork/Request.swift:47-49 | whatever the URL, the caller's headers are set on a request with no fields |
| LegacyRequest.Attach | DPNetwork/Sources/DPNetwork/Request.swift:66-77 | setting a payload sets the body and its Content-Type, keeps URL, verb and every other field; no payload leaves the request unchanged |
| LegacyRequest.CreatedNilIffInvalidUrl | DPNetwork/Sources/DPNetwork/Request.swift:34-109 | `createURLRequest` is nil exactly when `URL(string:)` fails; otherwise it has that URL and the method's verb |
| LegacyRequest.QueryMethodRequest | DPNetwork/Sources/DPNetwork/Request.swift:37-51 | GET and HEAD append `?q` whenever a query string exists (even `""`), set no body and only the caller's headers |
| LegacyRequest.JsonRequest | DPNetwork/Sources/DPNetwork/Request.swift:57-70 | with json the URL is the path; body and `application/json` are set exactly when `toData` is non-nil, overriding a caller Content-Type |
| LegacyRequest.FormDataRequest | DPNetwork/Sources/DPNetwork/Request.swift:71-77 | with formData the body is the parameter parts without closing line, and the form-data Content-Type naming the boundary is set only with a body |
| LegacyRequest.FormPayload | DPNetwork/Sources/DPNetwork/Request.swift:71-77 | the formData payload exists exactly when the form body does, with the form-data Content-Type |
| LegacyRequest.UploadBodyParts | DPNetwork/Sources/DPNetwork/Request.swift:92-103 | whatever its last line, the upload body is the parameter parts, then the file parts, then that line |
| LegacyRequest.UploadRequest | DPNetwork/Sources/DPNetwork/Request.swift:82-107 | upload always sets the multipart Content-Type declaring `b`, and a body of parameter parts, file parts and the line as written, which closes `Boundary(stringValue: "b")` instead |
| LegacyRequest.UploadPayload | DPNetwork/Sources/DPNetwork/Request.swift:89-105 | whatever the body type, the upload payload is present: the multipart Content-Type and the body closed by the line as written |
| LegacyRequest.UploadBodyMismatch | DPNetwork/Sources/DPNetwork/Request.swift:100 | as written, the upload body's last line never closes the declared boundary, and the body is 25 bytes (`Boundary(stringValue: "")`) longer than the intended one, so it differs on every input |
| LegacyRequest.CorrectedUploadCloses | DPNetwork/Sources/DPNetwork/Request.swift:89-100 | the corrected upload body ends with the close-delimiter of the boundary its Content-Type declares (section 5.1.1 of RFC 2046) |
| LegacyRequest.CallerHeadersKept | DPNetwork/Sources/DPNetwork/Request.swift:49-87 | every field other than Content-Type is what the caller's headers set |
| LegacyRequest.CreatedIsAttach | DPNetwork/Sources/DPNetwork/Request.swift:53-80 | the built request is the base request with the body type's payload attached; for upload that is the body as written |
| LegacyRequest.AttachKeepsCallerHeaders | DPNetwork/Sources/DPNetwork/Request.swift:61-77 | attaching a payload keeps every caller field other than Content-Type |
| LegacyRequest.SetContentType | DPNetwork/Sources/DPNetwork/Request.swift:69 | `setRequestHeaders` with one Content-Type header is one `setValue` |
| LegacyRequest.CreateFormData | DPNetwork/Sources/DPNetwork/Request.swift:327-343 | the loop gives nil for an empty file list and otherwise the file parts |
| LegacyRequest.Request.constructor | DPNetwork/Sources/DPNetwork/Request.swift:13-31 | stores the arguments, starts idle, with a fresh worker using the default success list and no active task |
| LegacyRequest.Request.ParametersToQueryString | DPNetwork/Sources/DPNetwork/Request.swift:124-165 | the per-entry segments joined by `&`; nil when there are no parameters or no dictionary |
| LegacyRequest.Request.ParametersToFormData | DPNetwork/Sources/DPNetwork/Request.swift:167-180 | the form parts of the parameters; nil for nil parameters or a nil or empty dictionary |
| LegacyRequest.Request.CreateURLRequest | DPNetwork/Sources/DPNetwork/Request.swift:34-109 | the step-by-step build gives the reference request for every method and body type, the upload body closed by the interpolated struct |
| LegacyRequest.Request.AddBody | DPNetwork/Sources/DPNetwork/Request.swift:63-78 | the body switch attaches the body type's payload; upload attaches the body as written |
| LegacyRequest.Request.UploadHttpBody | DPNetwork/Sources/DPNetwork/Request.swift:92-103 | `appendDatas` of the parameter and file parts, then `appendStrings` of the closing line as written |
| LegacyRequest.Request.Load | DPNetwork/Sources/DPNetwork/Request.swift:182-194 | a nil request changes nothing; an ongoing load returns silently; otherwise `isLoading` is set and the worker drops a duplicate URL (cancelling it) or starts a task under it |
| LegacyRequest.Request.Complete | DPNetwork/Sources/DPNetwork/Request.swift:188-193 | the callback removes the URL's task, clears `isLoading` before the completion runs, and delivers the worker's classification |
| LegacyRequest.Request.Cancel | DPNetwork/Sources/DPNetwork/Request.swift:196-200 | cancels the URL's active task, if any, without removing it or touching `isLoading` |
| LegacyUrlRequestExtensions.Create | DPNetwork/Sources/DPNetwork/Extensions/URLRequest+Extensions.swift:11-93 | `URLRequest.create` builds the same request as `createURLRequest` from explicit arguments, including the upload body as written |
| LegacyUrlRequestExtensions.UrlString | DPNetwork/Sources/DPNetwork/Extensions/URLRequest+Extensions.swift:21-27 | GET and HEAD append `?q` whenever `toQueryString` is non-nil; other methods use the path |
| LegacyUrlRequestExtensions.CreateBody | DPNetwork/Sources/DPNetwork/Extensions/URLRequest+Extensions.swift:47-62 | the body switch attaches the json or formData payload only when it exists |
| LegacyUrlRequestExtensions.SetContentType | DPNetwork/Sources/DPNetwork/Extensions/URLRequest+Extensions.swift:53 | one Content-Type header is one `setValue` |
| LegacyUrlRequestExtensions.UploadHttpBody | DPNetwork/Sources/DPNetwork/Extensions/URLRequest+Extensions.swift:76-87 | parameter parts, file parts, then the closing line as written, interpolating the `Boundary` struct |
| NetworkWorkers.OkBodyAscii | DPNetwork/Sources/DPNetwork/NetworkWorker.swift:95 | for ASCII text the `ok` test holds exactly when the lower-cased text is `ok` |
| NetworkWorkers.OkBodyKelvin | DPNetwork/Sources/DPNetwork/NetworkWorker.swift:95 | `oK` and `OK` both count as `ok` |
| NetworkWorkers.ObjectIff | DPNetwork/Sources/DPNetwork/NetworkWorker.swift:52-114 | an object is delivered exactly for an HTTP, error-free response with data, a success status, a body other than `ok`, and data that decodes; it is the decoded value, with no error |
| NetworkWorkers.ResponseAndErrorCases | DPNetwork/Sources/DPNetwork/NetworkWorker.swift:55-93 | the response is passed on exactly when it is HTTP and error-free; a bad status gives `responseErrorStatusCode(status)` with the response; a transport error is passed on raw |
| NetworkWorkers.SilentPaths | DPNetwork/Sources/DPNetwork/NetworkWorker.swift:55-100 | neither object nor error arrives exactly for a non-HTTP response without error, missing data, or an `ok` body with a success status |
| NetworkWorkers.OkBodyWithBadStatusIsError | DPNetwork/Sources/DPNetwork/NetworkWorker.swift:88-100 | the status check comes first: an `OK` body with a status outside the list is still an error |
| NetworkWorkers.NetworkWorker.constructor | DPNetwork/Sources/DPNetwork/NetworkWorker.swift:20-31 | an empty task table and the given success list |
| NetworkWorkers.NetworkWorker.Execute | DPNetwork/Sources/DPNetwork/NetworkWorker.swift:34-118 | no URL: `invalidRequest` and nothing changes; a URL already in the table: that task is cancelled and nothing is stored; otherwise a new task is stored under the URL |
| NetworkWorkers.NetworkWorker.Complete | DPNetwork/Sources/DPNetwork/NetworkWorker.swift:52-114 | every path removes the URL's entry and delivers the classification |
| NetworkWorkers.NetworkWorker.Cancel | DPNetwork/Sources/DPNetwork/NetworkWorker.swift:120-128 | acts only when the URL has an entry, cancels that task, and does not remove it |
| DPNetworkWorkers.DeliveryCases | Sources/DPNetwork/DPNetworkWorker.swift:72-102 | exactly one of response and error arrives; the response arrives, with the data as it came (possibly nil), exactly for an HTTP, error-free response with a success status |
| DPNetworkWorkers.DeliveryErrors | Sources/DPNetwork/DPNetworkWorker.swift:75-99 | a transport error is wrapped with its code, a missing response gives code 0, a bad status gives `responseErrorStatusCode`; `unknown` is never produced |
| DPNetworkWorkers.BadStatusAgainstOlderWorker | Sources/DPNetwork/DPNetworkWorker.swift:93-98 | on a bad status both workers give the same error, but only the older one passes the response on |
| DPNetworkWorkers.DecodedCases | Sources/DPNetwork/DPNetworkWorker.swift:109-128 | after decoding, exactly one of value and error; value and response arrive together exactly when the response succeeds with data that decodes |
| DPNetworkWorkers.DecodedErrors | Sources/DPNetwork/DPNetworkWorker.swift:109-128 | the decode error is passed on; a bad status, nil data or transport error reach the caller re-wrapped by `error(_:)` |
| DPNetworkWorkers.NilRequestDecoded | Sources/DPNetwork/DPNetworkWorker.swift:109-117 | through the decoding overload a nil request's `invalidRequest` arrives re-wrapped, not as itself |
| DPNetworkWorkers.WorkerDefaultSuccessfulMembership | Sources/DPNetwork/DPNetworkWorker.swift:135-149 | the worker's default list is `[200, 204]` |
| DPNetworkWorkers.DPNetworkWorker.constructor | Sources/DPNetwork/DPNetworkWorker.swift:36-49 | no task, and the given success list |
| DPNetworkWorkers.DPNetworkWorker.CancelDataTask | Sources/DPNetwork/DPNetworkWorker.swift:52-54 | cancels the held task, if any, without clearing the slot |
| DPNetworkWorkers.DPNetworkWorker.LoadURLRequest | Sources/DPNetwork/DPNetworkWorker.swift:66-107 | a nil request gets `invalidRequest` at once and no task; otherwise the held task is cancelled and a new one takes the slot |
| DPNetworkWorkers.DPNetworkWorker.LoadDecodedURLRequest | Sources/DPNetwork/DPNetworkWorker.swift:109-128 | the same slot update; a nil request gets the re-wrapped `invalidRequest` |
| DPNetworkWorkers.DPNetworkWorker.Complete | Sources/DPNetwork/DPNetworkWorker.swift:72-102 | the data task's handler delivers the classification against the worker's list |
| DPNetworkWorkers.DPNetworkWorker.CompleteDecoded | Sources/DPNetwork/DPNetworkWorker.swift:110-127 | the decoding overload's handler delivers the decoded classification |
| DPURLSessions.SessionDefaultSuccessfulMembership | Sources/DPNetwork/DPURLSession.swift:137-152 | the session's default list is `[200, 204]` |
| DPURLSessions.DPURLSession.constructor | Sources/DPNetwork/DPURLSession.swift:34-45 | no task, and the given success list |
| DPURLSessions.DPURLSession.CancelDataTask | Sources/DPNetwork/DPURLSession.swift:48-50 | cancels the held task without clearing the slot |
| DPURLSessions.DPURLSession.LoadURLRequest | Sources/DPNetwork/DPURLSession.swift:61-105 | a nil request gets `invalidRequest`; otherwise the previous task is cancelled before the slot is replaced |
| DPURLSessions.DPURLSession.LoadDecodedURLRequest | Sources/DPNetwork/DPURLSession.swift:107-130 | the same slot update through the decoding overload |
| DPURLSessions.DPURLSession.Complete | Sources/DPNetwork/DPURLSession.swift:70-100 | the handler classifies as the worker does |
| DPURLSessions.DPURLSession.CompleteDecoded | Sources/DPNetwork/DPURLSession.swift:112-129 | the decoding handler classifies as the worker does |
| DPRequests.HttpMethodMapping | Sources/DPNetwork/DPRequest.swift:99-116 | `upload` maps to POST and every other case to its namesake; no other collision |
| DPRequests.ResultOfDecoded | Sources/DPNetwork/DPRequest.swift:35-42 | `load` succeeds exactly when the response succeeds with data that decodes, with the decoded value; otherwise it fails with the worker's error, never the `unknown` fallback |
| DPRequests.EmptyAgainstDecoded | Sources/DPNetwork/DPRequest.swift:61-64 | a successful response with no data is no error for `loadEmpty` but a failure for `load` |
| DPRequests.DPRequest.constructor | Sources/DPNetwork/DPRequest.swift:6-15 | idle, with a fresh `DPNetworkWorker` on the default list and no task |
| DPRequests.DPRequest.Cancel | Sources/DPNetwork/DPRequest.swift:18-20 | asks the session to cancel and leaves `isLoading` as it was |
| DPRequests.DPRequest.Load | Sources/DPNetwork/DPRequest.swift:22-47 | `forceReload` clears the guard; a set guard returns silently; otherwise `isLoading` is set and exactly one session call is made (a nil request fails at once) |
| DPRequests.DPRequest.Complete | Sources/DPNetwork/DPRequest.swift:35-46 | the completion gets success exactly with a decoded value; `isLoading` is cleared after it |
| DPRequests.DPRequest.LoadEmpty | Sources/DPNetwork/DPRequest.swift:49-65 | the same guard and transitions as `load`; a nil request fails with `invalidRequest` itself |
| DPRequests.DPRequest.CompleteEmpty | Sources/DPNetwork/DPRequest.swift:61-64 | the error is passed straight through and `isLoading` is cleared |
| DPURLRequestGenerators.ContentTypeForDistinct | Sources/DPNetwork/DPURLRequestGenerator.swift:87-104 | the four Content-Type values tell the body types apart, and the boundary-carrying ones declare the given boundary |
| DPURLRequestGenerators.MultipartSameAsUpload | Sources/DPNetwork/DPURLRequestGenerator.swift:116-129 | the generator's multipart body has the older upload body's parts, but its last line prints `DPBoundary`, so as written the two bodies differ by two bytes on every input; corrected, they are equal |
| DPURLRequestGenerators.Base | Sources/DPNetwork/DPURLRequestGenerator.swift:66-67 | the request before headers and body has no fields and no body |
| DPURLRequestGenerators.HeadersShape | Sources/DPNetwork/DPURLRequestGenerator.swift:87-104 | the caller's headers followed by exactly one Content-Type when a body type is set, none otherwise |
| DPURLRequestGenerators.GeneratedParts | Sources/DPNetwork/DPURLRequestGenerator.swift:62-85 | nil exactly when the URL is invalid; otherwise URL with `?q` for any verb, the verb, the generated fields and the generated body (for multipart, closed by the line as written), all with one boundary |
| DPURLRequestGenerators.GeneratedFieldsApplied | Sources/DPNetwork/DPURLRequestGenerator.swift:68 | setting the generated list in order leaves the caller's fields with the body type's Content-Type on top |
| DPURLRequestGenerators.GeneratedContentType | Sources/DPNetwork/DPURLRequestGenerator.swift:87-104 | with a body type the Content-Type is that type's, overriding the caller's; without one it is the caller's |
| DPURLRequestGenerators.GeneratedOtherHeaders | Sources/DPNetwork/DPURLRequestGenerator.swift:87-104 | every other field is what the caller's headers set |
| DPURLRequestGenerators.MultipartBodyOf | Sources/DPNetwork/DPURLRequestGenerator.swift:116-129 | multipart always has a body: parameter parts, file parts, then the line as written, which closes `DPBoundary(stringValue: "…")` and never the boundary the Content-Type declares |
| DPURLRequestGenerators.MultipartBodyMismatch | Sources/DPNetwork/DPURLRequestGenerator.swift:127 | as written, the multipart body is 27 bytes (`DPBoundary(stringValue: "")`) longer than the intended one, so it differs on every input |
| DPURLRequestGenerators.CorrectedMultipartCloses | Sources/DPNetwork/DPURLRequestGenerator.swift:116-129 | the corrected multipart body ends with the close-delimiter of the boundary the Content-Type declares |
| DPURLRequestGenerators.JsonHeaderWithoutBody | Sources/DPNetwork/DPURLRequestGenerator.swift:90-111 | with json and no encodable parameters the Content-Type is still set though there is no body |
| DPURLRequestGenerators.CreateFormData | Sources/DPNetwork/DPURLRequestGenerator.swift:260-276 | nil for an empty file list, otherwise one part per file in order |
| DPURLRequestGenerators.DPURLRequestGenerator.constructor | Sources/DPNetwork/DPURLRequestGenerator.swift:13-35 | stores `bodyType` even without body parameters; sets the query parameters when given, the body parameters only when they and a body type are given |
| DPURLRequestGenerators.DPURLRequestGenerator.SetQueryParameters | Sources/DPNetwork/DPURLRequestGenerator.swift:48-52 | replaces the query parameters, returns the same generator, leaves the other fields |
| DPURLRequestGenerators.DPURLRequestGenerator.SetBodyParameters | Sources/DPNetwork/DPURLRequestGenerator.swift:55-60 | replaces body parameters and body type, returns the same generator, leaves the other fields |
| DPURLRequestGenerators.DPURLRequestGenerator.GenerateURLRequest | Sources/DPNetwork/DPURLRequestGenerator.swift:62-75 | the step-by-step build gives the reference request, multipart body as written |
| DPURLRequestGenerators.DPURLRequestGenerator.GenerateURL | Sources/DPNetwork/DPURLRequestGenerator.swift:77-85 | the path with `?q` whenever a query string exists, nil exactly when that is not a valid URL |
| DPURLRequestGenerators.DPURLRequestGenerator.GenerateHeaders | Sources/DPNetwork/DPURLRequestGenerator.swift:87-104 | the caller's headers and the body type's Content-Type |
| DPURLRequestGenerators.DPURLRequestGenerator.GenerateHttpBody | Sources/DPNetwork/DPURLRequestGenerator.swift:106-131 | nil type gives nil; json `toData`; formData the parts; formUrlencoded the query's UTF-8; multipart always a body, closed by the line as written |
| DPURLRequestGenerators.DPURLRequestGenerator.GenerateMultipartHttpBody | Sources/DPNetwork/DPURLRequestGenerator.swift:116-129 | parameter parts and file parts when present, then the closing line as written, interpolating the `DPBoundary` struct |
| DPURLRequestGenerators.DPURLRequestGenerator.GenerateQueryParameters | Sources/DPNetwork/DPURLRequestGenerator.swift:133-135 | nil exactly without query parameters or without a dictionary |
| DPURLRequestGenerators.DPURLRequestGenerator.GenerateJsonHttpBody | Sources/DPNetwork/DPURLRequestGenerator.swift:137-139 | present exactly when body parameters exist and encode, and then their JSON |
| DPURLRequestGenerators.DPURLRequestGenerator.GenerateFormDataHttpBody | Sources/DPNetwork/DPURLRequestGenerator.swift:141-143 | the form parts; nil exactly without parameters or for a nil or empty dictionary |
| DPURLRequestGenerators.DPURLRequestGenerator.GenerateFormUrlencodedHttpBody | Sources/DPNetwork/DPURLRequestGenerator.swift:145-147 | the UTF-8 of the query string; nil exactly without parameters or a dictionary |
| ResponseMappings.MapToModels | Sources/DPNetwork/DPResponseMappingProtocol.swift:12-21 | the loop gives the models of the responses that map, in order |
| ResponseMappings.MapOptionalsToModels | Sources/DPNetwork/DPResponseMappingProtocol.swift:28-37 | the loop skips nil responses and nil models alike, in order |
| ResponseMappings.ModelsAppend | Sources/DPNetwork/DPResponseMappingProtocol.swift:15-18 | mapping a concatenation maps each half, in order |
| ResponseMappings.ModelsOfOne | Sources/DPNetwork/DPResponseMappingProtocol.swift:16-17 | one response gives its model, or nothing |
| ResponseMappings.ModelsMembership | Sources/DPNetwork/DPResponseMappingProtocol.swift:12-21 | a model is in the result exactly when some response maps to it |
| ResponseMappings.ModelsCount | Sources/DPNetwork/DPResponseMappingProtocol.swift:12-21 | at most one model per response, and exactly one each precisely when every response maps |
| ResponseMappings.AllMapInOrder | Sources/DPNetwork/DPResponseMappingProtocol.swift:12-21 | when every response maps, model `i` is response `i`'s model |
| ResponseMappings.OptionalsSkipNil | Sources/DPNetwork/DPResponseMappingProtocol.swift:28-37 | `mapOptionalsToModels` is `mapToModels` over the present responses |
| ResponseMappings.OptionalModelsCount | Sources/DPNetwork/DPResponseMappingProtocol.swift:28-37 | no more models than present responses, and no more of those than inputs |
| LegacyResponseMappings.Cast | DPNetwork/Sources/DPNetwork/DPResponseMappingProtocol.swift:12 | the cast succeeds exactly when no element is nil, and then unwraps each in place |
| LegacyResponseMappings.AllOrNothing | DPNetwork/Sources/DPNetwork/DPResponseMappingProtocol.swift:11-13 | every model in order when all map, `[]` as soon as one does not, so the length is 0 or the input's |
| LegacyResponseMappings.AgainstNewer | DPNetwork/Sources/DPNetwork/DPResponseMappingProtocol.swift:11-13 | the same as the newer `mapToModels` when all map; otherwise `[]` where the newer one keeps the mappable ones |
| DPRequestsWithMappingResponse.LoadModelOutcome | Sources/DPNetwork/DPRequestWithMappingResponse.swift:14-27 | `loadModel` succeeds exactly when `load` would, with `mapToModel` of the decoded response (possibly nil); failures pass through |
| DPRequestsWithMappingResponse.LoadModelsOutcome | Sources/DPNetwork/DPRequestWithMappingResponse.swift:36-50 | `loadModels` succeeds under the same conditions with `mapToModels` of the page |
| DPRequestsWithMappingResponse.LoadingAllCountsModels | Sources/DPNetwork/DPRequestWithMappingResponse.swift:40-44 | the flag counts mapped models: a short page ends paging; a full page ends it exactly when a response does not map |
| DPRequestsWithMappingResponse.DPRequestWithMappingResponse.constructor | Sources/DPNetwork/DPRequestWithMappingResponse.swift:11 | the flag starts clear, on an idle request |
| DPRequestsWithMappingResponse.DPRequestWithMappingResponse.LoadModel | Sources/DPNetwork/DPRequestWithMappingResponse.swift:14-27 | `load`'s guard and transitions, the result mapped, the flag untouched |
| DPRequestsWithMappingResponse.DPRequestWithMappingResponse.CompleteModel | Sources/DPNetwork/DPRequestWithMappingResponse.swift:15-26 | the completion gets the mapped result; `isLoading` is cleared |
| DPRequestsWithMappingResponse.DPRequestWithMappingResponse.LoadModels | Sources/DPNetwork/DPRequestWithMappingResponse.swift:29-54 | `forceReload` clears the flag; a set flag is a silent no-op before `load`; otherwise `load` runs with the same `forceReload` |
| DPRequestsWithMappingResponse.DPRequestWithMappingResponse.CompleteModels | Sources/DPNetwork/DPRequestWithMappingResponse.swift:36-53 | without a completion nothing is mapped and the flag stays; with one it gets the mapped page, and a limit sets the flag to models < limit |
| LegacyDPRequestsWithMappingResponse.TryMapCases | DPNetwork/Sources/DPNetwork/DPRequestWithMappingResponse.swift:51-53 | mapping succeeds exactly when no response throws, with one model per response in order; otherwise with the first throw's error |
| LegacyDPRequestsWithMappingResponse.LoadModelOutcome | DPNetwork/Sources/DPNetwork/DPRequestWithMappingResponse.swift:14-28 | `loadModel` succeeds exactly when the decoded response maps; a throw fails with its own error |
| LegacyDPRequestsWithMappingResponse.LoadingAllAfterMapping | DPNetwork/Sources/DPNetwork/DPRequestWithMappingResponse.swift:50-62 | when every response maps the flag becomes count < limit; a throw leaves it as it was |
| LegacyDPRequestsWithMappingResponse.DPRequestWithMappingResponse.constructor | DPNetwork/Sources/DPNetwork/DPRequestWithMappingResponse.swift:6 | the flag starts clear, on an idle request |
| LegacyDPRequestsWithMappingResponse.DPRequestWithMappingResponse.LoadModel | DPNetwork/Sources/DPNetwork/DPRequestWithMappingResponse.swift:9-32 | `load`'s guard and transitions, the throwing mapping on top |
| LegacyDPRequestsWithMappingResponse.DPRequestWithMappingResponse.CompleteModel | DPNetwork/Sources/DPNetwork/DPRequestWithMappingResponse.swift:14-31 | the completion gets the mapped result or the thrown error |
| LegacyDPRequestsWithMappingResponse.DPRequestWithMappingResponse.LoadModels | DPNetwork/Sources/DPNetwork/DPRequestWithMappingResponse.swift:34-70 | the same reset, guard and `load` as the newer tree |
| LegacyDPRequestsWithMappingResponse.DPRequestWithMappingResponse.CompleteModels | DPNetwork/Sources/DPNetwork/DPRequestWithMappingResponse.swift:46-69 | the flag is only touched when a completion evaluates the result, and a throw skips it |
| RequestsMappingModels.CompletionModels | DPNetwork/Sources/DPNetwork/RequestMappingModels.swift:14-23 | models come only from a decoded page with no error, either one per response or none |
| RequestsMappingModels.RawCountAgainstMapped | DPNetwork/Sources/DPNetwork/RequestMappingModels.swift:17-21 | the flag counts decoded responses; on a full page with an unmappable response this class delivers `[]` and keeps paging while the newer class stops |
| RequestsMappingModels.RequestMappingModels.constructor | DPNetwork/Sources/DPNetwork/RequestMappingModels.swift:3-4 | the flag starts clear |
| RequestsMappingModels.RequestMappingModels.LoadModels | DPNetwork/Sources/DPNetwork/RequestMappingModels.swift:6-24 | `isReload` clears the flag; a set flag returns before cancel and load; otherwise the URL's task is cancelled, then `load` runs (a task just cancelled is cancelled again and the load dropped) |
| RequestsMappingModels.RequestMappingModels.CompleteModels | DPNetwork/Sources/DPNetwork/RequestMappingModels.swift:14-23 | the URL's data task entry is removed and `isLoading` cleared; a limit and a decoded page set the flag to limit > count; the completion gets the all-or-nothing models with the response and error |

## Left out

- URLSession itself is not modelled: creating, resuming and really cancelling tasks, delegates, queues. A task is a number handed out by the worker, a cancelled task is recorded in a list, and its completion handler is a separate `Complete…` method that takes the transport outcome (error, status, data) as an input.
- `[weak self]` lifetimes are not modelled: the object is always alive when the callback runs.
- Logging and `isLoggingEnabled` are left out, because they only print.
- JSON encoding and decoding, `URL(string:)` and `mapToModel()` are foreign calls and become inputs.
- `Boundary.generate()` and `DPBoundary.generate()` use `UUID()`, so the boundary is an argument. Its `Boundary-` prefix is not modelled.
- The description text that `"\(value)"` prints for an array, number, boolean, null or nested object is carried by the value as an arbitrary string. Foundation's formatting of it (for an array, the parenthesised, line-broken list) is not modelled.
- The `identifer` and `session` fields of `DPNetworkWorker` are left out.
- `DPRequest.session` is fixed to a `DPNetworkWorker`. A caller could assign a `DPURLSessionInterface`, such as a `DPURLSession`; that is not modelled.
- DPRequests.DPRequest.constructor: `session` is declared as a `DPURLSessionInterface` (Sources/DPNetwork/DPRequest.swift:6), but its default value is a `DPNetworkWorker`, which conforms only to `DPNetworkWorkerInterface` (Sources/DPNetwork/DPNetworkWorker.swift:11), so the file does not type-check as written. The model reads the session as the `DPNetworkWorker` the initializer builds.
- The three `ResponseStatusCode` structs are one datatype, because they are field-for-field the same.
- NSError domains are not modelled; errors are told apart by their code only.
- Dictionary iteration order is taken to be the order of a sequence of entries with distinct keys. Swift leaves that order unspecified, so a real query string or form body may list the entries in another order.
- `lowercased()` is modelled for ASCII letters only. The `ok` body test also accepts the one non-ASCII spelling that lowers to `k` (U+212A KELVIN SIGN). Other Unicode case mappings and a byte-order mark are not modelled.
- PercentEncoding.NeverFails: Foundation's `addingPercentEncoding` fails only on invalid Unicode, which a Dafny string cannot hold. So the paths where a key or value fails to encode (the entry is dropped, or an array element is skipped) are unreachable in this model.
- `Request.parametersToData` and `Request.parametersToDictionary` compute what `toData` and `toDictionary` compute. They are modelled by `RequestParameters.ToData` and `RequestParameters.ToDictionary`.
- `RequestParametersProtocol.swift` is not part of this model: outside its JSON encoding call it is commented out.
- `DPRequest.Files.createFormData` and `Request.Files.createFormData` have the same body as the generator's. They are modelled once, as `BodyFormats.FilesFormData`, which the methods `LegacyRequest.CreateFormData` and `DPURLRequestGenerators.CreateFormData` compute.
- `DPRequest.BodyType` (four cases, with `formUrlencoded`) is never read by `DPRequest` itself.
- LegacyUrlRequestExtensions.Create: the older `URLRequest.create` takes `DPRequest.BodyType`, which only the newer tree declares, and switches over three of its four cases, so that file does not compile as written. The model reads `bodyType` as the older `Request.BodyType` (none, json, formData), the three cases the switch handles.
- The older tree's `DPRequestWithMappingResponse` extends a `DPRequest` that is not in the older tree. The model composes the newer tree's `DPRequest`.
- LegacyDPRequestsWithMappingResponse.TryMapCases, and with it TryMap, LoadModelOutcome, LoadingAllAfterMapping and the class's LoadModel, CompleteModel, LoadModels and CompleteModels: the older file calls `try response.mapToModel()` and wraps the result in `.success(model)`, but `DPResponseMappingProtocol` in both trees declares a non-throwing `mapToModel() -> ModelType?`, so the file does not type-check as written. The model reads it as a throwing `mapToModel` (an `R -> Result<M>` parameter): that is the reading the `do`/`catch` and the non-optional `Result<Response.ModelType, Error>` presuppose.
- Swift subclassing becomes composition. Each mapping class holds its base request in a `request` field, so overriding a base method is not modelled.
- `RequestMappingModel.swift`, `RequestSuccess.swift` and `ResponseMappingProtocol.swift` are not part of this model. They are one-line completion adapters and a protocol declaration with no logic of their own.
- `DataExtensions.toString` and `decodeToCodable` wrap foreign calls and are not modelled.

## Findings

| source | as written | input that shows it | evidently intended | confidence | as-written member | corrected member |
|---|---|---|---|---|---|---|
| DPNetwork/Sources/DPNetwork/Request.swift:100 | the upload body ends with `"--\(boundary)--\r\n"`, which interpolates the `Boundary` struct itself, so the line reads `--Boundary(stringValue: "…")--` | any boundary, e.g. one with `stringValue` `b`: the header declares `b`, the body ends with `--Boundary(stringValue: "b")--\r\n` | `"--\(boundary.stringValue)--\r\n"`, the close-delimiter of the declared boundary (section 5.1.1 of RFC 2046) | high; not executed | LegacyRequest.UploadBodyMismatch | LegacyRequest.CorrectedUploadCloses |
| DPNetwork/Sources/DPNetwork/Extensions/URLRequest+Extensions.swift:84 | the same interpolation in `URLRequest.create`'s upload body | any boundary, as above | the close-delimiter of the declared boundary | high; not executed | LegacyRequest.UploadBodyMismatch | LegacyRequest.CorrectedUploadCloses |
| Sources/DPNetwork/DPURLRequestGenerator.swift:127 | the same interpolation of a `DPBoundary` in the multipart body | any boundary: the body ends with `--DPBoundary(stringValue: "b")--\r\n` | the close-delimiter of the declared boundary | high; not executed | DPURLRequestGenerators.MultipartBodyMismatch | DPURLRequestGenerators.CorrectedMultipartCloses |
