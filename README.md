# web-shots: URL check and screenshot route, modelled in Dafny

The repository is a small Next.js service that takes screenshots of web
pages. Two pieces of it are modelled here.

- **`checkUrl`** (`lib/helper.ts`). It tests a string against one anchored,
  case-insensitive regular expression. The pattern has an optional
  `http://` or `https://` scheme, then a host, then an optional port, path
  segments, an optional query and an optional fragment. The host is a
  domain name (labels, dots, and a top-level label of at least two
  letters) or a dotted quad of 1-3 digit groups.
- **The screenshot API route** (`pages/api/screenshot.ts`). It checks the
  API key and the `url` query parameter, captures the page, and writes
  the image to a file in an `images` directory under the module's
  directory. It then uploads and deletes the file at
  `./public/images/<name>`, relative to the working directory; that is
  the written file only when the process runs in the module's directory
  (see "## Findings"). It answers with the upload's URL and ids. Any
  error is answered with an error response.

## Files

- `wrappers.dfy`: module `Wrappers`, the `Option` type.
- `url_check.dfy`: module `UrlCheck`. It has two descriptions of the same
  language:
  - a recognizer, one total function per grammar part, that scans without
    backtracking (`CheckUrl`);
  - a declarative description in which each concatenation of the pattern is
    "there is a split of the string into this part and the rest"
    (`Matches`).
- `url_check_equivalence.dfy`: module `UrlCheckEquivalence`. It proves,
  part by part, that the two descriptions accept the same strings.
- `url_check_properties.dfy`: module `UrlCheckProperties`. It proves what
  the pattern promises:
  - the case of letters does not matter;
  - only the two schemes are allowed;
  - the host is mandatory;
  - the shape of labels;
  - a quad is checked by digit count only;
  - the alphabet;
  - the order of the parts.
- `screenshot_handler.dfy`: module `ScreenshotHandler`, the route:
  - the guard chain as a function;
  - the filesystem as a class whose `files` and `directories` the route
    changes in place;
  - the route itself as a method that records its external calls in a
    ghost trace of `Step`s;
  - the response mapping, and lemmas about the temporary file.

In the model, `CheckUrl` is total. No function of the recognizer has a
precondition, and each one terminates on every string, so every string
gets an answer. This is a statement about the model, not about the
running time of the source's regular expression engine (see "## Left
out").

The route's inputs are parameters:
- the request header and query;
- the `API_KEY` and `UPLOAD_URL` environment values;
- the `isUri` test of the URL library;
- what the capture and the upload resolve or reject with;
- the random id;
- the module's directory (`__dirname`).

The working directory is the `cwd` of the `FileSystem` object.

## Model

| member | source | states |
|---|---|---|
| UrlCheck.CheckUrl | lib/helper.ts:12 | `checkUrl` itself: the optional scheme is stripped, then the rest is scanned; its own contract says only that the empty string is never accepted, and `CheckUrlMatches` states which strings it accepts |
| UrlCheck.Span | lib/helper.ts:4-8 | the length of the longest prefix in a character class: the prefix is in the class and the next character is not |
| UrlCheck.SchemeLength | lib/helper.ts:3 | the optional scheme takes 0, 7 or 8 characters and never more than the string has |
| UrlCheckEquivalence.CheckUrlMatches | lib/helper.ts:2-12 | `checkUrl` accepts a string exactly when it splits into scheme, host, port, path, query and fragment parts of the pattern, in this order, with nothing before or after (the anchors) |
| UrlCheckEquivalence.LabelIff | lib/helper.ts:4 | the scanned label test agrees with `[a-z\d]([a-z\d-]*[a-z\d])*` |
| UrlCheckEquivalence.TldIff | lib/helper.ts:4 | the top-level label is two or more letters |
| UrlCheckEquivalence.DomainSound | lib/helper.ts:4 | a scanned domain is a sequence of labels each followed by a dot, then a top-level label |
| UrlCheckEquivalence.DomainComplete | lib/helper.ts:4 | every such sequence of labels passes the scan |
| UrlCheckEquivalence.DigitGroupsSound | lib/helper.ts:5 | a scanned quad is groups of 1-3 digits joined by dots |
| UrlCheckEquivalence.DigitGroupsComplete | lib/helper.ts:5 | every such sequence of digit groups passes the scan |
| UrlCheckEquivalence.HostIff | lib/helper.ts:4-5 | the host test agrees with the alternative of domain name or dotted quad |
| UrlCheckEquivalence.HostHasDot | lib/helper.ts:4-5 | every host holds a dot, and it returns that dot's index |
| UrlCheckEquivalence.HostOnwardIff | lib/helper.ts:4-8 | cutting the host at the first non-host character loses no match: backtracking into the host never helps |
| UrlCheckEquivalence.PortIff | lib/helper.ts:6 | from the port on, the scan agrees with the pattern: a colon and at least one digit, or nothing, then path, query and fragment |
| UrlCheckEquivalence.PathIff | lib/helper.ts:6 | from the path on, the scan agrees with the pattern: any number of segments, each a slash and segment characters, then query and fragment |
| UrlCheckEquivalence.QueryIff | lib/helper.ts:7 | from the query on, the scan agrees with the pattern: a `?` and query characters, or nothing, then the fragment |
| UrlCheckEquivalence.FragmentIff | lib/helper.ts:8 | the rest is a `#` and fragment characters, or nothing: the fragment ends the string |
| UrlCheckEquivalence.SchemeIsDetermined | lib/helper.ts:3 | in any match the scheme part is exactly the prefix the recognizer strips |
| UrlCheckProperties.CheckUrlIgnoresCase | lib/helper.ts:9 | two strings that differ only in the case of ASCII letters are both accepted or both rejected |
| UrlCheckProperties.CheckUrlChars | lib/helper.ts:3-8 | in an accepted string every character may follow the port, or it is the scheme's colon, or it is a colon followed by a digit |
| UrlCheckProperties.CheckUrlAlphabet | lib/helper.ts:3-8 | an accepted string holds only letters, digits and the pattern's punctuation |
| UrlCheckProperties.SpaceIsRejected | lib/helper.ts:3-8 | a string with a space is rejected |
| UrlCheckProperties.NotAUrlIsRejected | lib/helper.ts:3-8 | "not a url" is rejected |
| UrlCheckProperties.OnlyHttpSchemes | lib/helper.ts:3 | a `://` in an accepted string closes an `http://` or `https://` at the very start |
| UrlCheckProperties.OtherSchemeIsRejected | lib/helper.ts:3 | a `://` anywhere else means rejection |
| UrlCheckProperties.FtpIsRejected | lib/helper.ts:3 | "ftp://a.com" is rejected |
| UrlCheckProperties.HostIsMandatory | lib/helper.ts:4-5 | an accepted string has a dot after its scheme: there is always a host, and it is never a bare name |
| UrlCheckProperties.WithoutDotIsRejected | lib/helper.ts:4-5 | a string without a dot is rejected |
| UrlCheckProperties.EmptyIsRejected | lib/helper.ts:4-5 | the empty string is rejected |
| UrlCheckProperties.LocalhostIsRejected | lib/helper.ts:4-5 | "localhost" is rejected |
| UrlCheckProperties.LocalhostWithPortIsRejected | lib/helper.ts:4-6 | "http://localhost:3000" is rejected |
| UrlCheckProperties.HostCharsOnly | lib/helper.ts:3-8 | a string of host characters only is accepted exactly when it is a host |
| UrlCheckProperties.HostAloneIsAccepted | lib/helper.ts:4-5 | a bare host, with no scheme and no tail, is accepted |
| UrlCheckProperties.DomainEndsInLetter | lib/helper.ts:4 | a domain name ends in a letter of its top-level label |
| UrlCheckProperties.TldWithDigitIsRejected | lib/helper.ts:4 | "a.b1" is rejected: the top-level label is letters only |
| UrlCheckProperties.HyphensInsideLabels | lib/helper.ts:4 | in a domain name a hyphen is never first, never last and never next to a dot |
| UrlCheckProperties.LeadingHyphenIsRejected | lib/helper.ts:4 | a string that opens with a hyphen is rejected |
| UrlCheckProperties.HyphenFirstIsRejected | lib/helper.ts:4 | "-a.com" is rejected |
| UrlCheckProperties.LabelAndTldIsAccepted | lib/helper.ts:4 | a label, a dot and a top-level label are accepted |
| UrlCheckProperties.HyphenInsideLabelIsAccepted | lib/helper.ts:4 | "a-b.com" is accepted |
| UrlCheckProperties.DigitGroupsCons | lib/helper.ts:5 | a digit group, a dot, and groups joined by one dot fewer make groups joined by `dots` dots |
| UrlCheckProperties.DottedQuadIsAccepted | lib/helper.ts:5 | any four groups of 1-3 digits joined by dots are accepted, whatever their values (so 999.999.999.999 is) |
| UrlCheckProperties.CheckUrlInOrder | lib/helper.ts:6-8 | the parts come in the pattern's order: after a `?` comes no `/`, `:` or second `?`, and after a `#` comes no `/`, `:`, `?` or second `#` |
| ScreenshotHandler.Guard | pages/api/screenshot.ts:44-56 | the request gets through exactly when all four checks pass; otherwise the first failing check answers: 400 "API Key is required", 401 "Unauthorized", 400 "URL is required", 400 "Invalid URL" |
| ScreenshotHandler.FileName | pages/api/screenshot.ts:67 | the temporary name is the id, a dot, and the `type` or "png" when `type` is missing or empty |
| ScreenshotHandler.ErrorResponse | pages/api/screenshot.ts:89-95 | an error with a response gives that status and data; any other error gives 500 and its message; neither has an image or ids |
| ScreenshotHandler.SuccessResponse | pages/api/screenshot.ts:81-88 | 200, "Here is your shot", the upload's URL as image, asset id and public id as ids |
| ScreenshotHandler.Truthy | pages/api/screenshot.ts:46-52 | a missing value and the empty string are falsy, any other string is truthy |
| ScreenshotHandler.OrElse | pages/api/screenshot.ts:67-79 | the logical or of a value and a fallback: the value when it is truthy, the fallback otherwise |
| ScreenshotHandler.CaptureStep | pages/api/screenshot.ts:59 | the capture gets the query's url and its height, quality, type and width unchanged |
| ScreenshotHandler.ImageDirectory | pages/api/screenshot.ts:62 | the image directory is the module's directory followed by `/public/images` |
| ScreenshotHandler.WritePath | pages/api/screenshot.ts:67 | the written file is the name inside the image directory, after one `/` |
| ScreenshotHandler.LocalPath | pages/api/screenshot.ts:72-79 | the uploaded and deleted path is relative: `./public/images/` followed by the name |
| ScreenshotHandler.FileSystem.Resolve | pages/api/screenshot.ts:62-79 | an absolute path is used as written; a relative one is taken below the working directory, after a `/` |
| ScreenshotHandler.UnlinkFailure | pages/api/screenshot.ts:79-95 | deleting a missing file is an error without a response, so it answers 500 with the error's own message |
| ScreenshotHandler.FileSystem.Exists | pages/api/screenshot.ts:65 | `existsSync`: a path exists when it resolves to a directory or a file; an absolute path, such as the image directory under `__dirname`, is looked up as written |
| ScreenshotHandler.FileSystem.MakeDirectory | pages/api/screenshot.ts:65 | the directory exists afterwards; the files are unchanged |
| ScreenshotHandler.FileSystem.WriteFile | pages/api/screenshot.ts:67 | the file holds the data afterwards; nothing else changes |
| ScreenshotHandler.FileSystem.Unlink | pages/api/screenshot.ts:79 | removes an existing file; for a missing one it changes nothing and fails with ENOENT |
| ScreenshotHandler.SameFileIffSameDirectory | pages/api/screenshot.ts:62-79 | the written file and the uploaded and deleted file are the same file exactly when the working directory is the module's directory |
| ScreenshotHandler.Handle | pages/api/screenshot.ts:26-97 | a failed guard answers with no effect; otherwise the capture happens first and only once; a failed capture answers with the error mapping and touches nothing; after a capture the steps, files, directories and response are as `Delivered` says |
| ScreenshotHandler.DeliverySteps | pages/api/screenshot.ts:62-79 | the mkdir of the image directory is the first step exactly when the directory was missing, and there is no other mkdir; the write, at the path under the module's directory, comes next, then the upload; the upload and the delete both use `./public/images/<name>`; the delete is the last step, and it happens only after a completed upload; there is no second capture |
| ScreenshotHandler.DeliveryStepsJoin | pages/api/screenshot.ts:62-79 | the steps after a capture are the storing steps followed by the publishing steps |
| ScreenshotHandler.StoreSteps | pages/api/screenshot.ts:62-67 | one step, the write, when the directory existed; otherwise the mkdir of the image directory and then the write |
| ScreenshotHandler.PublishSteps | pages/api/screenshot.ts:69-79 | the upload of `./public/images/<name>` first, then, only after a completed upload, the delete of the same path |
| ScreenshotHandler.Deliver | pages/api/screenshot.ts:62-88 | the files, directories, steps and response after a capture, for every upload outcome and filesystem state |
| ScreenshotHandler.StoreImage | pages/api/screenshot.ts:62-67 | the image directory is made when missing, then the image is written at the write path |
| ScreenshotHandler.PublishImage | pages/api/screenshot.ts:69-88 | a failed upload maps to the error response and leaves the file; a completed one deletes the file at the relative path, and then answers 200, or 500 when there was no file |
| ScreenshotHandler.SuccessOnlyAfterDeletion | pages/api/screenshot.ts:79-88 | after a completed upload the answer is 200 exactly when there was a file at the relative path, and that file is then gone; otherwise it is the 500 ENOENT answer |
| ScreenshotHandler.WrittenFileRemovedIffSameDirectory | pages/api/screenshot.ts:62-79 | after a completed upload the written file is gone exactly when the working directory is the module's directory, and then the answer is the success response |
| ScreenshotHandler.WritePathInCurrentDirectory | pages/api/screenshot.ts:62-72 | written under `.`, the image lands at the relative path the upload reads |
| ScreenshotHandler.DeliverAtOnePath | pages/api/screenshot.ts:62-88 | with one path for write, upload and delete, a completed upload always answers 200 and leaves no temporary file; the image directory is added exactly when it was missing, and the steps are those of `DeliverySteps` |

## Findings

| source | as written | input that shows it | evidently intended | confidence | as-written member | corrected member |
|---|---|---|---|---|---|---|
| pages/api/screenshot.ts:62-79 | the image is written under `__dirname/public/images`, but it is uploaded from and deleted at `./public/images`, which is relative to the working directory | any call in which the working directory is not the module's directory: the upload reads a file that was never written, the written file is never deleted, and after a completed upload the delete fails (500 ENOENT) unless some other file sits at the relative path | the file that is uploaded and deleted is the file that was written | medium, not executed | ScreenshotHandler.WrittenFileRemovedIffSameDirectory | ScreenshotHandler.DeliverAtOnePath |

`Handle` keeps the route as written, so it calls `Deliver`.
`DeliverAtOnePath` is the corrected pipeline, proved on its own.

## Left out

- `sleep` and `debounce` (lib/helper.ts:14-23) are timers. They are not
  modelled.
- The screenshot library (`lib/screenshot`) is not part of this model. Its
  result or its error is the `capture` parameter.
- The `isUri` test of the `valid-url` package is not part of this model.
  It is the `isUri` parameter.
- `nanoid` is random. The id is the `id` parameter.
- The base64 round trip (lines 60 and 67) is taken as the identity: the
  file holds the captured bytes.
- The HTTP request of `axios`, the `FormData` body (the `file` stream and
  `upload_preset`) and the upload service are not modelled. Their result
  or error is the `upload` parameter.
- The upload outcome does not depend on the filesystem. In the source,
  a stream of a missing file would make the upload fail. In the model
  the `upload` parameter decides that outcome, whatever the files are.
- `existsSync`, `mkdirSync` and `writeFileSync` never fail in the model.
  In the source, a permission error or a file in the way would reach the
  catch block as a plain error (a 500).
- `mkdirSync` with `recursive: true` also makes missing ancestors. The
  model adds only the image directory itself.
- `path.join` normalisation (of `..`, `.` and double slashes) is not
  modelled. The image directory is the module's directory followed by
  `/public/images`.
- Array-valued headers and query values (for example `string[]`) are not
  modelled. The header and each query value is an optional string.
- `error.response.data` is whatever body the remote end sent, often a
  JSON object, and `error.message` is undefined when something other
  than an `Error` is thrown. The model takes both as strings. The
  pass-through from the error to the response holds either way.
- `${data.url}` converts any value to a string. The model takes the URL
  as a string.
- The Next.js request and response objects are values: the `Request`
  going in, and the `Response` (status and body) coming out.
- `process.env.API_KEY` and `process.env.UPLOAD_URL` are the
  `Environment` parameter.
- Matching time and engine limits of `checkUrl` are not modelled. The
  model describes which strings the pattern accepts. The source runs the
  pattern on a backtracking engine. There, the nested quantifier
  `([a-z\d-]*[a-z\d])*` can split a run of letters in exponentially many
  ways before a match fails. A long string of letters with no dot may
  take far too long to reject, and a very long input may exhaust the
  engine. The model's recognizer scans once, left to right.
- Requests are not concurrent: one call runs from start to end.
- Strings are sequences of Unicode characters, not UTF-16 code units.
  The pattern only admits ASCII characters, so this makes no difference.
- The `i` flag is modelled as ASCII case folding. Without the `u` flag,
  JavaScript folds no other character onto an ASCII letter.
