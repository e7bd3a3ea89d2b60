# BingeIn video services: a Dafny model of the upload and transcode handlers

BingeIn has two backend services. The upload service (`POST /api/upload`) stores a video file
in an Appwrite bucket and creates a document for it in the Videos collection: `pending`, with an
empty `transcodedUrl`. The transcoder service (`POST /transcode`) does the rest:
- it downloads the original and runs ffmpeg to cut it into an HLS manifest and `.ts` segments;
- it uploads every segment under the name `videoDocId + "-" + segment`;
- it rewrites the manifest so that every segment name becomes the segment's public address;
- it uploads the rewritten manifest as `videoDocId + "-updated_manifest.m3u8"`;
- it updates the document to `ready`, with `transcodedUrl` set to the manifest's address.

This project models the sequential logic of both handlers as pure functions:

- `wrappers.dfy`: `Option`, and `Attempt`, the outcome of a step (a value, or the message of the
  error it threw).
- `text.dfy`: suffix tests and the decimal rendering of a number, together with its parser.
- `asset_urls.dfy`: the Appwrite file address
  `endpoint/storage/buckets/bucket/files/id/view?project=project`, and reading the id back from it.
- `regex.dfy`: `text.replace(new RegExp(name, "g"), url)` for names made of letters, digits,
  `_`, `-` and `.`:
  - `.` is a wildcard that matches anything except a line terminator;
  - matches are the leftmost non-overlapping ones;
  - `$` in the replacement is expanded as the GetSubstitution operation of the ECMAScript
    language specification (ECMA-262) prescribes for a pattern without capture groups.
- `packaging.dfy`:
  - classifying the ffmpeg output listing into segments and the manifest;
  - `tsMapping`, an insertion-ordered object whose assignment overwrites in place;
  - the manifest rewrite loop;
  - the interleaved scan loop of the handler, written as a method and proved equal to a
    specification stated one concern at a time.
- `video.dfy`: the video document, its two statuses and the transcoder's update of it.
- `transcoder.dfy`: the `/transcode` handler, as a total function from the outcomes of its steps
  to its response, the calls it made in order, and the document update that took effect.
- `upload_service.dfy`: the `/api/upload` handler, including multer's temporary file name.
- `lifecycle.dfy`: a document created by the upload service and then updated by the transcoder.

Each external effect becomes a parameter: the download, creating the output directory, ffmpeg,
the directory listing, file reads and writes, every Appwrite call, the clean-up, and the clock. Each is given as its
outcome, so every lemma holds for every way these steps can succeed or fail.

## Model

| member | source | states |
|---|---|---|
| Transcoder.Transcode | backend/bingein-transcoder-service/index.js:58-197 | The answer is 200, 400 or 500. It is 400 exactly when `videoDocId` or `originalUrl` is missing or falsy (`HasRequiredFields`). Then the body is "Missing videoDocId or originalUrl in request body." and nothing is downloaded, run, uploaded or updated. A 200 answer always comes with a document update, and every update sets `ready`. |
| Transcoder.EarlyFailure | backend/bingein-transcoder-service/index.js:68-103 | A `videoDocId` that cannot be converted to a string answers 500 with the TypeError's message before any call. A failed download, output-directory creation, ffmpeg run or directory read answers 500 "Transcoding failed" with the error's message, after only the calls made so far. |
| Transcoder.LateFailure | backend/bingein-transcoder-service/index.js:134-196 | For a run that reaches the manifest, an error from reading the last `.m3u8` file, writing the rewrite, uploading it, `updateDocument` or the clean-up answers 500 "Transcoding failed" with the error's message. The calls are those made up to that step: no manifest upload after a failed read or write, one after a failed upload, update or clean-up. Only a failed clean-up comes with the update, which set `ready` and the manifest's address. |
| Transcoder.Package | backend/bingein-transcoder-service/index.js:102-132 | The scan stage answers 200 or 500, and answers 200 only with a `ready` update. |
| Transcoder.PackageCases | backend/bingein-transcoder-service/index.js:107-132 | The scan stage has three outcomes. If the k-th segment upload is the first to throw, segments 0..k were attempted and the answer is 500. If there is no manifest, all segments were uploaded and the answer is 500 "Manifest file not found in output.". Otherwise the manifest is published with the mapping of all segments. |
| Transcoder.Publish | backend/bingein-transcoder-service/index.js:134-196 | The publishing stage answers 200 or 500, and answers 200 only with a `ready` update. |
| Transcoder.PublishFacts | backend/bingein-transcoder-service/index.js:134-196 | `Publish` reads the manifest file it is given. A throwing read or write answers 500 "Transcoding failed" with the message, and no manifest is uploaded. A throwing manifest upload or `updateDocument` answers 500 with the message after the manifest upload. The update happens exactly when the read, the write, the upload and `updateDocument` all succeed. It targets the request's document with the manifest's address and `ready`. A 200 needs the clean-up to succeed as well. A clean-up that throws answers 500 with its message, after the manifest upload, although the update took effect. The rewrite of the file read is uploaded under the prefixed name. |
| Transcoder.CommitOnlyAfterFullPackaging | backend/bingein-transcoder-service/index.js:151-170 | The document is updated exactly when every step up to the manifest upload succeeded, every segment upload included, and `updateDocument` succeeded. The update sets only `transcodedUrl` (the manifest's address) and `status = ready`. An update followed by a non-200 answer happens only when the clean-up threw. |
| Transcoder.SuccessfulRun | backend/bingein-transcoder-service/index.js:58-190 | The answer is 200 exactly when every step succeeded. It carries "Transcoding complete", the manifest's address and the document. The calls are, in order: the download, ffmpeg, one upload per `.ts` entry in listing order, and the upload of the rewrite of the file named by the last `.m3u8` entry of the listing. |
| Transcoder.MissingManifest | backend/bingein-transcoder-service/index.js:128-132 | Without a `.m3u8` entry the answer is 500 "Manifest file not found in output.", after every segment was uploaded. No manifest is uploaded and there is no update. |
| Transcoder.SegmentUploadFailure | backend/bingein-transcoder-service/index.js:107-117 | When the k-th segment upload is the first to throw, the uploads after it are not made, the answer is 500 with that error's message, and there is no update. |
| Transcoder.SegmentUploadsNamed | backend/bingein-transcoder-service/index.js:109-112 | Each segment upload is named `prefix + s`, for some `.ts` entry `s` of the listing. |
| Transcoder.UploadNames | backend/bingein-transcoder-service/index.js:109-117 | `Prefix` models line 68. Every segment upload the handler makes goes to the output bucket, named `videoDocId + "-" + name` for a `.ts` entry of the listing. |
| Transcoder.ManifestUploadName | backend/bingein-transcoder-service/index.js:144-155 | Every manifest upload goes to the output bucket, named `videoDocId + "-updated_manifest.m3u8"`. |
| Transcoder.UnmatchedManifestUnchanged | backend/bingein-transcoder-service/index.js:123-155 | When no segment name matches in the file of the last `.m3u8` entry, that file's content is uploaded as it was read. |
| Packaging.SegmentFiles | backend/bingein-transcoder-service/index.js:107-111 | There are no more segments than listing entries. |
| Packaging.SegmentFilesMembers | backend/bingein-transcoder-service/index.js:107-111 | The segments are exactly the listing's entries that end in `.ts`. |
| Packaging.SegmentFilesAppend | backend/bingein-transcoder-service/index.js:107-109 | Classification keeps listing order: the segments of a concatenation are the segments of the first part followed by those of the second. |
| Packaging.SegmentIsNoManifest | backend/bingein-transcoder-service/index.js:109-124 | No name is both a segment and a manifest, so the `else if` never hides a manifest. |
| Packaging.ManifestFile | backend/bingein-transcoder-service/index.js:123-125 | There is no manifest name exactly when no entry ends in `.m3u8`. Otherwise the name is the last `.m3u8` entry of the listing. |
| Packaging.PutNew | backend/bingein-transcoder-service/index.js:122 | Assigning a key the object does not have appends it after the existing keys. |
| Packaging.PutExisting | backend/bingein-transcoder-service/index.js:122 | Assigning a key the object already has keeps the keys and their order. |
| Packaging.PutShape | backend/bingein-transcoder-service/index.js:122 | `Put` models `tsMapping[fileName] = fileUrl`. A new key is appended, and an existing key keeps the key order. |
| Packaging.PutLookup | backend/bingein-transcoder-service/index.js:122 | After the assignment the key reads as the new address, and every other key reads as before. |
| Packaging.BuildMapping | backend/bingein-transcoder-service/index.js:103-122 | The mapping's keys are exactly the segment names. |
| Packaging.BuildMappingKeysDistinct | backend/bingein-transcoder-service/index.js:103-122 | No key occurs twice in the mapping. |
| Packaging.BuildMappingDistinct | backend/bingein-transcoder-service/index.js:103-122 | For names without repeats, the mapping pairs the k-th name with the k-th address, in order. |
| Packaging.SegmentFilesDistinct | backend/bingein-transcoder-service/index.js:102-109 | A directory listing without repeats yields segments without repeats. |
| Packaging.FirstThrow | backend/bingein-transcoder-service/index.js:113-117 | The first segment upload that throws: all uploads before it succeed, and if there is none, all succeed. |
| Packaging.Collect | backend/bingein-transcoder-service/index.js:107-126 | The scan never attempts more uploads than there are segments, and a completed scan gives a mapping whose names are all non-empty. |
| Packaging.CollectMapping | backend/bingein-transcoder-service/index.js:107-126 | After a completed scan, every segment upload succeeded, and `tsMapping` maps the k-th `.ts` entry to the address of the k-th upload, in listing order. |
| Packaging.SegmentMapping | backend/bingein-transcoder-service/index.js:103-122 | `tsMapping` after every segment upload succeeded. Each of its names is non-empty, so each can be used as a pattern. |
| Packaging.FirstThrowAt | backend/bingein-transcoder-service/index.js:113-117 | An upload that throws after only successful ones is the first throw of the scan. |
| Packaging.SegmentCountGrows | backend/bingein-transcoder-service/index.js:107-111 | A `.ts` entry has more segments after it is scanned than before. |
| Packaging.ScanStart | backend/bingein-transcoder-service/index.js:103-104 | Before the loop, the mapping is empty, no manifest was seen and no upload started: the state of the empty prefix. |
| Packaging.ScanSegment | backend/bingein-transcoder-service/index.js:109-122 | A `.ts` entry whose upload succeeds extends the state of the prefix by one assignment and one upload. |
| Packaging.ScanOther | backend/bingein-transcoder-service/index.js:123-125 | Any other entry keeps the mapping, and a `.m3u8` entry becomes the manifest name. |
| Packaging.ScanThrow | backend/bingein-transcoder-service/index.js:113-117 | A `.ts` entry whose upload throws ends the scan with that error, after one more attempt. |
| Packaging.ScanEnd | backend/bingein-transcoder-service/index.js:107-126 | The state after the whole listing is the specified result of the scan. |
| Packaging.ScanEntry | backend/bingein-transcoder-service/index.js:107-126 | One iteration of the loop either stops with the scan's specified error, or extends the state of the prefix by one entry. |
| Packaging.CollectOutput | backend/bingein-transcoder-service/index.js:102-126 | The handler's single interleaved loop gives the same result, and the same number of attempted uploads, as the specification `Collect`. |
| Packaging.RewriteAllAppend | backend/bingein-transcoder-service/index.js:139-142 | `RewriteAll` models the loop of lines 139-142. Rewriting with a concatenated mapping is rewriting with the first part, then with the second: the replaces happen in insertion order. |
| Packaging.RewriteAllNoMatch | backend/bingein-transcoder-service/index.js:139-142 | A manifest that no key matches is left unchanged by the rewrite. |
| Regex.OccurrenceMatches | backend/bingein-transcoder-service/index.js:140 | A place where the name itself occurs is a match of its regular expression. |
| Regex.DotMatchesAnyCharacter | backend/bingein-transcoder-service/index.js:140 | The dot of a segment name is a wildcard: "seg0.ts" matches "seg0xts" but not "seg0", newline, "ts". |
| Regex.FindFrom | backend/bingein-transcoder-service/index.js:140-141 | A search from `lastIndex` finds the first match at or after it, or reports that there is none. |
| Regex.PositionsMatch | backend/bingein-transcoder-service/index.js:140-141 | Every position a global replace rewrites is a match at or after the search start. |
| Regex.PositionsSeparated | backend/bingein-transcoder-service/index.js:140-141 | The rewritten positions increase, and the matches at them do not overlap. |
| Regex.PositionsCover | backend/bingein-transcoder-service/index.js:140-141 | Every match in the text lies inside a rewritten match. |
| Regex.PositionsLeftmost | backend/bingein-transcoder-service/index.js:140-141 | The positions a global replace rewrites are matches, are in increasing order and do not overlap, and together they cover every match in the text. |
| Regex.LeftmostUnique | backend/bingein-transcoder-service/index.js:140-141 | These are the only such positions: any leftmost non-overlapping cover of the matches is the one the replace uses. |
| Regex.NoPositionsIffNoMatch | backend/bingein-transcoder-service/index.js:140-141 | The replace rewrites no position exactly when the name matches nowhere in the text. |
| Regex.ReplaceFromSplices | backend/bingein-transcoder-service/index.js:140-141 | A global replace from a position splices the expanded replacement in at exactly the positions its searches collect, and keeps the text between and after them. |
| Regex.GlobalReplaceSplices | backend/bingein-transcoder-service/index.js:140-141 | `GlobalReplace` models `manifestContent.replace(regex, fileUrl)` through `ReplaceFrom` and `Expand`. The result of `manifestContent.replace(regex, fileUrl)` is the text with the replacement spliced in at the leftmost non-overlapping matches, however those matches are given. |
| Regex.ExpandLiteral | backend/bingein-transcoder-service/index.js:141 | `Expand` models the expansion of `$` patterns in the replacement. A replacement without `$` is inserted as written. |
| Regex.ReplaceFromLength | backend/bingein-transcoder-service/index.js:141 | Each of the n matches replaced changes the length by the length of the address minus the length of the name. |
| Regex.GlobalReplaceLength | backend/bingein-transcoder-service/index.js:141 | The rewritten text's length is the original length, minus n times the name's length, plus n times the address's length. |
| Regex.GlobalReplaceNoMatch | backend/bingein-transcoder-service/index.js:141 | A text the name matches nowhere comes back unchanged. |
| Regex.GlobalReplaceSingle | backend/bingein-transcoder-service/index.js:140-141 | In a text matched once, at an occurrence of the name, exactly that occurrence becomes the address and the rest is kept. |
| Regex.ReplaceOnce | backend/bingein-transcoder-service/index.js:140-141 | A replace whose first search finds a match and whose next search finds none replaces just that match. |
| Regex.SingleMatchFound | backend/bingein-transcoder-service/index.js:140-141 | In such a text the first search finds the occurrence and the next search finds nothing. |
| Regex.LongerNameUntouched | backend/bingein-transcoder-service/index.js:140-141 | Replacing "seg1.ts" leaves "seg10.ts" alone. |
| Regex.SuffixNameRewritten | backend/bingein-transcoder-service/index.js:140-141 | Replacing "seg1.ts" rewrites inside a longer name that ends with it: "aseg1.ts" becomes "a" followed by the address. |
| AssetUrls.FileUrl | backend/bingein-transcoder-service/index.js:120 | The length of a file address is the length of its fixed parts plus the length of the id. |
| AssetUrls.FileIdOfFileUrl | backend/bingein-transcoder-service/index.js:159 | The file id can be read back from the address built from it. |
| AssetUrls.FileUrlOfFileIdOf | backend/bingein-transcoder-service/index.js:159 | An address from which an id can be read is the address of that id. |
| AssetUrls.FileUrlInjective | backend/bingein-transcoder-service/index.js:120 | For a fixed endpoint, bucket and project, two ids give the same address exactly when they are equal. |
| Text.Decimal | backend/bingein-upload-service/index.js:30 | The rendering of `Date.now()` is a non-empty string of digits without a leading zero. |
| Text.ParseDecimalOfDecimal | backend/bingein-upload-service/index.js:30 | The number can be read back from its rendering. |
| Text.DecimalInjective | backend/bingein-upload-service/index.js:30 | Different times render differently. |
| UploadService.SplitDiskNameOfDiskName | backend/bingein-upload-service/index.js:28-31 | `DiskName` models the file-name callback at line 30. The time and the original name can be read back from the temporary name `Date.now() + "-" + originalname`, whatever the original name contains. |
| UploadService.DiskNameInjective | backend/bingein-upload-service/index.js:28-31 | Two temporary names are equal exactly when the time and the original name are equal. |
| UploadService.Upload | backend/bingein-upload-service/index.js:46-86 | The answer is 200, 400 or 500. It is 400 "No file uploaded" exactly when no file came, and then nothing is stored or created. 500 is "Internal Server Error" with no document. 200 is answered exactly when a document was created. |
| UploadService.StoredFileNamed | backend/bingein-upload-service/index.js:54-81 | A received file is stored from its temporary name under its original name. The answer is 200 exactly when both `createFile` and `createDocument` succeed, and it carries "File uploaded .", the file and the document. |
| UploadService.CreatedRecord | backend/bingein-upload-service/index.js:58-73 | `Title` models `req.body.title || file.originalname`. A created document is `pending` with an empty `transcodedUrl`. Its `originalUrl` is the stored file's address, and the file's id can be read back from it. Its title is the form's title when that is non-empty, and the file's original name otherwise. |
| Video.StatusText | backend/bingein-upload-service/index.js:72 | The stored text is `pending` exactly for the pending status and `ready` exactly for the ready status, which the transcoder writes at line 168 of its handler. |
| Lifecycle.UploadThenTranscode | backend/bingein-transcoder-service/index.js:162-170 | Take a file the upload service stored and recorded, and a transcoder run whose steps all succeed through `updateDocument`. The document is created, and the update takes effect. Applied to the document, the update makes it `ready` with `transcodedUrl` set to the manifest's address, and the document keeps its title and `originalUrl`. It was `pending` before. |

## Left out

- Express routing, environment loading and Appwrite client set-up: the environment values are
  the `Config` parameters.
- The streamed download, multer's disk storage and the `Date.now()` clock: the download is an
  `Attempt`, and the clock is the `now` parameter.
- The ffmpeg process and its shell command line: only whether it threw is modelled, so the
  quoting of paths is not modelled.
- Appwrite's `createFile`, `createDocument` and `updateDocument`: each is an `Attempt` that
  gives the new id or the reply.
- The fixed shared paths `input.mp4` and `output`, and the file deletions of the clean-up. They
  are file-system effects, and the clean-up appears only as one `Attempt`. Their hazard arises
  between concurrent requests. It also reaches every later run. A failure before the clean-up
  skips it, and a clean-up that throws part-way stops deleting, so files of a failed run stay
  in `output`. The next item covers this.
- The contents of the output directory are the `listing` parameter, and the content of each
  file is given by the `manifestRead` step for its name. Files left there by an earlier run are
  part of the listing, as they are in the handler: their `.ts` files are uploaded and mapped
  like new ones. The manifest read is that of the last
  `.m3u8` entry, which can be an `updated_manifest.m3u8` left behind by a run that failed
  after writing it.
- Transcoder.Transcode: requires that every `.ts` name of the listing consist of letters,
  digits, `_`, `-` and `.`. A name with other regular-expression syntax (`+`, `(`, `[`, …)
  would build a different expression, or throw; ffmpeg's own segment names never contain
  such characters.
- Regex.ReplaceFromLength: stated for addresses without `$`. Replacement patterns are modelled
  in `Expand`, but the length formula assumes they do not occur.
- Regex.GlobalReplaceLength: stated for addresses without `$`, for the same reason.
- Regex.GlobalReplaceSingle: stated for addresses without `$`, so that the address is inserted
  as written. `Regex.GlobalReplaceSplices` covers every replacement.
- Regex.ReplaceOnce: stated for addresses without `$`, for the same reason.
- Regex.SuffixNameRewritten: stated for addresses without `$`, for the same reason.
- Packaging.CollectMapping: stated for a listing without repeats, which a directory listing is.
- Strings are sequences of Unicode characters. JavaScript works on UTF-16 code units. The two
  agree for the ASCII names and addresses. In the manifest text, a character outside the Basic
  Multilingual Plane is one character here but two code units in JavaScript. A '.' of a
  pattern therefore matches all of it here, and only half of it in JavaScript. ffmpeg writes
  ASCII manifests.
- A request whose body is not a JSON object: `BodyField` covers absent fields, strings, other
  JSON values given by their truthiness and string rendering, and objects whose conversion to
  a string throws. `originalUrl` is handed to the HTTP client as it is, so what the client
  makes of a non-string value is part of the download's outcome.
- A repeated multipart `title` field (multer then gives an array): the title is `Option<string>`.
- UploadService.Upload: the 200 body's `res` is the whole `createFile` reply; the model keeps
  its `$id`. The body key is spelled `videDocument` in the handler.
- The two services run independently. Nothing in either handler passes the upload's document
  id to the transcoder, so `Lifecycle.UploadThenTranscode` takes both runs as given.
- Hardening the handlers do not implement: per-job
  workspaces, a 409 answer for a job already running, a `failed` status, and exact-token
  manifest rewriting. This model follows the handlers instead:
  - every failure before `updateDocument` succeeds answers 500 and leaves the document as it
    was: `pending` after an upload, or `ready` after an earlier successful run;
  - a clean-up that throws answers 500 after the update took effect;
  - the rewrite is a regular-expression replace over the whole manifest text.

  `Regex.LongerNameUntouched` and `Regex.SuffixNameRewritten` show what that replace does to
  related names.
- The React front end: it is a user interface with no logic of its own to model.
