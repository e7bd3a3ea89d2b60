/** The `/transcode` handler as a total function from the outcomes of its steps to the
    response it sends, the remote calls it makes and the document update that takes effect.
    Downloading, running ffmpeg, reading and writing local files, the storage uploads, the
    document update and the final clean-up each appear only as an outcome: a value, or the
    message of the error they throw. */
module Transcoder {
  import opened Wrappers
  import opened AssetUrls
  import opened Regex
  import opened Packaging
  import opened Video

  /** A property of the JSON request body as destructuring reads it: absent, a string, some
      other JSON value given by its truthiness and its rendering as a string, or an object
      that has no string rendering because its `toString` is not a function (as in
      `{"toString": 1}`), so that converting it throws. */
  datatype BodyField =
    | Missing
    | JsonText(text: string)
    | OtherJson(truthy: bool, rendered: string)
    | NoPrimitive

  predicate Truthy(f: BodyField)
  {
    match f
    case Missing => false
    case JsonText(t) => t != ""
    case OtherJson(b, _) => b
    case NoPrimitive => true
  }

  /** The field converts to a string without throwing. */
  predicate Renderable(f: BodyField)
  {
    !f.NoPrimitive?
  }

  /** The field as string concatenation and the HTTP client see it. */
  function Rendered(f: BodyField): string
    requires Renderable(f)
  {
    match f
    case Missing => "undefined"
    case JsonText(t) => t
    case OtherJson(_, r) => r
  }

  datatype Request = Request(videoDocId: BodyField, originalUrl: BodyField)

  /** The environment: the output bucket's store and the Videos collection. */
  datatype Config = Config(store: Store, databaseId: string, collectionId: string)

  /** What each step does when the handler reaches it. `outputDir` is creating the output
      directory when it is missing, `segmentUpload(k)` the outcome of the k-th segment upload
      (its file `$id`), `manifestRead(name)` reading the output file `name`, and
      `documentUpdate` the store's reply. */
  datatype Steps = Steps(
    download: Attempt<()>,
    outputDir: Attempt<()>,
    engine: Attempt<()>,
    listing: Attempt<seq<string>>,
    segmentUpload: nat -> Attempt<string>,
    manifestRead: string -> Attempt<string>,
    manifestWrite: Attempt<()>,
    manifestUpload: Attempt<string>,
    documentUpdate: Attempt<string>,
    cleanup: Attempt<()>)

  /** The calls the handler makes to things outside it, in order. */
  datatype Call =
    | Download(url: BodyField)
    | RunEngine
    | UploadSegment(bucket: string, name: string)
    | UploadManifest(bucket: string, name: string, content: string)

  /** An `updateDocument` call that took effect. */
  datatype DocumentWrite = DocumentWrite(databaseId: string, collectionId: string, documentId: string, fields: VideoUpdate)

  datatype Body =
    | Error(error: string)
    | ErrorDetails(error: string, details: string)
    | Complete(message: string, manifestUrl: string, video: string)

  datatype Response = Response(status: nat, body: Body)

  datatype Outcome = Outcome(response: Response, calls: seq<Call>, update: Option<DocumentWrite>)

  const MissingFields := "Missing videoDocId or originalUrl in request body."
  const ManifestNotFound := "Manifest file not found in output."
  const TranscodingFailed := "Transcoding failed"
  const TranscodingComplete := "Transcoding complete"
  const UpdatedManifestName := "updated_manifest.m3u8"
  /** The message of the TypeError JavaScript throws for `NoPrimitive + "-"`. */
  const NoPrimitiveMessage := "Cannot convert object to primitive value"

  predicate HasRequiredFields(req: Request)
  {
    Truthy(req.videoDocId) && Truthy(req.originalUrl)
  }

  /** The prefix put in front of every uploaded name. */
  function Prefix(req: Request): string
    requires Renderable(req.videoDocId)
  {
    Rendered(req.videoDocId) + "-"
  }

  /** The segment names of a listing can be used as patterns: they consist of letters,
      digits, '_', '-' and '.', as the names ffmpeg writes do. */
  predicate PlainSegmentNames(steps: Steps)
  {
    steps.listing.Done? ==>
      forall i :: 0 <= i < |steps.listing.value| && IsSegmentFile(steps.listing.value[i]) ==>
        PlainPattern(steps.listing.value[i])
  }

  function SegmentUploads(bucket: string, prefix: string, names: seq<string>): (r: seq<Call>)
    ensures |r| == |names|
    ensures forall i :: 0 <= i < |names| ==> r[i] == UploadSegment(bucket, prefix + names[i])
  {
    seq(|names|, i requires 0 <= i < |names| => UploadSegment(bucket, prefix + names[i]))
  }

  /** The catch block: 500 with the thrown error's message. */
  function Failed(message: string, calls: seq<Call>, update: Option<DocumentWrite>): Outcome
  {
    Outcome(Response(500, ErrorDetails(TranscodingFailed, message)), calls, update)
  }

  /** The handler: validation, building the prefix, the download, creating the output
      directory, ffmpeg and reading the output directory. The segment names are required to
      be plain patterns (see `PlainSegmentNames`); nothing else is required of the request or
      of the steps. */
  function Transcode(cfg: Config, req: Request, steps: Steps): (o: Outcome)
    requires PlainSegmentNames(steps)
    ensures o.response.status in {200, 400, 500}
    ensures o.response.status == 400 <==> !HasRequiredFields(req)
    ensures o.response.status == 400 ==> o.calls == [] && o.update == None
    ensures o.response.status == 400 ==> o.response.body == Error(MissingFields)
    ensures o.response.status == 200 ==> o.update.Some?
    ensures o.update.Some? ==> o.update.value.fields.status == Ready
  {
    if !HasRequiredFields(req) then
      Outcome(Response(400, Error(MissingFields)), [], None)
    else if !Renderable(req.videoDocId) then Failed(NoPrimitiveMessage, [], None)
    else
      var fetched := [Download(req.originalUrl)];
      if steps.download.Threw? then Failed(steps.download.message, fetched, None)
      else if steps.outputDir.Threw? then Failed(steps.outputDir.message, fetched, None)
      else
        var ran := [Download(req.originalUrl), RunEngine];
        if steps.engine.Threw? then Failed(steps.engine.message, ran, None)
        else if steps.listing.Threw? then Failed(steps.listing.message, ran, None)
        else Package(cfg, req, steps, ran)
  }

  /** The scan of the output directory (segment uploads, `tsMapping`, the manifest name) and
      the check that a manifest was found. */
  function Package(cfg: Config, req: Request, steps: Steps, ran: seq<Call>): (o: Outcome)
    requires PlainSegmentNames(steps) && steps.listing.Done? && Renderable(req.videoDocId)
    ensures o.response.status in {200, 500}
    ensures o.response.status == 200 ==> o.update.Some?
    ensures o.update.Some? ==> o.update.value.fields.status == Ready
  {
    var listing := steps.listing.value;
    var scan := Collect(listing, cfg.store, steps.segmentUpload);
    var uploaded := ran + SegmentUploads(cfg.store.bucket, Prefix(req), SegmentFiles(listing)[..scan.attempted]);
    match scan.result
    case Threw(message) => Failed(message, uploaded, None)
    case Done(collected) =>
      if collected.manifest.None? then Outcome(Response(500, Error(ManifestNotFound)), uploaded, None)
      else Publish(cfg, req, steps, collected.manifest.value, collected.mapping, uploaded)
  }

  /** Reading the manifest file `manifestName`, rewriting, writing and uploading it, updating
      the document and cleaning up. */
  function Publish(cfg: Config, req: Request, steps: Steps, manifestName: string, mapping: seq<Entry>,
                   uploaded: seq<Call>): (o: Outcome)
    requires NonEmptyNames(mapping) && Renderable(req.videoDocId)
    ensures o.response.status in {200, 500}
    ensures o.response.status == 200 ==> o.update.Some?
    ensures o.update.Some? ==> o.update.value.fields.status == Ready
  {
    var read := steps.manifestRead(manifestName);
    if read.Threw? then Failed(read.message, uploaded, None)
    else
      var content := RewriteAll(mapping, read.value);
      if steps.manifestWrite.Threw? then Failed(steps.manifestWrite.message, uploaded, None)
      else
        var published := uploaded + [UploadManifest(cfg.store.bucket, Prefix(req) + UpdatedManifestName, content)];
        if steps.manifestUpload.Threw? then Failed(steps.manifestUpload.message, published, None)
        else
          var manifestUrl := FileUrl(cfg.store, steps.manifestUpload.value);
          var write := DocumentWrite(cfg.databaseId, cfg.collectionId, Rendered(req.videoDocId),
                                     VideoUpdate(manifestUrl, Ready));
          if steps.documentUpdate.Threw? then Failed(steps.documentUpdate.message, published, None)
          else if steps.cleanup.Threw? then Failed(steps.cleanup.message, published, Some(write))
          else Outcome(Response(200, Complete(TranscodingComplete, manifestUrl, steps.documentUpdate.value)),
                       published, Some(write))
  }

  /** Every step up to the manifest upload succeeded, the listing held a manifest, and the
      file of the last `.m3u8` entry was read. */
  predicate PackagedFully(req: Request, steps: Steps)
  {
    HasRequiredFields(req) && Renderable(req.videoDocId) && StepsPackaged(steps)
  }

  predicate StepsPackaged(steps: Steps)
  {
    && steps.download.Done? && steps.outputDir.Done? && steps.engine.Done? && steps.listing.Done?
    && FirstThrow(steps.segmentUpload, 0, |SegmentFiles(steps.listing.value)|).None?
    && ManifestFile(steps.listing.value).Some?
    && steps.manifestRead(ManifestFile(steps.listing.value).value).Done?
    && steps.manifestWrite.Done? && steps.manifestUpload.Done?
  }

  /** The content of the manifest file the handler reads: that of the last `.m3u8` entry. */
  function ManifestText(steps: Steps): string
    requires StepsPackaged(steps)
  {
    steps.manifestRead(ManifestFile(steps.listing.value).value).value
  }

  /** The calls made before the scan: the download of `originalUrl` and ffmpeg. */
  function Ran(req: Request): seq<Call>
  {
    [Download(req.originalUrl), RunEngine]
  }

  /** Validation and every step before the scan succeeded. */
  predicate ReachesScan(req: Request, steps: Steps)
  {
    && HasRequiredFields(req) && Renderable(req.videoDocId)
    && steps.download.Done? && steps.outputDir.Done? && steps.engine.Done? && steps.listing.Done?
  }

  /** A proof step: the run that gets past the directory read continues with the scan. */
  lemma ReachesPackage(cfg: Config, req: Request, steps: Steps)
    requires PlainSegmentNames(steps) && ReachesScan(req, steps)
    ensures Transcode(cfg, req, steps) == Package(cfg, req, steps, Ran(req))
  {
  }

  /** The three ways the scan stage ends. */
  lemma PackageCases(cfg: Config, req: Request, steps: Steps, ran: seq<Call>)
    requires PlainSegmentNames(steps) && steps.listing.Done? && Renderable(req.videoDocId)
    ensures var listing := steps.listing.value;
      var segs := SegmentFiles(listing);
      match FirstThrow(steps.segmentUpload, 0, |segs|)
      case Some(k) =>
        Package(cfg, req, steps, ran)
        == Failed(steps.segmentUpload(k).message, ran + SegmentUploads(cfg.store.bucket, Prefix(req), segs[..k + 1]), None)
      case None =>
        var uploaded := ran + SegmentUploads(cfg.store.bucket, Prefix(req), segs);
        Package(cfg, req, steps, ran)
        == if ManifestFile(listing).None? then Outcome(Response(500, Error(ManifestNotFound)), uploaded, None)
           else Publish(cfg, req, steps, ManifestFile(listing).value,
                        BuildMapping(segs, SegmentUrls(cfg.store, steps.segmentUpload, |segs|)), uploaded)
  {
    var listing := steps.listing.value;
    var segs := SegmentFiles(listing);
    match FirstThrow(steps.segmentUpload, 0, |segs|)
    case Some(k) =>
      CollectThrew(listing, cfg.store, steps.segmentUpload, k);
    case None =>
      CollectDone(listing, cfg.store, steps.segmentUpload);
      assert segs[..|segs|] == segs;
  }

  /** What the last stage does, step by step. */
  lemma PublishFacts(cfg: Config, req: Request, steps: Steps, manifestName: string, mapping: seq<Entry>,
                     uploaded: seq<Call>)
    requires NonEmptyNames(mapping) && Renderable(req.videoDocId)
    ensures var o := Publish(cfg, req, steps, manifestName, mapping, uploaded);
      var read := steps.manifestRead(manifestName);
      var published := UploadManifest(cfg.store.bucket, Prefix(req) + UpdatedManifestName,
                                       if read.Done? then RewriteAll(mapping, read.value) else "");
      && (o.update.Some? <==> read.Done? && steps.manifestWrite.Done?
                              && steps.manifestUpload.Done? && steps.documentUpdate.Done?)
      && (o.update.Some? ==>
            o.update.value == DocumentWrite(cfg.databaseId, cfg.collectionId, Rendered(req.videoDocId),
                                            VideoUpdate(FileUrl(cfg.store, steps.manifestUpload.value), Ready)))
      && (o.response.status == 200 <==> o.update.Some? && steps.cleanup.Done?)
      && (o.update.Some? && o.response.status != 200 ==>
            o.response == Response(500, ErrorDetails(TranscodingFailed, steps.cleanup.message)))
      && (o.response.status == 200 ==>
            o.response.body == Complete(TranscodingComplete, FileUrl(cfg.store, steps.manifestUpload.value),
                                        steps.documentUpdate.value)
            && o.calls == uploaded + [published])
      && (o.calls == uploaded || o.calls == uploaded + [published])
      && (read.Threw? ==> o == Failed(read.message, uploaded, None))
      && (read.Done? && steps.manifestWrite.Threw? ==> o == Failed(steps.manifestWrite.message, uploaded, None))
      && (read.Done? && steps.manifestWrite.Done? && steps.manifestUpload.Threw? ==>
            o == Failed(steps.manifestUpload.message, uploaded + [published], None))
      && (read.Done? && steps.manifestWrite.Done? && steps.manifestUpload.Done? && steps.documentUpdate.Threw? ==>
            o == Failed(steps.documentUpdate.message, uploaded + [published], None))
      && (read.Done? && steps.manifestWrite.Done? && steps.manifestUpload.Done? && steps.documentUpdate.Done?
          && steps.cleanup.Threw? ==>
            o == Failed(steps.cleanup.message, uploaded + [published],
                        Some(DocumentWrite(cfg.databaseId, cfg.collectionId, Rendered(req.videoDocId),
                                           VideoUpdate(FileUrl(cfg.store, steps.manifestUpload.value), Ready)))))
  {
  }

  /** The document is updated exactly when every segment upload and the manifest upload
      succeeded, and the update sets `transcodedUrl` to the manifest's address and `status`
      to ready, on the document named in the request. It can take effect and still be
      answered with 500, when the clean-up after it throws. */
  lemma CommitOnlyAfterFullPackaging(cfg: Config, req: Request, steps: Steps)
    requires PlainSegmentNames(steps)
    ensures var o := Transcode(cfg, req, steps);
      o.update.Some? <==> PackagedFully(req, steps) && steps.documentUpdate.Done?
    ensures var o := Transcode(cfg, req, steps);
      o.update.Some? ==>
        && Renderable(req.videoDocId)
        && o.update.value == DocumentWrite(cfg.databaseId, cfg.collectionId, Rendered(req.videoDocId),
                                           VideoUpdate(FileUrl(cfg.store, steps.manifestUpload.value), Ready))
    ensures var o := Transcode(cfg, req, steps);
      o.update.Some? && o.response.status != 200 ==>
        steps.cleanup.Threw? && o.response == Response(500, ErrorDetails(TranscodingFailed, steps.cleanup.message))
  {
    if ReachesScan(req, steps) {
      ReachesPackage(cfg, req, steps);
      PackageCases(cfg, req, steps, Ran(req));
      var listing := steps.listing.value;
      var segs := SegmentFiles(listing);
      if FirstThrow(steps.segmentUpload, 0, |segs|).None? && ManifestFile(listing).Some? {
        PublishFacts(cfg, req, steps, ManifestFile(listing).value,
                     BuildMapping(segs, SegmentUrls(cfg.store, steps.segmentUpload, |segs|)),
                     Ran(req) + SegmentUploads(cfg.store.bucket, Prefix(req), segs));
      }
    }
  }

  /** A 200 answer comes from a run in which every step succeeded. It reports the manifest's
      address, and the calls were: the download, ffmpeg, one upload per `.ts` entry named
      `videoDocId + "-" + entry` in listing order, and the upload, under
      `videoDocId + "-updated_manifest.m3u8"`, of the rewrite of the file named by the last
      `.m3u8` entry of the listing. */
  lemma SuccessfulRun(cfg: Config, req: Request, steps: Steps)
    requires PlainSegmentNames(steps)
    ensures var o := Transcode(cfg, req, steps);
      o.response.status == 200 <==> PackagedFully(req, steps) && steps.documentUpdate.Done? && steps.cleanup.Done?
    ensures var o := Transcode(cfg, req, steps);
      o.response.status == 200 ==>
        && PackagedFully(req, steps)
        && var listing := steps.listing.value;
           var segs := SegmentFiles(listing);
           var mapping := BuildMapping(segs, SegmentUrls(cfg.store, steps.segmentUpload, |segs|));
           var manifestUrl := FileUrl(cfg.store, steps.manifestUpload.value);
           && o.response.body == Complete(TranscodingComplete, manifestUrl, steps.documentUpdate.value)
           && o.calls == Ran(req)
                         + SegmentUploads(cfg.store.bucket, Prefix(req), segs)
                         + [UploadManifest(cfg.store.bucket, Prefix(req) + UpdatedManifestName,
                                           RewriteAll(mapping, steps.manifestRead(ManifestFile(listing).value).value))]
  {
    if ReachesScan(req, steps) {
      ReachesPackage(cfg, req, steps);
      PackageCases(cfg, req, steps, Ran(req));
      var listing := steps.listing.value;
      var segs := SegmentFiles(listing);
      if FirstThrow(steps.segmentUpload, 0, |segs|).None? && ManifestFile(listing).Some? {
        PublishFacts(cfg, req, steps, ManifestFile(listing).value,
                     BuildMapping(segs, SegmentUrls(cfg.store, steps.segmentUpload, |segs|)),
                     Ran(req) + SegmentUploads(cfg.store.bucket, Prefix(req), segs));
      }
    }
  }

  /** Without a `.m3u8` entry the answer is 500 "Manifest file not found in output." after all
      segments were uploaded; no manifest is uploaded and the document is not updated. */
  lemma MissingManifest(cfg: Config, req: Request, steps: Steps)
    requires PlainSegmentNames(steps) && ReachesScan(req, steps)
    requires FirstThrow(steps.segmentUpload, 0, |SegmentFiles(steps.listing.value)|).None?
    requires ManifestFile(steps.listing.value).None?
    ensures Transcode(cfg, req, steps)
         == Outcome(Response(500, Error(ManifestNotFound)),
                    Ran(req) + SegmentUploads(cfg.store.bucket, Prefix(req), SegmentFiles(steps.listing.value)),
                    None)
  {
    ReachesPackage(cfg, req, steps);
    PackageCases(cfg, req, steps, Ran(req));
  }

  /** When the k-th segment upload is the first to throw, the segments after it are not
      uploaded, the answer is 500 with that error's message, and nothing else happens. */
  lemma SegmentUploadFailure(cfg: Config, req: Request, steps: Steps, k: nat)
    requires PlainSegmentNames(steps) && ReachesScan(req, steps)
    requires FirstThrow(steps.segmentUpload, 0, |SegmentFiles(steps.listing.value)|) == Some(k)
    ensures Transcode(cfg, req, steps)
         == Failed(steps.segmentUpload(k).message,
                   Ran(req) + SegmentUploads(cfg.store.bucket, Prefix(req), SegmentFiles(steps.listing.value)[..k + 1]),
                   None)
  {
    ReachesPackage(cfg, req, steps);
    PackageCases(cfg, req, steps, Ran(req));
  }

  /** An error thrown before the scan: `videoDocId` has no string rendering, the download,
      creating the output directory or ffmpeg fails, or the output directory cannot be read.
      The answer is 500 with the message, and the later steps do not run. */
  lemma EarlyFailure(cfg: Config, req: Request, steps: Steps)
    requires PlainSegmentNames(steps)
    requires HasRequiredFields(req)
    ensures !Renderable(req.videoDocId) ==>
      Transcode(cfg, req, steps) == Failed(NoPrimitiveMessage, [], None)
    ensures Renderable(req.videoDocId) && steps.download.Threw? ==>
      Transcode(cfg, req, steps) == Failed(steps.download.message, [Download(req.originalUrl)], None)
    ensures Renderable(req.videoDocId) && steps.download.Done? && steps.outputDir.Threw? ==>
      Transcode(cfg, req, steps) == Failed(steps.outputDir.message, [Download(req.originalUrl)], None)
    ensures Renderable(req.videoDocId) && steps.download.Done? && steps.outputDir.Done? && steps.engine.Threw? ==>
      Transcode(cfg, req, steps) == Failed(steps.engine.message, Ran(req), None)
    ensures Renderable(req.videoDocId) && steps.download.Done? && steps.outputDir.Done? && steps.engine.Done?
            && steps.listing.Threw? ==>
      Transcode(cfg, req, steps) == Failed(steps.listing.message, Ran(req), None)
  {
  }

  /** An error thrown after the scan: reading or writing the manifest, uploading it,
      updating the document or cleaning up. The answer is 500 with the message. A failed read
      or write uploads no manifest; the later failures come after the manifest upload. Only a
      failed clean-up leaves the document updated. */
  lemma LateFailure(cfg: Config, req: Request, steps: Steps)
    requires PlainSegmentNames(steps) && ReachesScan(req, steps)
    requires FirstThrow(steps.segmentUpload, 0, |SegmentFiles(steps.listing.value)|).None?
    requires ManifestFile(steps.listing.value).Some?
    ensures var listing := steps.listing.value;
      var segs := SegmentFiles(listing);
      var read := steps.manifestRead(ManifestFile(listing).value);
      var uploaded := Ran(req) + SegmentUploads(cfg.store.bucket, Prefix(req), segs);
      var published := uploaded + [UploadManifest(cfg.store.bucket, Prefix(req) + UpdatedManifestName,
        if read.Done? then RewriteAll(SegmentMapping(listing, cfg.store, steps.segmentUpload), read.value)
        else "")];
      var o := Transcode(cfg, req, steps);
      && (read.Threw? ==> o == Failed(read.message, uploaded, None))
      && (read.Done? && steps.manifestWrite.Threw? ==> o == Failed(steps.manifestWrite.message, uploaded, None))
      && (read.Done? && steps.manifestWrite.Done? && steps.manifestUpload.Threw? ==>
            o == Failed(steps.manifestUpload.message, published, None))
      && (read.Done? && steps.manifestWrite.Done? && steps.manifestUpload.Done? && steps.documentUpdate.Threw? ==>
            o == Failed(steps.documentUpdate.message, published, None))
      && (read.Done? && steps.manifestWrite.Done? && steps.manifestUpload.Done? && steps.documentUpdate.Done?
          && steps.cleanup.Threw? ==>
            o == Failed(steps.cleanup.message, published,
                        Some(DocumentWrite(cfg.databaseId, cfg.collectionId, Rendered(req.videoDocId),
                                           VideoUpdate(FileUrl(cfg.store, steps.manifestUpload.value), Ready)))))
  {
    var listing := steps.listing.value;
    var segs := SegmentFiles(listing);
    ReachesPackage(cfg, req, steps);
    PackageCases(cfg, req, steps, Ran(req));
    PublishFacts(cfg, req, steps, ManifestFile(listing).value,
                 BuildMapping(segs, SegmentUrls(cfg.store, steps.segmentUpload, |segs|)),
                 Ran(req) + SegmentUploads(cfg.store.bucket, Prefix(req), segs));
  }

  /** The segment uploads `SegmentUploads(bucket, prefix, segs[..n])` are each named
      `prefix + s` for a `.ts` entry `s` of the listing. */
  lemma SegmentUploadsNamed(bucket: string, prefix: string, listing: seq<string>, n: nat)
    requires n <= |SegmentFiles(listing)|
    ensures forall c :: c in SegmentUploads(bucket, prefix, SegmentFiles(listing)[..n]) ==>
      && c.UploadSegment? && c.bucket == bucket
      && |prefix| <= |c.name| && c.name[..|prefix|] == prefix
      && c.name[|prefix|..] in listing && IsSegmentFile(c.name[|prefix|..])
  {
    var segs := SegmentFiles(listing);
    var ups := SegmentUploads(bucket, prefix, segs[..n]);
    SegmentFilesMembers(listing);
    forall c | c in ups
      ensures && c.UploadSegment? && c.bucket == bucket
              && |prefix| <= |c.name| && c.name[..|prefix|] == prefix
              && c.name[|prefix|..] in listing && IsSegmentFile(c.name[|prefix|..])
    {
      var i :| 0 <= i < |ups| && ups[i] == c;
      var s := segs[..n][i];
      assert s in segs;
      assert c.name == prefix + s;
      assert c.name[|prefix|..] == s;
    }
  }

  /** Every segment uploaded is a `.ts` entry of the listing, uploaded to the output bucket
      under the request's prefix. */
  lemma UploadNames(cfg: Config, req: Request, steps: Steps)
    requires PlainSegmentNames(steps)
    ensures var o := Transcode(cfg, req, steps);
      forall c :: c in o.calls && c.UploadSegment? ==>
        && Renderable(req.videoDocId) && steps.listing.Done?
        && c.bucket == cfg.store.bucket
        && |Prefix(req)| <= |c.name| && c.name[..|Prefix(req)|] == Prefix(req)
        && c.name[|Prefix(req)|..] in steps.listing.value
        && IsSegmentFile(c.name[|Prefix(req)|..])
  {
    if ReachesScan(req, steps) {
      var listing := steps.listing.value;
      var segs := SegmentFiles(listing);
      ReachesPackage(cfg, req, steps);
      PackageCases(cfg, req, steps, Ran(req));
      match FirstThrow(steps.segmentUpload, 0, |segs|)
      case Some(k) =>
        SegmentUploadsNamed(cfg.store.bucket, Prefix(req), listing, k + 1);
      case None =>
        assert segs[..|segs|] == segs;
        SegmentUploadsNamed(cfg.store.bucket, Prefix(req), listing, |segs|);
        if ManifestFile(listing).Some? {
          PublishFacts(cfg, req, steps, ManifestFile(listing).value,
                       BuildMapping(segs, SegmentUrls(cfg.store, steps.segmentUpload, |segs|)),
                       Ran(req) + SegmentUploads(cfg.store.bucket, Prefix(req), segs));
        }
    }
  }

  /** The manifest is uploaded to the output bucket under `videoDocId + "-updated_manifest.m3u8"`. */
  lemma ManifestUploadName(cfg: Config, req: Request, steps: Steps)
    requires PlainSegmentNames(steps)
    ensures var o := Transcode(cfg, req, steps);
      forall c :: c in o.calls && c.UploadManifest? ==>
        Renderable(req.videoDocId) && c.bucket == cfg.store.bucket && c.name == Prefix(req) + UpdatedManifestName
  {
    if ReachesScan(req, steps) {
      var listing := steps.listing.value;
      var segs := SegmentFiles(listing);
      ReachesPackage(cfg, req, steps);
      PackageCases(cfg, req, steps, Ran(req));
      match FirstThrow(steps.segmentUpload, 0, |segs|)
      case Some(k) =>
        SegmentUploadsAreSegments(cfg.store.bucket, Prefix(req), segs[..k + 1]);
      case None =>
        SegmentUploadsAreSegments(cfg.store.bucket, Prefix(req), segs);
        if ManifestFile(listing).Some? {
          PublishFacts(cfg, req, steps, ManifestFile(listing).value,
                       BuildMapping(segs, SegmentUrls(cfg.store, steps.segmentUpload, |segs|)),
                       Ran(req) + SegmentUploads(cfg.store.bucket, Prefix(req), segs));
        }
    }
  }

  lemma SegmentUploadsAreSegments(bucket: string, prefix: string, names: seq<string>)
    ensures forall c :: c in SegmentUploads(bucket, prefix, names) ==> c.UploadSegment?
  {
    var ups := SegmentUploads(bucket, prefix, names);
    forall c | c in ups ensures c.UploadSegment? {
      var i :| 0 <= i < |ups| && ups[i] == c;
    }
  }

  /** A manifest file that no segment name matches is uploaded exactly as ffmpeg wrote it;
      the file is the one named by the last `.m3u8` entry of the listing. */
  lemma UnmatchedManifestUnchanged(cfg: Config, req: Request, steps: Steps)
    requires PlainSegmentNames(steps)
    requires PackagedFully(req, steps)
    requires forall s, q :: s in SegmentFiles(steps.listing.value) ==> !MatchesAt(s, ManifestText(steps), q)
    ensures UploadManifest(cfg.store.bucket, Prefix(req) + UpdatedManifestName,
                           steps.manifestRead(ManifestFile(steps.listing.value).value).value)
            in Transcode(cfg, req, steps).calls
  {
    var listing := steps.listing.value;
    var text := ManifestText(steps);
    var segs := SegmentFiles(listing);
    var m := BuildMapping(segs, SegmentUrls(cfg.store, steps.segmentUpload, |segs|));
    CollectDone(listing, cfg.store, steps.segmentUpload);
    assert NonEmptyNames(m);
    forall i, q | 0 <= i < |m| ensures !MatchesAt(m[i].name, text, q) {
      assert m[i].name in Names(m);
    }
    RewriteAllNoMatch(m, text);
    ReachesPackage(cfg, req, steps);
    PackageCases(cfg, req, steps, Ran(req));
    PublishFacts(cfg, req, steps, ManifestFile(listing).value, m,
                 Ran(req) + SegmentUploads(cfg.store.bucket, Prefix(req), segs));
  }
}
