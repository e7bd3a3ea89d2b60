/** The `/api/upload` handler as a total function from the request, the time multer named
    the temporary file, and the outcomes of the two Appwrite calls to the response, the
    stored file and the video document that was created. */
module UploadService {
  import opened Wrappers
  import opened Text
  import opened AssetUrls
  import opened Video

  /** The file multer received (`req.file`), by the name the client gave it. */
  datatype UploadedFile = UploadedFile(originalName: string)

  /** `req.file` and the multipart text field `title` (absent when the form has none). */
  datatype Request = Request(file: Option<UploadedFile>, title: Option<string>)

  /** The environment: the bucket for originals and the Videos collection. */
  datatype Config = Config(store: Store, databaseId: string, collectionId: string)

  /** The outcome of `createFile` (the new file's `$id`) and of `createDocument` (the reply). */
  datatype Steps = Steps(storeFile: Attempt<string>, createDocument: Attempt<string>)

  /** The `createFile` call: the temporary file under `uploads/`, stored by its original name. */
  datatype StoredFile = StoredFile(bucket: string, diskName: string, name: string)

  datatype Body =
    | Error(error: string)
    | Uploaded(message: string, fileId: string, document: string)

  datatype Response = Response(status: nat, body: Body)

  datatype Outcome = Outcome(response: Response, stored: Option<StoredFile>, created: Option<VideoRecord>)

  const NoFileUploaded := "No file uploaded"
  const InternalServerError := "Internal Server Error"
  const FileUploaded := "File uploaded ."

  /** The name multer's `filename` callback gives the temporary file: the millisecond time,
      a '-', and the client's file name. */
  function DiskName(now: nat, originalName: string): string
  {
    Decimal(now) + "-" + originalName
  }

  /** The first position at or after `from` where `c` occurs. */
  function IndexOf(s: string, c: char, from: nat): (r: Option<nat>)
    decreases |s| - from
    ensures r.Some? ==> from <= r.value < |s| && s[r.value] == c
    ensures r.Some? ==> forall j :: from <= j < r.value ==> s[j] != c
    ensures r.None? ==> forall j :: from <= j < |s| ==> s[j] != c
  {
    if |s| <= from then None
    else if s[from] == c then Some(from)
    else IndexOf(s, c, from + 1)
  }

  /** Reads a temporary file name back as its time and original name: the digits before the
      first '-', and everything after it. */
  function SplitDiskName(diskName: string): Option<(nat, string)>
  {
    match IndexOf(diskName, '-', 0)
    case None => None
    case Some(i) =>
      if 0 < i && AllDigits(diskName[..i]) then Some((ParseDecimal(diskName[..i]), diskName[i + 1..]))
      else None
  }

  /** The temporary name keeps both of its parts: time and original name can be read back,
      whatever the original name contains. */
  lemma SplitDiskNameOfDiskName(now: nat, originalName: string)
    ensures SplitDiskName(DiskName(now, originalName)) == Some((now, originalName))
  {
    var d, s := Decimal(now), DiskName(now, originalName);
    assert s[|d|] == '-';
    assert forall j :: 0 <= j < |d| ==> s[j] == d[j] && s[j] != '-';
    assert IndexOf(s, '-', 0) == Some(|d|);
    assert s[..|d|] == d;
    assert s[|d| + 1..] == originalName;
    ParseDecimalOfDecimal(now);
  }

  /** Two uploads get the same temporary name only at the same millisecond with the same name. */
  lemma DiskNameInjective(t1: nat, n1: string, t2: nat, n2: string)
    ensures DiskName(t1, n1) == DiskName(t2, n2) <==> t1 == t2 && n1 == n2
  {
    SplitDiskNameOfDiskName(t1, n1);
    SplitDiskNameOfDiskName(t2, n2);
  }

  /** `req.body.title || file.originalname`. */
  function Title(title: Option<string>, originalName: string): string
  {
    if title.Some? && title.value != "" then title.value else originalName
  }

  /** The handler. */
  function Upload(cfg: Config, req: Request, now: nat, steps: Steps): (o: Outcome)
    ensures o.response.status in {200, 400, 500}
    ensures o.response.status == 400 <==> req.file.None?
    ensures o.response.status == 400 ==> o.response.body == Error(NoFileUploaded) && o.stored == None && o.created == None
    ensures o.response.status == 500 ==> o.response.body == Error(InternalServerError) && o.created == None
    ensures o.response.status == 200 <==> o.created.Some?
  {
    match req.file
    case None => Outcome(Response(400, Error(NoFileUploaded)), None, None)
    case Some(file) =>
      var stored := StoredFile(cfg.store.bucket, DiskName(now, file.originalName), file.originalName);
      match steps.storeFile
      case Threw(_) => Outcome(Response(500, Error(InternalServerError)), Some(stored), None)
      case Done(fileId) =>
        var record := VideoRecord(Title(req.title, file.originalName), FileUrl(cfg.store, fileId), "", Pending);
        match steps.createDocument
        case Threw(_) => Outcome(Response(500, Error(InternalServerError)), Some(stored), None)
        case Done(reply) => Outcome(Response(200, Uploaded(FileUploaded, fileId, reply)), Some(stored), Some(record))
  }

  /** A created document is pending with an empty `transcodedUrl`; its `originalUrl` is the
      address of the stored file, from which the file's id can be read back; its title is
      the form's title when that is non-empty and the file's name otherwise. */
  lemma CreatedRecord(cfg: Config, req: Request, now: nat, steps: Steps)
    ensures var o := Upload(cfg, req, now, steps);
      o.created.Some? ==>
        var r := o.created.value;
        && req.file.Some? && steps.storeFile.Done?
        && Fresh(r)
        && r.originalUrl == FileUrl(cfg.store, steps.storeFile.value)
        && FileIdOf(cfg.store, r.originalUrl) == Some(steps.storeFile.value)
        && (r.title == if req.title.Some? && req.title.value != "" then req.title.value else req.file.value.originalName)
  {
    var o := Upload(cfg, req, now, steps);
    if o.created.Some? {
      FileIdOfFileUrl(cfg.store, steps.storeFile.value);
    }
  }

  /** With a file present the original is stored under its temporary name, and a failure
      of either Appwrite call is answered with 500 and creates no document. */
  lemma StoredFileNamed(cfg: Config, req: Request, now: nat, steps: Steps)
    requires req.file.Some?
    ensures var o := Upload(cfg, req, now, steps);
      && o.stored == Some(StoredFile(cfg.store.bucket, DiskName(now, req.file.value.originalName), req.file.value.originalName))
      && (o.response.status == 200 <==> steps.storeFile.Done? && steps.createDocument.Done?)
      && (o.response.status == 200 ==>
            o.response.body == Uploaded(FileUploaded, steps.storeFile.value, steps.createDocument.value))
  {
  }
}
