/** The video document both services write to the Videos collection, and its two-state
    lifecycle: created `pending` with an empty `transcodedUrl` by the upload service, moved
    to `ready` with the manifest address by the transcoder. */
module Video {

  /** The values the code stores in `status`: "pending" and "ready" (there is no failure
      status). */
  datatype Status = Pending | Ready

  /** The text stored for a status; each status has its own text. */
  function StatusText(s: Status): (t: string)
    ensures t == "pending" <==> s == Pending
    ensures t == "ready" <==> s == Ready
  {
    match s
    case Pending => "pending"
    case Ready => "ready"
  }

  /** The fields the upload service creates a document with. */
  datatype VideoRecord = VideoRecord(title: string, originalUrl: string, transcodedUrl: string, status: Status)

  /** The fields the transcoder passes to `updateDocument`. */
  datatype VideoUpdate = VideoUpdate(transcodedUrl: string, status: Status)

  /** A partial update: the named fields are replaced, every other field is kept. */
  function Apply(r: VideoRecord, u: VideoUpdate): VideoRecord
  {
    r.(transcodedUrl := u.transcodedUrl, status := u.status)
  }

  /** A record that has not been processed yet. */
  predicate Fresh(r: VideoRecord)
  {
    r.status == Pending && r.transcodedUrl == ""
  }
}
