/** The video document across both services: created pending by the upload service, made
    ready by the transcoder. */
module Lifecycle {
  import opened AssetUrls
  import opened Video
  import UploadService
  import Transcoder

  /** A file stored and recorded by the upload service, then transcoded by a run whose
      steps all succeed up to and including `updateDocument`: the document is created
      pending, the transcoder's update takes effect, and applied to the document it makes it
      ready with the manifest's address while keeping its title and original address. */
  lemma UploadThenTranscode(
    ucfg: UploadService.Config, ureq: UploadService.Request, now: nat, usteps: UploadService.Steps,
    tcfg: Transcoder.Config, treq: Transcoder.Request, tsteps: Transcoder.Steps)
    requires ureq.file.Some? && usteps.storeFile.Done? && usteps.createDocument.Done?
    requires Transcoder.PlainSegmentNames(tsteps)
    requires Transcoder.PackagedFully(treq, tsteps) && tsteps.documentUpdate.Done?
    ensures var o := UploadService.Upload(ucfg, ureq, now, usteps);
      var t := Transcoder.Transcode(tcfg, treq, tsteps);
      && o.created.Some? && t.update.Some?
      && var r := o.created.value;
         var w := t.update.value;
         && Fresh(r)
         && Apply(r, w.fields) == VideoRecord(r.title, r.originalUrl, FileUrl(tcfg.store, tsteps.manifestUpload.value), Ready)
         && !Fresh(Apply(r, w.fields))
  {
    UploadService.StoredFileNamed(ucfg, ureq, now, usteps);
    UploadService.CreatedRecord(ucfg, ureq, now, usteps);
    Transcoder.CommitOnlyAfterFullPackaging(tcfg, treq, tsteps);
  }
}
