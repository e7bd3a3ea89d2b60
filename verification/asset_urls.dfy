/** The Appwrite "view" address both services build for an uploaded file:
    `${endpoint}/storage/buckets/${bucket}/files/${id}/view?project=${project}`. */
module AssetUrls {
  import opened Wrappers

  /** The environment values a service interpolates into every address it builds.
      An unset variable is interpolated by JavaScript as the text "undefined". */
  datatype Store = Store(endpoint: string, bucket: string, project: string)

  function Head(store: Store): string
  {
    store.endpoint + "/storage/buckets/" + store.bucket + "/files/"
  }

  function Tail(store: Store): string
  {
    "/view?project=" + store.project
  }

  /** The address of file `id` in the store's bucket. */
  function FileUrl(store: Store, id: string): (url: string)
    ensures |url| == |Head(store)| + |id| + |Tail(store)|
  {
    Head(store) + id + Tail(store)
  }

  /** The file id an address names, when it is an address of this store's bucket. */
  function FileIdOf(store: Store, url: string): (r: Option<string>)
    ensures r.Some? ==> |r.value| == |url| - |Head(store)| - |Tail(store)|
  {
    var h, t := Head(store), Tail(store);
    if |h| + |t| <= |url| && url[..|h|] == h && url[|url| - |t|..] == t
    then Some(url[|h|..|url| - |t|])
    else None
  }

  /** Reading the id back out of a built address gives the id that was put in. */
  lemma FileIdOfFileUrl(store: Store, id: string)
    ensures FileIdOf(store, FileUrl(store, id)) == Some(id)
  {
    var h, t, url := Head(store), Tail(store), FileUrl(store, id);
    assert url[..|h|] == h;
    assert url[|url| - |t|..] == t;
    assert url[|h|..|url| - |t|] == id;
  }

  /** Every address from which an id can be read is the address built from that id. */
  lemma FileUrlOfFileIdOf(store: Store, url: string)
    requires FileIdOf(store, url).Some?
    ensures FileUrl(store, FileIdOf(store, url).value) == url
  {
    var h, t := Head(store), Tail(store);
    assert url == url[..|h|] + url[|h|..|url| - |t|] + url[|url| - |t|..];
  }

  /** With the endpoint, bucket and project fixed, distinct ids give distinct addresses. */
  lemma FileUrlInjective(store: Store, id1: string, id2: string)
    ensures FileUrl(store, id1) == FileUrl(store, id2) <==> id1 == id2
  {
    if FileUrl(store, id1) == FileUrl(store, id2) {
      FileIdOfFileUrl(store, id1);
      FileIdOfFileUrl(store, id2);
    }
  }
}
