/** The packaging step of the `/transcode` handler: classifying the ffmpeg output
    listing, uploading the segments while building the segment-name to address map
    (`tsMapping`), and rewriting the manifest with one global replace per map entry. */
module Packaging {
  import opened Wrappers
  import opened Text
  import opened AssetUrls
  import opened Regex

  predicate IsSegmentFile(name: string)
  {
    EndsWith(name, ".ts")
  }

  predicate IsManifestFile(name: string)
  {
    EndsWith(name, ".m3u8")
  }

  /** The listing entries the handler uploads as segments, in listing order. */
  function SegmentFiles(listing: seq<string>): (r: seq<string>)
    ensures |r| <= |listing|
  {
    if |listing| == 0 then []
    else
      var last := listing[|listing| - 1];
      SegmentFiles(listing[..|listing| - 1]) + (if IsSegmentFile(last) then [last] else [])
  }

  /** The segments are exactly the `.ts` entries of the listing. */
  lemma {:induction false} SegmentFilesMembers(listing: seq<string>)
    ensures forall x :: x in SegmentFiles(listing) <==> x in listing && IsSegmentFile(x)
  {
    if |listing| > 0 {
      var n := |listing| - 1;
      SegmentFilesMembers(listing[..n]);
      assert listing == listing[..n] + [listing[n]];
    }
  }

  /** Selecting segments commutes with concatenating listings, so the segments keep their
      listing order. */
  lemma {:induction false} SegmentFilesAppend(a: seq<string>, b: seq<string>)
    ensures SegmentFiles(a + b) == SegmentFiles(a) + SegmentFiles(b)
    decreases |b|
  {
    if |b| == 0 {
      assert a + b == a;
    } else {
      var b' := b[..|b| - 1];
      assert (a + b)[..|a + b| - 1] == a + b';
      assert (a + b)[|a + b| - 1] == b[|b| - 1];
      SegmentFilesAppend(a, b');
    }
  }

  /** The manifest name the handler settles on: the last `.m3u8` entry of the listing. */
  function ManifestFile(listing: seq<string>): (r: Option<string>)
    ensures r.None? <==> forall i :: 0 <= i < |listing| ==> !IsManifestFile(listing[i])
    ensures r.Some? ==> exists i :: 0 <= i < |listing| && listing[i] == r.value && IsManifestFile(r.value)
                          && forall j :: i < j < |listing| ==> !IsManifestFile(listing[j])
  {
    if |listing| == 0 then None
    else
      var last := listing[|listing| - 1];
      if IsManifestFile(last) then
        assert listing[|listing| - 1] == last;
        Some(last)
      else
        var r := ManifestFile(listing[..|listing| - 1]);
        assert forall i :: 0 <= i < |listing| - 1 ==> listing[..|listing| - 1][i] == listing[i];
        r
  }

  /** One property of `tsMapping`: an original segment name and the address of its upload. */
  datatype Entry = Entry(name: string, url: string)

  function Names(m: seq<Entry>): (r: seq<string>)
    ensures |r| == |m|
    ensures forall i :: 0 <= i < |m| ==> r[i] == m[i].name
  {
    seq(|m|, i requires 0 <= i < |m| => m[i].name)
  }

  predicate Distinct(xs: seq<string>)
  {
    forall i, j :: 0 <= i < j < |xs| ==> xs[i] != xs[j]
  }

  /** The value `tsMapping[name]` reads. */
  function Lookup(m: seq<Entry>, name: string): Option<string>
  {
    if |m| == 0 then None
    else if m[0].name == name then Some(m[0].url)
    else Lookup(m[1..], name)
  }

  /** `tsMapping[name] = url` on an object whose keys are no array indices: a new key is
      added after the existing ones, an existing key keeps its place and gets the new value. */
  function Put(m: seq<Entry>, name: string, url: string): seq<Entry>
  {
    if |m| == 0 then [Entry(name, url)]
    else if m[0].name == name then [Entry(name, url)] + m[1..]
    else [m[0]] + Put(m[1..], name, url)
  }

  /** A new key is appended; assigning an existing key leaves the keys and their order as
      they were. */
  lemma PutShape(m: seq<Entry>, name: string, url: string)
    ensures name !in Names(m) ==> Put(m, name, url) == m + [Entry(name, url)]
    ensures name in Names(m) ==> Names(Put(m, name, url)) == Names(m)
  {
    if name in Names(m) {
      PutExisting(m, name, url);
    } else {
      PutNew(m, name, url);
    }
  }

  lemma {:induction false} PutNew(m: seq<Entry>, name: string, url: string)
    requires name !in Names(m)
    ensures Put(m, name, url) == m + [Entry(name, url)]
  {
    if |m| > 0 {
      assert m[0].name != name by {
        assert Names(m)[0] == m[0].name;
      }
      assert name !in Names(m[1..]) by {
        forall k | 0 <= k < |m| - 1 ensures Names(m[1..])[k] != name {
          assert Names(m[1..])[k] == Names(m)[k + 1];
        }
      }
      PutNew(m[1..], name, url);
      assert m == [m[0]] + m[1..];
    }
  }

  lemma {:induction false} PutExisting(m: seq<Entry>, name: string, url: string)
    requires name in Names(m)
    ensures Names(Put(m, name, url)) == Names(m)
  {
    if m[0].name == name {
      assert Names([Entry(name, url)] + m[1..]) == Names(m);
    } else {
      var k :| 0 <= k < |m| && Names(m)[k] == name;
      assert Names(m[1..])[k - 1] == name;
      PutExisting(m[1..], name, url);
      var rest := Put(m[1..], name, url);
      assert Names([m[0]] + rest) == [m[0].name] + Names(rest);
      assert Names(m) == [m[0].name] + Names(m[1..]);
    }
  }

  /** After `tsMapping[name] = url` the name reads as `url` and every other name reads as
      before. */
  lemma {:induction false} PutLookup(m: seq<Entry>, name: string, url: string)
    ensures Lookup(Put(m, name, url), name) == Some(url)
    ensures forall n :: n != name ==> Lookup(Put(m, name, url), n) == Lookup(m, n)
  {
    if |m| > 0 && m[0].name != name {
      PutLookup(m[1..], name, url);
      var r := Put(m, name, url);
      assert r[0] == m[0] && r[1..] == Put(m[1..], name, url);
    }
  }

  /** The mapping that `tsMapping[names[k]] = urls[k]`, for k = 0, 1, ..., leaves. */
  function BuildMapping(names: seq<string>, urls: seq<string>): (r: seq<Entry>)
    requires |names| == |urls|
    ensures forall x :: x in Names(r) <==> x in names
  {
    if |names| == 0 then []
    else
      var n := |names| - 1;
      var m := BuildMapping(names[..n], urls[..n]);
      assert names == names[..n] + [names[n]];
      PutShape(m, names[n], urls[n]);
      var r := Put(m, names[n], urls[n]);
      assert Names(m + [Entry(names[n], urls[n])]) == Names(m) + [names[n]];
      r
  }

  /** A name appears in the mapping once, however often it was assigned. */
  lemma {:induction false} BuildMappingKeysDistinct(names: seq<string>, urls: seq<string>)
    requires |names| == |urls|
    ensures Distinct(Names(BuildMapping(names, urls)))
  {
    if |names| > 0 {
      var n := |names| - 1;
      BuildMappingKeysDistinct(names[..n], urls[..n]);
      var m := BuildMapping(names[..n], urls[..n]);
      PutShape(m, names[n], urls[n]);
      if names[n] !in Names(m) {
        assert Names(m + [Entry(names[n], urls[n])]) == Names(m) + [names[n]];
      }
    }
  }

  /** With distinct names (a directory listing has no repeats) the mapping holds the
      names in the order given, each with its own address. */
  lemma {:induction false} BuildMappingDistinct(names: seq<string>, urls: seq<string>)
    requires |names| == |urls|
    requires Distinct(names)
    ensures BuildMapping(names, urls) == seq(|names|, i requires 0 <= i < |names| => Entry(names[i], urls[i]))
  {
    if |names| > 0 {
      var n := |names| - 1;
      BuildMappingDistinct(names[..n], urls[..n]);
      var m := BuildMapping(names[..n], urls[..n]);
      assert names[n] !in names[..n];
      assert names[n] !in Names(m);
      PutShape(m, names[n], urls[n]);
    }
  }

  /** Every name of the mapping is a usable pattern: non-empty. */
  predicate NonEmptyNames(m: seq<Entry>)
  {
    forall i :: 0 <= i < |m| ==> |m[i].name| > 0
  }

  /** The manifest text after the loop over `Object.entries(tsMapping)`: one global replace
      of each name by its address, in insertion order. */
  function RewriteAll(m: seq<Entry>, text: string): string
    requires NonEmptyNames(m)
  {
    if |m| == 0 then text
    else
      var n := |m| - 1;
      GlobalReplace(m[n].name, m[n].url, RewriteAll(m[..n], text))
  }

  /** The rewrite of a concatenated mapping is the rewrite by the first part followed by
      the rewrite by the second: entries act one after another, in order. */
  lemma {:induction false} RewriteAllAppend(a: seq<Entry>, b: seq<Entry>, text: string)
    requires NonEmptyNames(a) && NonEmptyNames(b)
    ensures NonEmptyNames(a + b)
    ensures RewriteAll(a + b, text) == RewriteAll(b, RewriteAll(a, text))
    decreases |b|
  {
    if |b| == 0 {
      assert a + b == a;
    } else {
      var n := |b| - 1;
      assert (a + b)[..|a + b| - 1] == a + b[..n];
      assert (a + b)[|a + b| - 1] == b[n];
      RewriteAllAppend(a, b[..n], text);
    }
  }

  /** A manifest in which no name of the mapping matches anywhere is left as it is. */
  lemma {:induction false} RewriteAllNoMatch(m: seq<Entry>, text: string)
    requires NonEmptyNames(m)
    requires forall i, q :: 0 <= i < |m| ==> !MatchesAt(m[i].name, text, q)
    ensures RewriteAll(m, text) == text
  {
    if |m| > 0 {
      var n := |m| - 1;
      RewriteAllNoMatch(m[..n], text);
      GlobalReplaceNoMatch(m[n].name, m[n].url, text);
    }
  }

  /** The first segment upload, among uploads `from` to `n - 1`, that throws. */
  function FirstThrow(upload: nat -> Attempt<string>, from: nat, n: nat): (r: Option<nat>)
    decreases n - from
    ensures r.Some? ==> from <= r.value < n && upload(r.value).Threw?
    ensures r.Some? ==> forall k :: from <= k < r.value ==> upload(k).Done?
    ensures r.None? ==> forall k :: from <= k < n ==> upload(k).Done?
  {
    if n <= from then None
    else if upload(from).Threw? then Some(from)
    else FirstThrow(upload, from + 1, n)
  }

  /** The addresses of the first `n` uploaded segments. */
  function SegmentUrls(store: Store, upload: nat -> Attempt<string>, n: nat): (r: seq<string>)
    requires forall k :: 0 <= k < n ==> upload(k).Done?
    ensures |r| == n
  {
    seq(n, k requires 0 <= k < n => FileUrl(store, upload(k).value))
  }

  /** What the scan of the output listing leaves: the mapping and the manifest name. */
  datatype Collected = Collected(mapping: seq<Entry>, manifest: Option<string>)

  /** The scan's result together with the number of segment uploads it started. */
  datatype Scan = Scan(result: Attempt<Collected>, attempted: nat)

  /** The scan of lines 107-126, stated per concern: the segments are the `.ts` entries in
      listing order, upload k is the k-th of them, the first throwing upload ends the scan,
      and otherwise the mapping and the last `.m3u8` entry are returned. */
  function Collect(listing: seq<string>, store: Store, upload: nat -> Attempt<string>): (r: Scan)
    ensures r.attempted <= |SegmentFiles(listing)|
    ensures r.result.Done? ==> NonEmptyNames(r.result.value.mapping)
  {
    var segs := SegmentFiles(listing);
    match FirstThrow(upload, 0, |segs|)
    case Some(k) => Scan(Threw(upload(k).message), k + 1)
    case None => Scan(Done(Collected(SegmentMapping(listing, store, upload), ManifestFile(listing))), |segs|)
  }

  /** `tsMapping` after every segment upload succeeded: each `.ts` entry, in listing order,
      assigned the address of its upload. Its names are usable as patterns. */
  function SegmentMapping(listing: seq<string>, store: Store, upload: nat -> Attempt<string>): (m: seq<Entry>)
    requires FirstThrow(upload, 0, |SegmentFiles(listing)|).None?
    ensures NonEmptyNames(m)
  {
    var segs := SegmentFiles(listing);
    var m := BuildMapping(segs, SegmentUrls(store, upload, |segs|));
    SegmentFilesMembers(listing);
    assert forall i :: 0 <= i < |m| ==> m[i].name in Names(m);
    m
  }

  /** Selecting from a listing without repeats gives a selection without repeats. */
  lemma {:induction false} SegmentFilesDistinct(listing: seq<string>)
    requires Distinct(listing)
    ensures Distinct(SegmentFiles(listing))
  {
    if |listing| > 0 {
      var n := |listing| - 1;
      assert Distinct(listing[..n]) by {
        forall i, j | 0 <= i < j < n ensures listing[..n][i] != listing[..n][j] {
          assert listing[..n][i] == listing[i] && listing[..n][j] == listing[j];
        }
      }
      SegmentFilesDistinct(listing[..n]);
      SegmentFilesMembers(listing[..n]);
      assert listing[n] !in listing[..n];
    }
  }

  /** For a listing without repeats, a scan in which every upload succeeded maps the k-th
      `.ts` entry of the listing to the address of the k-th upload, in listing order. */
  lemma CollectMapping(listing: seq<string>, store: Store, upload: nat -> Attempt<string>)
    requires Distinct(listing)
    requires Collect(listing, store, upload).result.Done?
    ensures var segs := SegmentFiles(listing);
      && (forall k :: 0 <= k < |segs| ==> upload(k).Done?)
      && Collect(listing, store, upload).result.value.mapping
         == seq(|segs|, k requires 0 <= k < |segs| => Entry(segs[k], FileUrl(store, upload(k).value)))
  {
    var segs := SegmentFiles(listing);
    SegmentFilesDistinct(listing);
    BuildMappingDistinct(segs, SegmentUrls(store, upload, |segs|));
  }

  /** No name is both a segment and a manifest. */
  lemma SegmentIsNoManifest(name: string)
    requires IsSegmentFile(name)
    ensures !IsManifestFile(name)
  {
    assert name[|name| - 1] == name[|name| - 3..][2] == 's';
    assert |name| >= 5 ==> name[|name| - 5..][4] == name[|name| - 1];
  }

  /** Growing the scanned prefix by one entry. */
  lemma ScanOne(listing: seq<string>, i: nat)
    requires i < |listing|
    ensures SegmentFiles(listing[..i + 1])
         == SegmentFiles(listing[..i]) + (if IsSegmentFile(listing[i]) then [listing[i]] else [])
    ensures ManifestFile(listing[..i + 1])
         == if IsManifestFile(listing[i]) then Some(listing[i]) else ManifestFile(listing[..i])
  {
    assert listing[..i + 1][..i] == listing[..i];
    assert listing[..i + 1][i] == listing[i];
  }

  /** Assigning one more name extends the mapping by one `Put`. */
  lemma MappingStep(names: seq<string>, urls: seq<string>, name: string, url: string)
    requires |names| == |urls|
    ensures BuildMapping(names + [name], urls + [url]) == Put(BuildMapping(names, urls), name, url)
  {
    var k := |names|;
    assert (names + [name])[..k] == names && (urls + [url])[..k] == urls;
  }

  /** The address of one more successful upload extends the addresses by one. */
  lemma SegmentUrlsStep(store: Store, upload: nat -> Attempt<string>, n: nat)
    requires forall k :: 0 <= k <= n ==> upload(k).Done?
    ensures SegmentUrls(store, upload, n + 1) == SegmentUrls(store, upload, n) + [FileUrl(store, upload(n).value)]
  {
  }

  /** The first upload to throw is the one at `m` when all before it succeed. */
  lemma FirstThrowAt(upload: nat -> Attempt<string>, m: nat, n: nat)
    requires m < n && upload(m).Threw?
    requires forall k :: 0 <= k < m ==> upload(k).Done?
    ensures FirstThrow(upload, 0, n) == Some(m)
  {
  }

  /** A `.ts` entry at position i comes after all the segments before it. */
  lemma SegmentCountGrows(listing: seq<string>, i: nat)
    requires i < |listing| && IsSegmentFile(listing[i])
    ensures |SegmentFiles(listing[..i])| < |SegmentFiles(listing)|
  {
    ScanOne(listing, i);
    SegmentFilesAppend(listing[..i + 1], listing[i + 1..]);
    assert listing[..i + 1] + listing[i + 1..] == listing;
  }

  /** The scan when every segment upload succeeds. */
  lemma CollectDone(listing: seq<string>, store: Store, upload: nat -> Attempt<string>)
    requires FirstThrow(upload, 0, |SegmentFiles(listing)|).None?
    ensures var segs := SegmentFiles(listing);
      Collect(listing, store, upload)
      == Scan(Done(Collected(BuildMapping(segs, SegmentUrls(store, upload, |segs|)), ManifestFile(listing))), |segs|)
  {
  }

  /** The scan when upload k is the first to throw. */
  lemma CollectThrew(listing: seq<string>, store: Store, upload: nat -> Attempt<string>, k: nat)
    requires FirstThrow(upload, 0, |SegmentFiles(listing)|) == Some(k)
    ensures Collect(listing, store, upload) == Scan(Threw(upload(k).message), k + 1)
  {
  }

  /** The state of the handler's loop after the first i entries of the listing: the uploads
      it started all succeeded, and the mapping and manifest name are those of the prefix. */
  predicate ScannedUpTo(listing: seq<string>, store: Store, upload: nat -> Attempt<string>, i: nat,
                        mapping: seq<Entry>, manifest: Option<string>, attempted: nat)
  {
    && i <= |listing|
    && attempted == |SegmentFiles(listing[..i])|
    && (forall k :: 0 <= k < attempted ==> upload(k).Done?)
    && mapping == BuildMapping(SegmentFiles(listing[..i]), SegmentUrls(store, upload, attempted))
    && manifest == ManifestFile(listing[..i])
  }

  lemma ScanStart(listing: seq<string>, store: Store, upload: nat -> Attempt<string>)
    ensures ScannedUpTo(listing, store, upload, 0, [], None, 0)
  {
    assert listing[..0] == [];
  }

  /** A `.ts` entry whose upload succeeds is recorded in the mapping. */
  lemma ScanSegment(listing: seq<string>, store: Store, upload: nat -> Attempt<string>, i: nat,
                    mapping: seq<Entry>, manifest: Option<string>, attempted: nat)
    requires ScannedUpTo(listing, store, upload, i, mapping, manifest, attempted)
    requires i < |listing| && IsSegmentFile(listing[i]) && upload(attempted).Done?
    ensures ScannedUpTo(listing, store, upload, i + 1,
                        Put(mapping, listing[i], FileUrl(store, upload(attempted).value)), manifest, attempted + 1)
  {
    ScanOne(listing, i);
    SegmentIsNoManifest(listing[i]);
    SegmentUrlsStep(store, upload, attempted);
    MappingStep(SegmentFiles(listing[..i]), SegmentUrls(store, upload, attempted),
                listing[i], FileUrl(store, upload(attempted).value));
  }

  /** Any other entry leaves the mapping alone, and a `.m3u8` entry becomes the manifest. */
  lemma ScanOther(listing: seq<string>, store: Store, upload: nat -> Attempt<string>, i: nat,
                  mapping: seq<Entry>, manifest: Option<string>, attempted: nat)
    requires ScannedUpTo(listing, store, upload, i, mapping, manifest, attempted)
    requires i < |listing| && !IsSegmentFile(listing[i])
    ensures ScannedUpTo(listing, store, upload, i + 1, mapping,
                        if IsManifestFile(listing[i]) then Some(listing[i]) else manifest, attempted)
  {
    ScanOne(listing, i);
    assert SegmentFiles(listing[..i + 1]) == SegmentFiles(listing[..i]);
  }

  /** A `.ts` entry whose upload throws ends the scan with that error. */
  lemma ScanThrow(listing: seq<string>, store: Store, upload: nat -> Attempt<string>, i: nat,
                  mapping: seq<Entry>, manifest: Option<string>, attempted: nat)
    requires ScannedUpTo(listing, store, upload, i, mapping, manifest, attempted)
    requires i < |listing| && IsSegmentFile(listing[i]) && upload(attempted).Threw?
    ensures Collect(listing, store, upload) == Scan(Threw(upload(attempted).message), attempted + 1)
  {
    SegmentCountGrows(listing, i);
    FirstThrowAt(upload, attempted, |SegmentFiles(listing)|);
  }

  /** A scan of the whole listing gives the specified result. */
  lemma ScanEnd(listing: seq<string>, store: Store, upload: nat -> Attempt<string>,
                mapping: seq<Entry>, manifest: Option<string>, attempted: nat)
    requires ScannedUpTo(listing, store, upload, |listing|, mapping, manifest, attempted)
    ensures Collect(listing, store, upload) == Scan(Done(Collected(mapping, manifest)), attempted)
  {
    assert listing[..|listing|] == listing;
  }

  /** One iteration of the handler's loop, on entry i: a `.ts` entry is uploaded and, if the
      upload succeeds, recorded; a `.m3u8` entry becomes the manifest name; a throwing upload
      stops the scan with the specified result. */
  method ScanEntry(listing: seq<string>, store: Store, upload: nat -> Attempt<string>, i: nat,
                   mapping: seq<Entry>, manifest: Option<string>, attempted: nat)
    returns (stopped: Option<string>, mapping': seq<Entry>, manifest': Option<string>, attempted': nat)
    requires i < |listing|
    requires ScannedUpTo(listing, store, upload, i, mapping, manifest, attempted)
    ensures stopped.Some? ==> Collect(listing, store, upload) == Scan(Threw(stopped.value), attempted')
    ensures stopped.None? ==> ScannedUpTo(listing, store, upload, i + 1, mapping', manifest', attempted')
  {
    var name := listing[i];
    mapping', manifest', attempted' := mapping, manifest, attempted;
    if IsSegmentFile(name) {
      var response := upload(attempted);
      if response.Threw? {
        ScanThrow(listing, store, upload, i, mapping, manifest, attempted);
        return Some(response.message), mapping, manifest, attempted + 1;
      }
      ScanSegment(listing, store, upload, i, mapping, manifest, attempted);
      mapping' := Put(mapping, name, FileUrl(store, response.value));
      attempted' := attempted + 1;
    } else {
      ScanOther(listing, store, upload, i, mapping, manifest, attempted);
      if IsManifestFile(name) {
        manifest' := Some(name);
      }
    }
    stopped := None;
  }

  /** Lines 107-126 as written: one pass over the listing that uploads each `.ts` entry as it
      comes, records its address, remembers the latest `.m3u8` entry, and stops at the first
      upload that throws. It computes exactly the per-concern scan. */
  method CollectOutput(listing: seq<string>, store: Store, upload: nat -> Attempt<string>)
    returns (result: Attempt<Collected>, attempted: nat)
    ensures Scan(result, attempted) == Collect(listing, store, upload)
  {
    var mapping: seq<Entry> := [];
    var manifest: Option<string> := None;
    attempted := 0;
    ScanStart(listing, store, upload);
    for i := 0 to |listing|
      invariant ScannedUpTo(listing, store, upload, i, mapping, manifest, attempted)
    {
      var stopped;
      stopped, mapping, manifest, attempted := ScanEntry(listing, store, upload, i, mapping, manifest, attempted);
      if stopped.Some? {
        return Threw(stopped.value), attempted;
      }
    }
    ScanEnd(listing, store, upload, mapping, manifest, attempted);
    result := Done(Collected(mapping, manifest));
  }
}
