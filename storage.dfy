/** The book record the offline pages keep under the `memoryBook` storage
    key, and what `savePages` and `savePhotos` write into it: each photo is
    reduced to its id, preview, note and prompt (the file object and any
    server url are not kept) and a page keeps its id, photo list, layout
    name and note. */
module Storage {
  import opened Common
  import opened Types

  datatype StoredPhoto = StoredPhoto(id: string, preview: string, note: string, prompt: string)

  datatype StoredPage = StoredPage(id: string, photos: seq<StoredPhoto>, layout: string, note: string)

  /** The stored book: its name and type, the photo pool and the pages
      (an absent list is stored as the empty one). */
  datatype StoredBook = StoredBook(name: string, kind: string, photos: seq<StoredPhoto>, pages: seq<StoredPage>)

  function StorePhoto(p: Photo): StoredPhoto
  {
    StoredPhoto(p.id, p.preview, p.note, p.prompt)
  }

  /** `photos.map((p) => ({ id, preview, note, prompt }))`. */
  function StorePhotos(ps: seq<Photo>): (r: seq<StoredPhoto>)
    ensures |r| == |ps|
    ensures forall i :: 0 <= i < |ps| ==> r[i] == StorePhoto(ps[i])
  {
    seq(|ps|, i requires 0 <= i < |ps| => StorePhoto(ps[i]))
  }

  function StorePage(p: Page): StoredPage
  {
    StoredPage(p.id, StorePhotos(p.photos), LayoutName(p.layout), p.note)
  }

  function StorePages(ps: seq<Page>): (r: seq<StoredPage>)
    ensures |r| == |ps|
    ensures forall i :: 0 <= i < |ps| ==> r[i] == StorePage(ps[i])
  {
    seq(|ps|, i requires 0 <= i < |ps| => StorePage(ps[i]))
  }

  /** A stored photo as the pages read it back: no file, no url. */
  function LoadPhoto(s: StoredPhoto): Photo
  {
    Photo(s.id, None, s.preview, "", s.note, s.prompt)
  }

  function LoadPhotos(ss: seq<StoredPhoto>): (r: seq<Photo>)
    ensures |r| == |ss|
    ensures forall i :: 0 <= i < |ss| ==> r[i] == LoadPhoto(ss[i])
  {
    seq(|ss|, i requires 0 <= i < |ss| => LoadPhoto(ss[i]))
  }

  function LoadPage(s: StoredPage): Page
  {
    Page(s.id, LoadPhotos(s.photos), LayoutOf(s.layout), s.note)
  }

  function LoadPages(ss: seq<StoredPage>): (r: seq<Page>)
    ensures |r| == |ss|
    ensures forall i :: 0 <= i < |ss| ==> r[i] == LoadPage(ss[i])
  {
    seq(|ss|, i requires 0 <= i < |ss| => LoadPage(ss[i]))
  }

  /** `savePages`: overwrites the record's pages; nothing is written when no
      record exists. */
  function SavePages(record: Option<StoredBook>, pages: seq<Page>): (r: Option<StoredBook>)
    ensures r.Some? <==> record.Some?
    ensures r.Some? ==> r.value == record.value.(pages := StorePages(pages))
  {
    match record
    case None => None
    case Some(b) => Some(b.(pages := StorePages(pages)))
  }

  /** `savePhotos` (and UploadPhotos' `handlePhotosChange`): overwrites the
      record's photo pool, in pool order; nothing is written when no record
      exists. */
  function SavePhotos(record: Option<StoredBook>, photos: seq<Photo>): (r: Option<StoredBook>)
    ensures r.Some? <==> record.Some?
    ensures r.Some? ==> r.value == record.value.(photos := StorePhotos(photos))
  {
    match record
    case None => None
    case Some(b) => Some(b.(photos := StorePhotos(photos)))
  }

  /** What of a photo survives storage. */
  function Forget(p: Photo): Photo
  {
    p.(file := None, url := "")
  }

  /** What of a page survives storage. */
  function ForgetPage(p: Page): Page
  {
    p.(photos := seq(|p.photos|, i requires 0 <= i < |p.photos| => Forget(p.photos[i])))
  }

  /** Reading stored pages back gives the same pages, in the same order, with
      the same ids, photo lists, layouts and notes; only the photos' file
      objects and urls are lost. */
  lemma RoundTripPages(ps: seq<Page>)
    requires forall p :: p in ps ==> WellFormed(p.layout)
    ensures |LoadPages(StorePages(ps))| == |ps|
    ensures forall i :: 0 <= i < |ps| ==> LoadPages(StorePages(ps))[i] == ForgetPage(ps[i])
  {
    forall i | 0 <= i < |ps| ensures LoadPage(StorePage(ps[i])) == ForgetPage(ps[i]) {
      LayoutOfName(ps[i].layout);
      assert LoadPhotos(StorePhotos(ps[i].photos)) == ForgetPage(ps[i]).photos;
    }
  }

  /** Pages whose photos have neither a file nor a url (everything the
      offline pages read from storage) come back unchanged. */
  lemma RoundTripStoredPages(ps: seq<Page>)
    requires forall p :: p in ps ==> WellFormed(p.layout)
    requires forall p, q :: p in ps && q in p.photos ==> q.file.None? && q.url == ""
    ensures LoadPages(StorePages(ps)) == ps
  {
    RoundTripPages(ps);
    forall i | 0 <= i < |ps| ensures ForgetPage(ps[i]) == ps[i] {
      assert ForgetPage(ps[i]).photos == ps[i].photos;
    }
  }

  /** Reading the stored pool back gives the pool without files and urls. */
  lemma RoundTripPhotos(ps: seq<Photo>)
    ensures LoadPhotos(StorePhotos(ps)) == seq(|ps|, i requires 0 <= i < |ps| => Forget(ps[i]))
  {
  }
}
