/** The two-step upload flow (UploadPhotos): first a photo pool, then pages
    that each start from one photo not yet used on any page. Refused actions
    end with an alert instead of a change. */
module UploadPhotos {
  import opened Common
  import opened Types
  import opened PageEditor
  import opened PageList
  import opened Storage

  /** Which of the two steps is shown. */
  datatype Step = Upload | Arrange

  /** How an action ended: done, or refused with one of the alerts (no photo
      yet, every photo already used, no page yet). */
  datatype Notice = Done | NoPhotos | PhotosUsedUp | NoPages

  /** `pages.flatMap((page) => page.photos.map((p) => p.id))`. */
  function UsedIds(pages: seq<Page>): (r: seq<string>)
    ensures forall x :: x in r <==> exists i :: 0 <= i < |pages| && x in Ids(pages[i].photos)
  {
    if pages == [] then []
    else
      var rest := UsedIds(pages[1..]);
      assert forall x :: x in rest <==> exists i :: 1 <= i < |pages| && x in Ids(pages[i].photos) by {
        forall x | x in rest ensures exists i :: 1 <= i < |pages| && x in Ids(pages[i].photos) {
          var i :| 0 <= i < |pages[1..]| && x in Ids(pages[1..][i].photos);
          assert pages[i + 1] == pages[1..][i];
        }
        forall x, i | 1 <= i < |pages| && x in Ids(pages[i].photos) ensures x in rest {
          assert pages[1..][i - 1] == pages[i];
        }
      }
      Ids(pages[0].photos) + rest
  }

  /** Appending a page adds its photo ids to the used ones. */
  lemma {:induction false} UsedIdsAppend(pages: seq<Page>, page: Page)
    ensures UsedIds(pages + [page]) == UsedIds(pages) + Ids(page.photos)
  {
    if pages == [] {
      assert pages + [page] == [page];
      assert UsedIds([page]) == Ids(page.photos) + UsedIds([]);
    } else {
      assert (pages + [page])[1..] == pages[1..] + [page];
      UsedIdsAppend(pages[1..], page);
    }
  }

  /** The photos no page uses yet, in pool order (`unusedPhotosCount` counts
      them). */
  function Unused(photos: seq<Photo>, pages: seq<Page>): (r: seq<Photo>)
    ensures forall p :: p in r <==> p in photos && p.id !in UsedIds(pages)
  {
    AvailablePhotos(photos, UsedIds(pages))
  }

  /** `photos.find((p) => !usedPhotoIds.has(p.id))`: the first unused photo,
      which is the head of the unused list. */
  function FirstUnused(photos: seq<Photo>, used: seq<string>): (r: Option<Photo>)
    ensures r.None? <==> AvailablePhotos(photos, used) == []
    ensures r.Some? ==> r.value == AvailablePhotos(photos, used)[0]
  {
    if photos == [] then None
    else if photos[0].id !in used then Some(photos[0])
    else FirstUnused(photos[1..], used)
  }

  /** Marking one more id as used never makes more photos available. */
  lemma {:induction false} MoreIdsFewer(pool: seq<Photo>, ids: seq<string>, x: string)
    ensures |AvailablePhotos(pool, ids + [x])| <= |AvailablePhotos(pool, ids)|
  {
    if pool != [] {
      MoreIdsFewer(pool[1..], ids, x);
    }
  }

  /** Marking the id of an available photo as used makes strictly fewer
      photos available. */
  lemma {:induction false} UsingShrinks(pool: seq<Photo>, ids: seq<string>, q: Photo)
    requires q in AvailablePhotos(pool, ids)
    ensures |AvailablePhotos(pool, ids + [q.id])| < |AvailablePhotos(pool, ids)|
  {
    var rest := pool[1..];
    if pool[0].id == q.id {
      MoreIdsFewer(rest, ids, q.id);
      assert AvailablePhotos(pool, ids) == [pool[0]] + AvailablePhotos(rest, ids);
      assert AvailablePhotos(pool, ids + [q.id]) == AvailablePhotos(rest, ids + [q.id]);
    } else {
      assert q in rest;
      UsingShrinks(rest, ids, q);
    }
  }

  class UploadFlow {
    var record: Option<StoredBook>
    var photos: seq<Photo>
    var pages: seq<Page>
    var step: Step
    /** Set by the navigation to the preview screen. */
    var previewed: bool

    /** The number of photos no page uses yet. */
    function UnusedCount(): (r: nat)
      reads this
      ensures r <= |photos|
      ensures r == 0 <==> forall p :: p in photos ==> p.id in UsedIds(pages)
    {
      var u := Unused(photos, pages);
      assert u != [] ==> u[0] in u;
      |u|
    }

    /** Mounting: the stored pool and pages are loaded when a record exists;
        the flow starts at the upload step. */
    constructor (stored: Option<StoredBook>)
      ensures record == stored && step == Upload && !previewed
      ensures stored.None? ==> photos == [] && pages == []
      ensures stored.Some? ==> photos == LoadPhotos(stored.value.photos) && pages == LoadPages(stored.value.pages)
    {
      record := stored;
      step := Upload;
      previewed := false;
      photos := [];
      pages := [];
      if stored.Some? {
        if stored.value.photos != [] {
          photos := LoadPhotos(stored.value.photos);
        }
        if stored.value.pages != [] {
          pages := LoadPages(stored.value.pages);
        }
      }
    }

    /** `handlePhotosChange`: the uploader's new pool replaces the pool and is
        stored. */
    method PhotosChange(newPhotos: seq<Photo>)
      modifies this
      ensures photos == newPhotos && record == SavePhotos(old(record), newPhotos)
      ensures pages == old(pages) && step == old(step) && previewed == old(previewed)
    {
      photos := newPhotos;
      record := SavePhotos(record, newPhotos);
    }

    /** `handleContinue`: refused without photos; otherwise moves to the page
        step, first creating (without storing it) a single-layout page `newId`
        holding the first photo when there is no page. */
    method Continue(newId: string) returns (notice: Notice)
      modifies this
      ensures record == old(record) && photos == old(photos) && previewed == old(previewed)
      ensures notice == NoPhotos <==> old(photos) == []
      ensures notice == NoPhotos ==> pages == old(pages) && step == old(step)
      ensures notice != NoPhotos ==> notice == Done && step == Arrange
      ensures notice == Done && old(pages) == [] ==> pages == [Page(newId, [photos[0]], Single, "")]
      ensures notice == Done && old(pages) != [] ==> pages == old(pages)
    {
      if photos == [] {
        return NoPhotos;
      }
      if pages == [] {
        pages := [Page(newId, [photos[0]], Single, "")];
      }
      step := Arrange;
      return Done;
    }

    /** `handleAddPage`: refused when every photo is used; otherwise appends a
        single-layout page `newId` holding the first unused photo and stores
        the pages. Each success uses up at least one more photo. */
    method AddPage(newId: string) returns (notice: Notice)
      modifies this
      ensures photos == old(photos) && step == old(step) && previewed == old(previewed)
      ensures notice == Done <==> old(UnusedCount()) > 0
      ensures notice != Done ==> notice == PhotosUsedUp && pages == old(pages) && record == old(record)
      ensures notice == Done ==>
        && pages == old(pages) + [Page(newId, [Unused(photos, old(pages))[0]], Single, "")]
        && record == SavePages(old(record), pages)
        && UnusedCount() < old(UnusedCount())
    {
      var used := UsedIds(pages);
      var available := FirstUnused(photos, used);
      if available.None? {
        return PhotosUsedUp;
      }
      var page := Page(newId, [available.value], Single, "");
      UsedIdsAppend(pages, page);
      assert Ids(page.photos) == [available.value.id];
      assert available.value in AvailablePhotos(photos, used);
      UsingShrinks(photos, used, available.value);
      pages := pages + [page];
      record := SavePages(record, pages);
      return Done;
    }

    /** `handleUpdatePage`: the emitted page replaces the page with its id,
        and the pages are stored. */
    method UpdatePage(updated: Page)
      modifies this
      ensures photos == old(photos) && step == old(step) && previewed == old(previewed)
      ensures pages == ReplaceById(old(pages), updated)
      ensures PageIds(pages) == PageIds(old(pages))
      ensures record == SavePages(old(record), pages)
    {
      ReplaceKeepsIds(pages, updated);
      pages := ReplaceById(pages, updated);
      record := SavePages(record, pages);
    }

    /** `handleRemovePage`: the page is removed and the pages are stored. */
    method RemovePage(id: string)
      modifies this
      ensures photos == old(photos) && step == old(step) && previewed == old(previewed)
      ensures pages == RemoveById(old(pages), id)
      ensures record == SavePages(old(record), pages)
    {
      pages := RemoveById(pages, id);
      record := SavePages(record, pages);
    }

    /** `handleFinish`: refused without pages, otherwise goes to the
        preview. */
    method Finish() returns (notice: Notice)
      modifies this
      ensures record == old(record) && photos == old(photos) && pages == old(pages) && step == old(step)
      ensures notice == NoPages <==> pages == []
      ensures notice != NoPages ==> notice == Done
      ensures previewed == (old(previewed) || pages != [])
    {
      if pages == [] {
        return NoPages;
      }
      previewed := true;
      return Done;
    }
  }
}
