/** The page-building screen (CreatePages): an ordered list of pages, the
    book's photo pool, the selected page, and the stored book record every
    change is written back to. Photos uploaded from a page's card are added
    to the pool and, up to four per page, to that page. */
module CreatePages {
  import opened Common
  import opened Types
  import opened Layouts
  import opened PageEditor
  import opened PageList
  import opened Staging
  import opened Storage

  /** `allPhotos.find((p) => p.id === id)`: the first pool photo with that id. */
  function FindPhoto(pool: seq<Photo>, id: string): (r: Option<Photo>)
    ensures r.None? <==> id !in Ids(pool)
    ensures r.Some? ==> r.value.id == id && r.value == pool[FirstIndex(Ids(pool), id)]
  {
    if id in Ids(pool) then Some(pool[FirstIndex(Ids(pool), id)]) else None
  }

  /** `handleUpdatePage`'s photo list: each photo of the emitted page replaced
      by the pool's photo with its id, those the pool does not know dropped,
      the page's order kept. */
  function Rehydrate(pool: seq<Photo>, photos: seq<Photo>): (r: seq<Photo>)
    ensures forall q :: q in r ==> q in pool
    ensures Subsequence(Ids(r), Ids(photos))
    ensures forall x :: x in Ids(r) <==> x in Ids(photos) && x in Ids(pool)
    ensures (forall x :: x in Ids(photos) ==> x in Ids(pool)) ==> Ids(r) == Ids(photos)
  {
    if photos == [] then []
    else
      var rest := Rehydrate(pool, photos[1..]);
      IdsCons(photos);
      match FindPhoto(pool, photos[0].id)
      case None => rest
      case Some(p) =>
        IdsCons([p] + rest);
        assert ([p] + rest)[1..] == rest;
        [p] + rest
  }

  /** Rehydration keeps every occurrence of a known id and no occurrence of
      an unknown one. */
  lemma {:induction false} RehydrateCounts(pool: seq<Photo>, photos: seq<Photo>)
    ensures forall x :: multiset(Ids(Rehydrate(pool, photos)))[x] == if x in Ids(pool) then multiset(Ids(photos))[x] else 0
  {
    if photos != [] {
      RehydrateCounts(pool, photos[1..]);
      assert Ids(photos)[1..] == Ids(photos[1..]);
      RehydrateIdsAtHead(pool, photos);
      KeepCountsStep(Ids(photos), Ids(Rehydrate(pool, photos)), Ids(Rehydrate(pool, photos[1..])), Ids(pool));
    }
  }

  /** One step of `Rehydrate` on the ids: the head's id is kept exactly when
      the pool knows it. */
  lemma RehydrateIdsAtHead(pool: seq<Photo>, photos: seq<Photo>)
    requires photos != []
    ensures Ids(Rehydrate(pool, photos)) ==
      if photos[0].id in Ids(pool) then [photos[0].id] + Ids(Rehydrate(pool, photos[1..]))
      else Ids(Rehydrate(pool, photos[1..]))
  {
    var rest := Rehydrate(pool, photos[1..]);
    if photos[0].id in Ids(pool) {
      var p := FindPhoto(pool, photos[0].id).value;
      assert Rehydrate(pool, photos) == [p] + rest;
      IdsCons([p] + rest);
      assert ([p] + rest)[1..] == rest;
    }
  }

  /** One step of a filter that keeps the ids `known` lists: the counts of
      the kept list follow from those of the list's tail. */
  lemma KeepCountsStep(a: seq<string>, r: seq<string>, rest: seq<string>, known: seq<string>)
    requires a != []
    requires forall x :: multiset(rest)[x] == if x in known then multiset(a[1..])[x] else 0
    requires r == if a[0] in known then [a[0]] + rest else rest
    ensures forall x :: multiset(r)[x] == if x in known then multiset(a)[x] else 0
  {
    assert a == [a[0]] + a[1..];
    assert multiset(a) == multiset{a[0]} + multiset(a[1..]);
    if a[0] in known {
      assert multiset(r) == multiset{a[0]} + multiset(rest);
    }
  }

  /** Each rehydrated photo is the pool's first photo with its id (what
      `find` returns). */
  lemma {:induction false} RehydrateFinds(pool: seq<Photo>, photos: seq<Photo>)
    ensures forall i :: 0 <= i < |Rehydrate(pool, photos)| ==>
      FindPhoto(pool, Rehydrate(pool, photos)[i].id) == Some(Rehydrate(pool, photos)[i])
  {
    if photos != [] {
      var r := Rehydrate(pool, photos);
      var rest := Rehydrate(pool, photos[1..]);
      RehydrateFinds(pool, photos[1..]);
      if photos[0].id in Ids(pool) {
        var p := FindPhoto(pool, photos[0].id).value;
        assert r == [p] + rest;
        forall i | 0 <= i < |r|
          ensures FindPhoto(pool, r[i].id) == Some(r[i])
        {
          if i > 0 {
            assert r[i] == rest[i - 1];
          }
        }
      } else {
        assert r == rest;
      }
    }
  }

  /** A page whose photos all come from a pool with distinct ids (every page
      an editor emits) is rehydrated to itself. */
  lemma {:induction false} RehydrateFromPool(pool: seq<Photo>, photos: seq<Photo>)
    requires Distinct(Ids(pool))
    requires forall q :: q in photos ==> q in pool
    ensures Rehydrate(pool, photos) == photos
  {
    if photos != [] {
      RehydrateFromPool(pool, photos[1..]);
      assert photos[0] in pool;
      var j :| 0 <= j < |pool| && pool[j] == photos[0];
      assert Ids(pool)[j] == photos[0].id;
      var k := FirstIndex(Ids(pool), photos[0].id);
      assert pool[k] == photos[0];
    }
  }

  /** The page an upload from `page`'s card produces: the page's photos
      followed by the pool photos whose ids are among the first
      `4 - |page.photos|` new photos, in pool order. */
  function AddedTo(page: Page, pool: seq<Photo>, newPhotos: seq<Photo>): (r: Page)
    ensures r.id == page.id && r.layout == page.layout && r.note == page.note
    ensures |page.photos| <= |r.photos|
    ensures r.photos[..|page.photos|] == page.photos
  {
    var toAdd := PagePhotos(pool, Ids(SlicePrefix(newPhotos, MaxPagePhotos - |page.photos|)));
    assert (page.photos + toAdd)[..|page.photos|] == page.photos;
    page.(photos := page.photos + toAdd)
  }

  /** The page-list update of `handleFileSelect`, `None` when the pages stay
      as they are: the upload came from a page (`pageId` non-empty), brought
      at least one image, and that page exists with fewer than four photos. */
  function AutoAdd(pages: seq<Page>, pool: seq<Photo>, newPhotos: seq<Photo>, pageId: string): (r: Option<seq<Page>>)
    ensures r.Some? <==> (pageId != "" && newPhotos != [] && pageId in PageIds(pages)
      && |FindPage(pages, pageId).value.photos| < MaxPagePhotos)
    ensures r.Some? ==> PageIds(r.value) == PageIds(pages)
    ensures r.Some? ==> forall i :: 0 <= i < |pages| ==>
      r.value[i] == if pages[i].id == pageId then AddedTo(FindPage(pages, pageId).value, pool, newPhotos) else pages[i]
  {
    if pageId != "" && |newPhotos| > 0 then
      match FindPage(pages, pageId)
      case Some(page) =>
        if |page.photos| < MaxPagePhotos then
          var updated := AddedTo(page, pool, newPhotos);
          ReplaceKeepsIds(pages, updated);
          Some(ReplaceById(pages, updated))
        else None
      case None => None
    else None
  }

  /** In a pool with distinct ids ending in `run`, the ids of the first `k`
      photos of the run belong to no other pool photo. */
  lemma RunIdsApart(before: seq<Photo>, run: seq<Photo>, k: nat)
    requires k <= |run|
    requires Distinct(Ids(before + run))
    ensures forall q :: q in before ==> q.id !in Ids(run[..k])
    ensures forall q :: q in run[k..] ==> q.id !in Ids(run[..k])
  {
    var all := Ids(before + run);
    IdsAppend(before, run);
    assert all[|before|..|before| + k] == Ids(run[..k]);
    forall q | q in before ensures q.id !in all[|before|..|before| + k] {
      var i :| 0 <= i < |before| && before[i] == q;
      assert all[i] == q.id;
      Apart(all, |before|, |before| + k, i);
    }
    forall q | q in run[k..] ensures q.id !in all[|before|..|before| + k] {
      var i :| 0 <= i < |run| - k && run[k..][i] == q;
      assert all[|before| + k + i] == q.id;
      Apart(all, |before|, |before| + k, |before| + k + i);
    }
  }

  /** Selecting the pool photos whose ids are those of a run of fresh photos
      at the end of the pool gives back exactly that run. */
  lemma SelectFreshRun(before: seq<Photo>, run: seq<Photo>, k: nat)
    requires k <= |run|
    requires Distinct(Ids(before + run))
    ensures PagePhotos(before + run, Ids(run[..k])) == run[..k]
  {
    var ids := Ids(run[..k]);
    RunIdsApart(before, run, k);
    PagePhotosAppend(before, run, ids);
    NoneSelected(before, ids);
    assert run == run[..k] + run[k..];
    PagePhotosAppend(run[..k], run[k..], ids);
    forall q | q in run[..k] ensures q.id in ids {
      var i :| 0 <= i < k && run[..k][i] == q;
      assert ids[i] == q.id;
    }
    AllSelected(run[..k], ids);
    NoneSelected(run[k..], ids);
  }

  /** Every photo of `xs` has its id among `ids`: filtering keeps them all. */
  lemma {:induction false} AllSelected(xs: seq<Photo>, ids: seq<string>)
    requires forall q :: q in xs ==> q.id in ids
    ensures PagePhotos(xs, ids) == xs
  {
    if xs != [] {
      AllSelected(xs[1..], ids);
      assert xs == [xs[0]] + xs[1..];
    }
  }

  /** No photo of `xs` has its id among `ids`: filtering keeps nothing. */
  lemma NoneSelected(xs: seq<Photo>, ids: seq<string>)
    requires forall q :: q in xs ==> q.id !in ids
    ensures PagePhotos(xs, ids) == []
  {
    if PagePhotos(xs, ids) != [] {
      assert PagePhotos(xs, ids)[0] in PagePhotos(xs, ids);
    }
  }

  /** With fresh ids (no new id already in the pool, no two new ids alike),
      the upload appends exactly the first `4 - count` new photos to the
      page, in upload order, and the page never exceeds four photos. */
  lemma AddedToFresh(page: Page, before: seq<Photo>, newPhotos: seq<Photo>)
    requires |page.photos| < MaxPagePhotos
    requires Distinct(Ids(before + newPhotos))
    ensures var room := MaxPagePhotos - |page.photos|;
      var k := if |newPhotos| < room then |newPhotos| else room;
      AddedTo(page, before + newPhotos, newPhotos).photos == page.photos + newPhotos[..k]
    ensures |AddedTo(page, before + newPhotos, newPhotos).photos| == Min(MaxPagePhotos, |page.photos| + |newPhotos|)
  {
    var room := MaxPagePhotos - |page.photos|;
    var k := if |newPhotos| < room then |newPhotos| else room;
    assert SlicePrefix(newPhotos, room) == newPhotos[..k];
    IdsAppend(before, newPhotos);
    SelectFreshRun(before, newPhotos, k);
  }

  /** The book's name and type, once loaded. */
  datatype BookInfo = BookInfo(name: string, kind: string)

  /** The screen's state. `record` is the stored book (`None`: nothing is
      stored), `redirected` records the navigation to the book-creation
      screen. */
  class BookEditor {
    var record: Option<StoredBook>
    var book: Option<BookInfo>
    var pages: seq<Page>
    var pool: seq<Photo>
    var currentPageId: string
    var redirected: bool

    /** The stored record mirrors the pages and the pool. */
    predicate Persisted()
      reads this
    {
      record.Some? ==> record.value.pages == StorePages(pages) && record.value.photos == StorePhotos(pool)
    }

    /** When there are pages, the selected id is one of them. */
    predicate Selected()
      reads this
    {
      pages != [] ==> currentPageId in PageIds(pages)
    }

    /** Mounting the screen: with no stored record, redirect; otherwise load
        the book, its pool and pages and select the first page, creating,
        selecting and storing an empty single-layout page (`newId`) when the
        record has none. */
    constructor (stored: Option<StoredBook>, newId: string)
      ensures stored.None? ==>
        record == None && book == None && pages == [] && pool == [] && currentPageId == "" && redirected
      ensures stored.Some? ==> (!redirected && book == Some(BookInfo(stored.value.name, stored.value.kind))
        && pool == LoadPhotos(stored.value.photos))
      ensures stored.Some? && stored.value.pages != [] ==>
        record == stored && pages == LoadPages(stored.value.pages) && currentPageId == stored.value.pages[0].id
      ensures stored.Some? && stored.value.pages == [] ==>
        pages == [Page(newId, [], Single, "")] && currentPageId == newId
        && record == SavePages(stored, pages)
      ensures Persisted() && Selected()
    {
      record := stored;
      pool := [];
      pages := [];
      currentPageId := "";
      match stored
      case None =>
        book := None;
        redirected := true;
      case Some(b) =>
        book := Some(BookInfo(b.name, b.kind));
        redirected := false;
        if b.pages != [] {
          pages := LoadPages(b.pages);
        }
        if b.photos != [] {
          pool := LoadPhotos(b.photos);
        }
        if b.pages == [] {
          pages := [Page(newId, [], Single, "")];
          currentPageId := newId;
          record := SavePages(stored, [Page(newId, [], Single, "")]);
        } else {
          currentPageId := b.pages[0].id;
        }
        StoredRoundTrip(b);
    }

    /** `handleFileSelect`: nothing when no file list is given; otherwise the
        image files become new photos appended to the pool (which is
        stored), and an upload from a page's card adds them to that page as
        `AutoAdd` says (the pages are then stored). */
    method UploadFiles(files: Option<seq<File>>, pageId: string, d: Draws)
      requires files.Some? ==> Covers(d, |files.value|)
      modifies this
      ensures book == old(book) && currentPageId == old(currentPageId) && redirected == old(redirected)
      ensures files.None? ==> record == old(record) && pages == old(pages) && pool == old(pool)
      ensures files.Some? ==>
        var added := NewPhotos(files.value, d);
        var update := AutoAdd(old(pages), old(pool) + added, added, pageId);
        && pool == old(pool) + added
        && pages == (if update.Some? then update.value else old(pages))
        && record == (if update.Some? then SavePages(SavePhotos(old(record), pool), pages) else SavePhotos(old(record), pool))
      ensures old(Persisted()) ==> Persisted()
      ensures old(Selected()) ==> Selected()
    {
      if files.None? {
        return;
      }
      var added := CollectImages(files.value, d);
      pool := pool + added;
      record := SavePhotos(record, pool);
      var update := AutoAdd(pages, pool, added, pageId);
      if update.Some? {
        pages := update.value;
        record := SavePages(record, pages);
      }
    }

    /** `handleAddPage`: an empty single-layout page with id `newId` is
        appended, selected and stored. */
    method AddPage(newId: string)
      modifies this
      ensures book == old(book) && pool == old(pool) && redirected == old(redirected)
      ensures pages == old(pages) + [Page(newId, [], Single, "")]
      ensures currentPageId == newId
      ensures record == SavePages(old(record), pages)
      ensures old(Persisted()) ==> Persisted()
      ensures Selected()
    {
      pages := pages + [Page(newId, [], Single, "")];
      currentPageId := newId;
      record := SavePages(record, pages);
      assert PageIds(pages)[|pages| - 1] == newId;
    }

    /** `handleSelectPage`. */
    method SelectPage(id: string)
      modifies this
      ensures record == old(record) && book == old(book) && pages == old(pages) && pool == old(pool)
      ensures redirected == old(redirected)
      ensures currentPageId == id
      ensures id in PageIds(pages) ==> Selected()
    {
      currentPageId := id;
    }

    /** `handleUpdatePage`: the page with the emitted page's id is replaced by
        it, its photos rehydrated from the pool, and the pages are stored. */
    method UpdatePage(updated: Page)
      modifies this
      ensures book == old(book) && pool == old(pool) && redirected == old(redirected)
      ensures currentPageId == old(currentPageId)
      ensures pages == ReplaceById(old(pages), updated.(photos := Rehydrate(pool, updated.photos)))
      ensures PageIds(pages) == PageIds(old(pages))
      ensures record == SavePages(old(record), pages)
      ensures old(Persisted()) ==> Persisted()
      ensures old(Selected()) ==> Selected()
    {
      var page := updated.(photos := Rehydrate(pool, updated.photos));
      ReplaceKeepsIds(pages, page);
      pages := ReplaceById(pages, page);
      record := SavePages(record, pages);
    }

    /** The effect on the pages and the selection: when there are pages and
        the selected id is empty or names no page, the first page is
        selected. */
    method SyncCurrentPage()
      modifies this
      ensures record == old(record) && book == old(book) && pages == old(pages) && pool == old(pool)
      ensures redirected == old(redirected)
      ensures Selected()
      ensures old(currentPageId) != "" && old(Selected()) ==> currentPageId == old(currentPageId)
      ensures pages == [] ==> currentPageId == old(currentPageId)
      ensures pages != [] && (old(currentPageId) == "" || old(currentPageId) !in PageIds(pages)) ==>
        currentPageId == pages[0].id
    {
      if pages != [] && (currentPageId == "" || FindPage(pages, currentPageId).None?) {
        currentPageId := pages[0].id;
      }
    }

    /** `handleRemovePage`: every page with that id is removed and the pages
        are stored; a removed selected page hands the selection to the first
        remaining page, or to no page. */
    method RemovePage(id: string)
      modifies this
      ensures book == old(book) && pool == old(pool) && redirected == old(redirected)
      ensures pages == RemoveById(old(pages), id)
      ensures record == SavePages(old(record), pages)
      ensures old(currentPageId) != id ==> currentPageId == old(currentPageId)
      ensures old(currentPageId) == id ==> currentPageId == (if pages == [] then "" else pages[0].id)
      ensures id !in PageIds(pages)
      ensures old(Persisted()) ==> Persisted()
      ensures old(Selected()) ==> Selected()
    {
      ghost var before := pages;
      pages := RemoveById(pages, id);
      record := SavePages(record, pages);
      if currentPageId == id {
        currentPageId := if pages != [] then pages[0].id else "";
      } else if currentPageId in PageIds(before) {
        RemoveKeepsOtherIds(before, id, currentPageId);
      }
    }
  }

  /** What a stored record's pages and pool load to stores back unchanged. */
  lemma StoredRoundTrip(b: StoredBook)
    ensures StorePages(LoadPages(b.pages)) == b.pages
    ensures StorePhotos(LoadPhotos(b.photos)) == b.photos
  {
    forall i | 0 <= i < |b.pages| ensures StorePage(LoadPage(b.pages[i])) == b.pages[i] {
      NameOfLayoutOf(b.pages[i].layout);
      assert StorePhotos(LoadPhotos(b.pages[i].photos)) == b.pages[i].photos;
    }
  }
}
