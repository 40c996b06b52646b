/** The per-page editor: the selection of photo ids, the layout and the note
    that PageEditorSidebar and PhotoPageEditor keep as component state, the
    handlers that change them and the page each handler hands to `onUpdate`.
    The two components share their handlers line for line and differ only
    in when they copy the incoming page back into their state. */
module PageEditor {
  import opened Common
  import opened Types
  import opened Layouts

  /** The most photos a page's selection takes. */
  const MaxPagePhotos := 4

  /** `getDefaultLayout`: the layout a page falls back to when its photo
      count changes by a removal. */
  function DefaultLayout(count: int): (r: Layout)
    ensures 1 <= count <= 4 ==> r in Options(count)
    ensures !(1 <= count <= 4) ==> r == FourGrid
  {
    if count == 1 then Single
    else if count == 2 then TwoHorizontal
    else if count == 3 then ThreeLeft
    else FourGrid
  }

  /** For 1..4 photos the default is the first variant the pickers offer; for
      any other count (0 included) it is four-grid, which no count other
      than 4 offers. */
  lemma DefaultIsFirstOption(n: int)
    ensures 1 <= n <= 4 ==> Options(n) != [] && DefaultLayout(n) == Options(n)[0]
    ensures !(1 <= n <= 4) ==> DefaultLayout(n) == FourGrid && DefaultLayout(n) !in Options(n)
    ensures SlotCount(DefaultLayout(n)) == if 1 <= n <= 4 then n else 4
  {
  }

  /** `allPhotos.filter((p) => ids.includes(p.id))`: the pool photos whose id
      is selected, in pool order; selected ids missing from the pool are
      dropped. */
  function PagePhotos(pool: seq<Photo>, ids: seq<string>): (r: seq<Photo>)
    ensures |r| <= |pool|
    ensures forall p :: p in r <==> p in pool && p.id in ids
    ensures Subsequence(r, pool)
  {
    if pool == [] then []
    else
      var rest := PagePhotos(pool[1..], ids);
      if pool[0].id in ids then
        assert ([pool[0]] + rest)[1..] == rest;
        [pool[0]] + rest
      else rest
  }

  /** `allPhotos.filter((p) => !selectedPhotoIds.includes(p.id))`: the photos
      the editor offers to add, in pool order. */
  function AvailablePhotos(pool: seq<Photo>, ids: seq<string>): (r: seq<Photo>)
    ensures |r| <= |pool|
    ensures forall p :: p in r <==> p in pool && p.id !in ids
    ensures Subsequence(r, pool)
  {
    if pool == [] then []
    else
      var rest := AvailablePhotos(pool[1..], ids);
      if pool[0].id !in ids then
        assert ([pool[0]] + rest)[1..] == rest;
        [pool[0]] + rest
      else rest
  }

  /** The selected photos and the available photos split the pool: every
      pool photo is in exactly one of the two lists. */
  lemma {:induction false} PoolSplits(pool: seq<Photo>, ids: seq<string>)
    ensures multiset(PagePhotos(pool, ids)) + multiset(AvailablePhotos(pool, ids)) == multiset(pool)
  {
    if pool != [] {
      var rest := pool[1..];
      PoolSplits(rest, ids);
      HeadJoinsEither(pool, PagePhotos(rest, ids), AvailablePhotos(rest, ids));
      FiltersAtHead(pool, ids);
    }
  }

  /** One step of the two filters: the head goes to the selected photos
      when its id is selected and to the available ones otherwise. */
  lemma FiltersAtHead(pool: seq<Photo>, ids: seq<string>)
    requires pool != []
    ensures pool[0].id in ids ==>
      PagePhotos(pool, ids) == [pool[0]] + PagePhotos(pool[1..], ids)
      && AvailablePhotos(pool, ids) == AvailablePhotos(pool[1..], ids)
    ensures pool[0].id !in ids ==>
      PagePhotos(pool, ids) == PagePhotos(pool[1..], ids)
      && AvailablePhotos(pool, ids) == [pool[0]] + AvailablePhotos(pool[1..], ids)
  {
  }

  /** When two lists split the tail of `pool`, adding its head to either of
      them splits `pool`. */
  lemma HeadJoinsEither(pool: seq<Photo>, s: seq<Photo>, t: seq<Photo>)
    requires pool != [] && multiset(s) + multiset(t) == multiset(pool[1..])
    ensures multiset([pool[0]] + s) + multiset(t) == multiset(pool)
    ensures multiset(s) + multiset([pool[0]] + t) == multiset(pool)
  {
    var x := pool[0];
    assert pool == [x] + pool[1..];
    assert multiset(pool) == multiset{x} + multiset(pool[1..]);
    assert multiset([x] + s) == multiset{x} + multiset(s);
    assert multiset([x] + t) == multiset{x} + multiset(t);
  }

  /** Filtering a concatenation filters each part. */
  lemma {:induction false} PagePhotosAppend(a: seq<Photo>, b: seq<Photo>, ids: seq<string>)
    ensures PagePhotos(a + b, ids) == PagePhotos(a, ids) + PagePhotos(b, ids)
  {
    if a == [] {
      assert a + b == b;
    } else {
      assert (a + b)[0] == a[0];
      assert (a + b)[1..] == a[1..] + b;
      PagePhotosAppend(a[1..], b, ids);
    }
  }

  /** Two id lists that agree on the pool's ids select the same photos. */
  lemma {:induction false} PagePhotosSameIds(pool: seq<Photo>, a: seq<string>, b: seq<string>)
    requires forall p :: p in pool ==> (p.id in a <==> p.id in b)
    ensures PagePhotos(pool, a) == PagePhotos(pool, b)
  {
    if pool != [] {
      PagePhotosSameIds(pool[1..], a, b);
    }
  }

  /** The ids of a list, as a set. */
  function IdSet(photos: seq<Photo>): set<string>
  {
    set p | p in photos :: p.id
  }

  /** A list without repeats has as many distinct elements as entries. */
  lemma {:induction false} DistinctCard(ids: seq<string>)
    requires Distinct(ids)
    ensures |set x | x in ids| == |ids|
  {
    if ids != [] {
      DistinctCard(ids[1..]);
      assert (set x | x in ids) == {ids[0]} + (set x | x in ids[1..]);
      assert ids[0] !in (set x | x in ids[1..]);
    }
  }

  /** With distinct pool ids, the first photo's id is not used again. */
  lemma HeadIdNotInRest(pool: seq<Photo>)
    requires pool != [] && Distinct(Ids(pool))
    ensures pool[0].id !in IdSet(pool[1..])
    ensures Distinct(Ids(pool[1..]))
  {
    var rest := pool[1..];
    forall q | q in rest ensures q.id != pool[0].id {
      var j :| 0 <= j < |rest| && rest[j] == q;
      assert Ids(pool)[j + 1] == q.id;
    }
    assert Ids(rest) == Ids(pool)[1..];
  }

  /** With distinct pool ids, the number of photos selected is the number of
      selected ids the pool knows. */
  lemma {:induction false} PagePhotosCount(pool: seq<Photo>, ids: seq<string>)
    requires Distinct(Ids(pool))
    ensures |PagePhotos(pool, ids)| == |(set x | x in ids) * IdSet(pool)|
  {
    var s := set x | x in ids;
    if pool == [] {
      assert s * IdSet(pool) == {};
    } else {
      var rest := pool[1..];
      HeadIdNotInRest(pool);
      PagePhotosCount(rest, ids);
      SelectedIdsCons(pool, s);
      if pool[0].id in ids {
        assert PagePhotos(pool, ids) == [pool[0]] + PagePhotos(rest, ids);
      } else {
        assert PagePhotos(pool, ids) == PagePhotos(rest, ids);
      }
    }
  }

  /** The selected ids of a pool split into those of its head and those of
      the rest. */
  lemma SelectedIdsCons(pool: seq<Photo>, s: set<string>)
    requires pool != []
    ensures pool[0].id in s ==> s * IdSet(pool) == {pool[0].id} + s * IdSet(pool[1..])
    ensures pool[0].id !in s ==> s * IdSet(pool) == s * IdSet(pool[1..])
  {
    assert IdSet(pool) == {pool[0].id} + IdSet(pool[1..]) by {
      assert pool == [pool[0]] + pool[1..];
    }
  }

  /** What a well-kept editor state satisfies: the pool's ids are distinct,
      the selection has no repeats, names only pool photos and holds at most
      four ids. */
  predicate Consistent(pool: seq<Photo>, selected: seq<string>)
  {
    && Distinct(Ids(pool))
    && Distinct(selected)
    && (forall id :: id in selected ==> id in Ids(pool))
    && |selected| <= MaxPagePhotos
  }

  /** In a consistent state the emitted page holds one photo per selected id. */
  lemma EmittedCountIsSelectionCount(pool: seq<Photo>, selected: seq<string>)
    requires Consistent(pool, selected)
    ensures |PagePhotos(pool, selected)| == |selected|
  {
    PagePhotosCount(pool, selected);
    DistinctCard(selected);
    var s := set x | x in selected;
    assert s <= IdSet(pool) by {
      forall x | x in s ensures x in IdSet(pool) {
        var i :| 0 <= i < |Ids(pool)| && Ids(pool)[i] == x;
        assert pool[i] in pool;
      }
    }
    assert s * IdSet(pool) == s;
  }

  /** `updatePage`: the incoming page with its photos rebuilt from the pool
      and the given layout and note; the id is kept. */
  function BuildPage(page: Page, pool: seq<Photo>, ids: seq<string>, layout: Layout, note: string): (r: Page)
    ensures r.id == page.id && r.layout == layout && r.note == note
    ensures r.photos == PagePhotos(pool, ids)
  {
    page.(photos := PagePhotos(pool, ids), layout := layout, note := note)
  }

  /** Adding an available photo to a consistent selection below the cap keeps
      it consistent. */
  lemma AddKeepsConsistent(pool: seq<Photo>, selected: seq<string>, id: string)
    requires Consistent(pool, selected) && |selected| < MaxPagePhotos
    requires id in Ids(AvailablePhotos(pool, selected))
    ensures Consistent(pool, selected + [id])
  {
    var k :| 0 <= k < |AvailablePhotos(pool, selected)| && Ids(AvailablePhotos(pool, selected))[k] == id;
    assert AvailablePhotos(pool, selected)[k] in pool;
    var j :| 0 <= j < |pool| && pool[j] == AvailablePhotos(pool, selected)[k];
    assert Ids(pool)[j] == id;
  }

  /** Removing an id keeps a consistent selection consistent. */
  lemma RemoveKeepsConsistent(pool: seq<Photo>, selected: seq<string>, id: string)
    requires Consistent(pool, selected)
    ensures Consistent(pool, Without(selected, id))
  {
    WithoutKeepsDistinct(selected, id);
  }

  lemma {:induction false} WithoutKeepsDistinct(xs: seq<string>, x: string)
    requires Distinct(xs)
    ensures Distinct(Without(xs, x))
  {
    if xs != [] {
      var rest := xs[1..];
      assert Distinct(rest);
      WithoutKeepsDistinct(rest, x);
      if xs[0] != x {
        assert xs[0] !in rest;
        assert xs[0] !in Without(rest, x);
        assert Without(xs, x) == [xs[0]] + Without(rest, x);
      }
    }
  }

  /** After a removal from a consistent state the emitted page has as many
      photos as the selection, and for 1..4 of them its layout is one the
      pickers offer for that count; an emptied page gets four-grid. */
  lemma RemovalEmitsFittingLayout(page: Page, pool: seq<Photo>, selected: seq<string>, id: string, note: string)
    requires Consistent(pool, selected)
    ensures var sel := Without(selected, id);
      var out := BuildPage(page, pool, sel, DefaultLayout(|sel|), note);
      && |out.photos| == |sel|
      && (|out.photos| >= 1 ==> out.layout in Options(|out.photos|))
      && (|out.photos| == 0 ==> out.layout == FourGrid)
  {
    var sel := Without(selected, id);
    RemoveKeepsConsistent(pool, selected, id);
    EmittedCountIsSelectionCount(pool, sel);
    DefaultIsFirstOption(|sel|);
  }

  /** Adding does not re-derive the layout: a single-photo page that gets a
      second photo is emitted with two photos and the layout `single`, which
      the pickers offer only for one photo. */
  lemma AddKeepsStaleLayout(page: Page, a: Photo, b: Photo)
    requires a.id != b.id
    ensures var out := BuildPage(page, [a, b], [a.id] + [b.id], Single, page.note);
      |out.photos| == 2 && out.layout !in Options(|out.photos|)
  {
    assert PagePhotos([b], [a.id, b.id]) == [b];
    assert [a, b][1..] == [b];
  }

  /** The emitted photos follow pool order, not the order of selection. */
  lemma EmittedInPoolOrder(a: Photo, b: Photo)
    requires a.id != b.id
    ensures PagePhotos([a, b], [b.id, a.id]) == [a, b]
  {
    assert [a, b][1..] == [b];
    assert PagePhotos([b], [b.id, a.id]) == [b];
  }

  /** Which of the two components the state belongs to: they differ in the
      effect that copies the incoming page into the state. */
  datatype EditorKind = Sidebar | PageCard

  /** Whether the sync effect fires when the page prop changes from `before`
      to `after`: the sidebar watches the page's id, photos, layout and note
      (PageEditorSidebar), the page card only its id (PhotoPageEditor). */
  predicate Resyncs(kind: EditorKind, before: Page, after: Page)
    ensures Resyncs(kind, before, after) ==> before != after
    ensures before.id != after.id ==> Resyncs(kind, before, after)
    ensures kind == Sidebar ==> (Resyncs(kind, before, after) <==> before != after)
    ensures kind == PageCard ==> (Resyncs(kind, before, after) <==> before.id != after.id)
  {
    match kind
    case Sidebar =>
      before.id != after.id || before.photos != after.photos
      || before.layout != after.layout || before.note != after.note
    case PageCard => before.id != after.id
  }

  /** The editor component's state: the props it was last rendered with
      (`page`, `pool`) and its own `useState` fields. */
  class Editor {
    const kind: EditorKind
    var page: Page
    var pool: seq<Photo>
    var selected: seq<string>
    var layout: Layout
    var note: string

    /** Mounting: the state starts as a copy of the page. */
    constructor (kind: EditorKind, page: Page, pool: seq<Photo>)
      ensures this.kind == kind && this.page == page && this.pool == pool
      ensures selected == Ids(page.photos) && layout == page.layout && note == page.note
    {
      this.kind := kind;
      this.page := page;
      this.pool := pool;
      selected := Ids(page.photos);
      layout := page.layout;
      note := page.note;
    }

    /** The photos offered for adding. */
    function Available(): (r: seq<Photo>)
      reads this
      ensures forall p :: p in r <==> p in pool && p.id !in selected
    {
      AvailablePhotos(pool, selected)
    }

    /** `handleAddPhoto`: refused once four ids are selected; otherwise the id
      is appended and the page is emitted with the layout left as it was. */
    method AddPhoto(id: string) returns (update: Option<Page>)
      modifies this
      ensures page == old(page) && pool == old(pool) && layout == old(layout) && note == old(note)
      ensures |old(selected)| >= MaxPagePhotos ==> update == None && selected == old(selected)
      ensures |old(selected)| < MaxPagePhotos ==>
        selected == old(selected) + [id] && update == Some(BuildPage(page, pool, selected, layout, note))
      ensures old(Consistent(pool, selected)) && id in old(Ids(Available())) ==> Consistent(pool, selected)
    {
      if |selected| >= MaxPagePhotos {
        return None;
      }
      if Consistent(pool, selected) && id in Ids(Available()) {
        AddKeepsConsistent(pool, selected, id);
      }
      selected := selected + [id];
      update := Some(BuildPage(page, pool, selected, layout, note));
    }

    /** `handleRemovePhoto`: every occurrence of the id leaves the selection
      and the layout falls back to the default for the new count. */
    method RemovePhoto(id: string) returns (update: Page)
      modifies this
      ensures page == old(page) && pool == old(pool) && note == old(note)
      ensures selected == Without(old(selected), id)
      ensures layout == DefaultLayout(|selected|)
      ensures update == BuildPage(page, pool, selected, layout, note)
      ensures old(Consistent(pool, selected)) ==> Consistent(pool, selected) && |update.photos| == |selected|
    {
      if Consistent(pool, selected) {
        RemoveKeepsConsistent(pool, selected, id);
        EmittedCountIsSelectionCount(pool, Without(selected, id));
      }
      selected := Without(selected, id);
      layout := DefaultLayout(|selected|);
      update := BuildPage(page, pool, selected, layout, note);
    }

    /** `handleLayoutChange`: only the layout changes; it is not checked
      against the photo count. */
    method ChangeLayout(l: Layout) returns (update: Page)
      modifies this
      ensures page == old(page) && pool == old(pool) && selected == old(selected) && note == old(note)
      ensures layout == l
      ensures update == BuildPage(page, pool, selected, l, note)
    {
      layout := l;
      update := BuildPage(page, pool, selected, layout, note);
    }

    /** `handleNoteChange`: only the note changes. */
    method ChangeNote(n: string) returns (update: Page)
      modifies this
      ensures page == old(page) && pool == old(pool) && selected == old(selected) && layout == old(layout)
      ensures note == n
      ensures update == BuildPage(page, pool, selected, layout, n)
    {
      note := n;
      update := BuildPage(page, pool, selected, layout, note);
    }

    /** A re-render with new props, followed by the sync effect: the state is
      reset from the page exactly when the component's effect fires. */
    method ReceiveProps(newPage: Page, newPool: seq<Photo>)
      modifies this
      ensures page == newPage && pool == newPool
      ensures Resyncs(kind, old(page), newPage) ==>
        selected == Ids(newPage.photos) && layout == newPage.layout && note == newPage.note
      ensures !Resyncs(kind, old(page), newPage) ==>
        selected == old(selected) && layout == old(layout) && note == old(note)
    {
      if Resyncs(kind, page, newPage) {
        selected := Ids(newPage.photos);
        layout := newPage.layout;
        note := newPage.note;
      }
      page := newPage;
      pool := newPool;
    }
  }
}
