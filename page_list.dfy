/** The list operations the book pages (CreatePages, UploadPhotos) apply to
    their ordered page list: `find`, replace-by-id `map` and remove-by-id
    `filter`. */
module PageList {
  import opened Common
  import opened Types

  /** The ids of the pages, in order. */
  function PageIds(pages: seq<Page>): (r: seq<string>)
    ensures |r| == |pages|
    ensures forall i :: 0 <= i < |pages| ==> r[i] == pages[i].id
  {
    if pages == [] then [] else [pages[0].id] + PageIds(pages[1..])
  }

  /** `pages.find((p) => p.id === id)`: the first page with that id, if any. */
  function FindPage(pages: seq<Page>, id: string): (r: Option<Page>)
    ensures r.None? <==> id !in PageIds(pages)
    ensures r.Some? ==> r.value.id == id && r.value == pages[FirstIndex(PageIds(pages), id)]
  {
    if id in PageIds(pages) then Some(pages[FirstIndex(PageIds(pages), id)]) else None
  }

  /** `pages.map((p) => p.id === updated.id ? updated : p)`: every page with
      the updated page's id is replaced by it, the others stay in place. */
  function ReplaceById(pages: seq<Page>, updated: Page): (r: seq<Page>)
    ensures |r| == |pages|
    ensures forall i :: 0 <= i < |pages| ==> r[i] == if pages[i].id == updated.id then updated else pages[i]
  {
    seq(|pages|, i requires 0 <= i < |pages| => if pages[i].id == updated.id then updated else pages[i])
  }

  /** Replacing by id never changes the list of ids. */
  lemma ReplaceKeepsIds(pages: seq<Page>, updated: Page)
    ensures PageIds(ReplaceById(pages, updated)) == PageIds(pages)
  {
  }

  /** `pages.filter((p) => p.id !== id)`. */
  function RemoveById(pages: seq<Page>, id: string): (r: seq<Page>)
    ensures |r| <= |pages|
    ensures forall p :: p in r <==> p in pages && p.id != id
    ensures Subsequence(r, pages)
    ensures id !in PageIds(r)
  {
    if pages == [] then []
    else
      var rest := RemoveById(pages[1..], id);
      if pages[0].id != id then
        assert ([pages[0]] + rest)[1..] == rest;
        [pages[0]] + rest
      else rest
  }

  /** A page with an id other than the removed one survives a removal. */
  lemma RemoveKeepsOtherIds(pages: seq<Page>, id: string, other: string)
    requires other != id && other in PageIds(pages)
    ensures other in PageIds(RemoveById(pages, id))
  {
    var i :| 0 <= i < |pages| && pages[i].id == other;
    assert pages[i] in RemoveById(pages, id);
    var j :| 0 <= j < |RemoveById(pages, id)| && RemoveById(pages, id)[j] == pages[i];
    assert PageIds(RemoveById(pages, id))[j] == other;
  }
}
