# remi memory books, modelled in Dafny

This project models the in-browser logic of the remi "memory book" web
application. A memory book is an ordered list of pages. Each page holds up
to four photos taken from the book's photo pool, a layout variant that says
how those photos are arranged on a grid, and a note.

The model covers these parts of the application:

- the per-page editor state machine: select photos, remove photos, change
  the layout, change the note, and re-sync from the page it was given;
- the layout catalogue: the variants offered for each photo count, the grid
  geometry of each variant, and the layout pickers;
- the page-list screens that keep the pool, the pages and the current page,
  and store them as a book record;
- the converters between server records and editor photos and pages;
- the upload widgets that turn picked files into staged photos, up to a cap;
- the contribution form;
- the gallery's card rules;
- the book list's thumbnail, count, leader and create-form rules.

One module per source file:

| module | file |
|---|---|
| `Common` | option/result, JS string and array helpers (`startsWith`, `slice(0, end)`, `trim`, `filter`) |
| `Types` | `src/types.ts`: layouts, photos, pages, prompts |
| `Layouts` | `LayoutModal.tsx`, `PhotoLayoutSelector.tsx`, the geometry of `PhotoPageEditor.tsx` |
| `PageEditor` | `PageEditorSidebar.tsx` and `PhotoPageEditor.tsx` (class `Editor`) |
| `PageList` | the find/replace/remove-by-id list operations of the page screens |
| `Staging` | the file loop that stages image files as photos (three copies in the source) |
| `Storage` | the stored book record written by `savePages` / `savePhotos` |
| `CreatePages` | `src/pages/CreatePages.tsx` (class `BookEditor`) |
| `UploadPhotos` | `src/pages/UploadPhotos.tsx` (class `UploadFlow`) |
| `PhotoUtils` | `src/utils/photoUtils.ts` |
| `PhotoUploader` | `src/components/PhotoUploader.tsx` |
| `Contribute` | `src/pages/Contribute.tsx` (class `ContributeForm`) |
| `MemoryGallery` | `src/components/MemoryGallery.tsx` |
| `MyMemoryBooks` | `src/pages/MyMemoryBooks.tsx` (class `BookList`) |

State that a component updates through `useState` becomes a field of a class,
and each handler becomes a method. A React effect becomes a method that the
caller runs after the change that triggers it. A handler that hands a page to
its parent returns that page. Randomness is passed in as parameters, and so
is everything the browser or the server supplies: fresh ids, prompt picks,
object URLs, the stored record, API outcomes. `Staging.Draws` carries the
per-file draws, and `Staging.Covers` says that there are enough of them.

### What the handlers do and do not check

- **Adding a photo keeps the layout.** The editors' add handler appends the
  id and emits the page with the old layout
  (`src/components/PageEditorSidebar.tsx:65-70`), so a two-photo page can
  still have the `single` layout (`PageEditor.AddKeepsStaleLayout`). Only a
  removal re-derives the layout from the photo count (lines 72-78).
- **Changing the layout is not validated.** The layout handler stores and
  emits any layout it is given (`src/components/PageEditorSidebar.tsx:80-83`,
  `PageEditor.Editor.ChangeLayout`).
- **Notes are not length-checked.** No handler looks at a note's length. Only
  the text fields' `maxLength` attributes limit it
  (`src/components/PageEditorSidebar.tsx:290`,
  `src/components/PhotoPageEditor.tsx:379`, `src/pages/Contribute.tsx:290`).
- **Removing a photo from the uploader touches only its own list.** The
  uploader's `removePhoto` filters the photos it holds and hands them to its
  parent (`src/components/PhotoUploader.tsx:60-66`). Neither page screen
  removes a photo from its pages.
- **Every change is written at once.** Each handler of the page screens calls
  `savePages` or `savePhotos` itself (for instance
  `src/pages/CreatePages.tsx:148`, `src/pages/UploadPhotos.tsx:86`).
- **The photo type has no `url` field** (`src/types.ts:3-9`), yet
  `src/utils/photoUtils.ts:20` writes `url` and line 47 reads `photo.url`.
  The model's `Photo` carries a `url` (empty for local photos).

## Model

| member | source | states |
|---|---|---|
| Common.SlicePrefix | src/components/PhotoUploader.tsx:26-28 | `slice(0, end)` is a prefix. A non-negative end keeps `min(end, length)` elements. A negative end drops that many elements from the back, leaving at least zero. |
| Common.Trim | src/pages/MyMemoryBooks.tsx:58 | The trimmed string is the input with a blank prefix and a blank suffix removed: a contiguous slice of the input, everything before and after it whitespace. It neither starts nor ends with whitespace. |
| Common.TrimEmptyIffBlank | src/pages/MyMemoryBooks.tsx:58 | A string trims to the empty string exactly when every character of it is whitespace. |
| Common.Without | src/components/PageEditorSidebar.tsx:73 | Filtering out an id removes every occurrence of it and keeps every other element, in order. The result is a subsequence, and it equals the input when the id is absent. |
| Types.LayoutOf | src/types.ts:12-20 | A layout string outside the eight names of the union reads as `Other`, and only such a string does. |
| Types.NameOfLayoutOf | src/utils/photoUtils.ts:36 | Reading a layout string and writing it back gives the same string. |
| Types.LayoutOfName | src/utils/photoUtils.ts:84 | Writing a layout the application can hold and reading it back gives the same layout. |
| Types.IsImageCases | src/pages/CreatePages.tsx:64 | Every `image/...` MIME type counts as an image, whatever its subtype. The test is case-sensitive and needs the slash: `Image/png`, `image` and `video/mp4` are not images. |
| Types.Ids | src/components/PageEditorSidebar.tsx:22-24 | The id list has one entry per photo, in order, and entry i is the id of photo i. |
| Layouts.Options | src/components/LayoutModal.tsx:10-67 | Every variant offered for a count is a known variant that draws exactly that many photos. |
| Layouts.ListedUnderItsCount | src/components/LayoutModal.tsx:10-67 | A variant is offered under count n exactly when n is the number of photos it draws. So each of the eight variants is listed under exactly one count. |
| Layouts.OptionsEmptyOutsideOneToFour | src/components/LayoutModal.tsx:86 | The option list is empty exactly when the count is outside 1..4. |
| Layouts.OptionsDistinct | src/components/LayoutModal.tsx:10-67 | No variant appears twice in the option list of one count. |
| Layouts.GridAreas | src/components/PhotoPageEditor.tsx:131-172 | A layout outside the union gets no areas, and only such a layout does. Every area a variant names is `photo1`..`photoN`, N being its photo count. Every track size is at least 1fr. |
| Layouts.AreasNameTheSlots | src/components/PhotoPageEditor.tsx:131-172 | Each variant's area template names exactly `photo1`..`photoN`, N being its photo count. An unknown layout names none. |
| Layouts.GridIsRectangular | src/components/PhotoPageEditor.tsx:131-172 | For every known variant, the template has one area row per row track, and every row has one entry per column track. |
| Layouts.ThreeSplitTwoToOne | src/components/PhotoPageEditor.tsx:139-162 | Each three-photo variant splits one axis 2fr:1fr or 1fr:2fr and divides the other axis evenly. |
| Layouts.PickerGridAreas | src/components/LayoutModal.tsx:89-130 | The pickers draw the same areas as the editors. They set no track sizes for the one- and two-photo variants, and otherwise use the editors' geometry. |
| Layouts.PreviewCells | src/components/PhotoPageEditor.tsx:184-188 | There is one cell per photo. Cell k is placed in area `photo{k+1}`. It shows preview k exactly when that preview exists and is non-empty, and otherwise shows the placeholder. |
| Layouts.CellsFillTheGrid | src/components/PhotoPageEditor.tsx:184-188 | When the photo count matches the variant, the preview cells (cell k in `photo{k+1}`) occupy exactly the areas of the grid. |
| Layouts.ExtraCellsHaveNoArea | src/components/PhotoPageEditor.tsx:184-188 | A preview cell beyond the variant's photo count names an area that the grid does not have. |
| Layouts.OptionTiles | src/components/LayoutModal.tsx:195-196 | There is one tile per option, in table order, and a tile is marked exactly when its variant equals the selected layout. |
| Layouts.ModalView | src/components/LayoutModal.tsx:158-196 | The modal renders nothing exactly when it is closed. It renders the placeholder exactly when it is open and the count is outside 1..4. Otherwise it renders the non-empty tiles. |
| Layouts.SelectorView | src/components/PhotoLayoutSelector.tsx:154-174 | The selector always renders something: the placeholder exactly when the count is outside 1..4, else the non-empty tiles. |
| Layouts.AtMostOneMarked | src/components/PhotoLayoutSelector.tsx:174 | No two tiles carry the selected marker. |
| Layouts.MarkedIffOffered | src/components/PhotoLayoutSelector.tsx:174 | Some tile is marked exactly when the selected layout is a known variant that draws as many photos as the page has, i.e. when it is offered. |
| Layouts.ModalClick | src/components/LayoutModal.tsx:160-163 | Clicking tile i calls `onSelect` with that tile's variant and then `onClose`. The chosen variant fits the photo count. |
| Layouts.SelectorClick | src/components/PhotoLayoutSelector.tsx:178 | Clicking tile i calls `onSelect` with exactly that tile's variant, which fits the photo count. |
| PageEditor.DefaultLayout | src/components/PageEditorSidebar.tsx:104-109 | For 1..4 photos, the default layout is one the pickers offer for that count. For any other count, 0 included, it is `four-grid`. |
| PageEditor.DefaultIsFirstOption | src/components/PageEditorSidebar.tsx:104-109 | For 1..4 photos, the default layout is the first option the pickers list. Any other count, 0 included, gives `four-grid`, which is then not an option. |
| PageEditor.PagePhotos | src/components/PageEditorSidebar.tsx:95 | The emitted photos are exactly the pool photos whose id is selected, as a subsequence of the pool (pool order). |
| PageEditor.AvailablePhotos | src/components/PageEditorSidebar.tsx:39-41 | The available photos are exactly the pool photos whose id is not selected, in pool order. |
| PageEditor.PoolSplits | src/components/PageEditorSidebar.tsx:39-41 | The selected photos and the available photos together are the pool, as multisets. |
| PageEditor.PagePhotosCount | src/components/PageEditorSidebar.tsx:95 | With distinct pool ids, the emitted page has one photo per selected id that occurs in the pool. Repeated ids and unknown ids add nothing. |
| PageEditor.EmittedCountIsSelectionCount | src/components/PageEditorSidebar.tsx:90-102 | In a consistent state, the emitted page has exactly as many photos as there are selected ids. Consistent means: distinct pool ids, and distinct selected ids that all come from the pool. |
| PageEditor.BuildPage | src/components/PageEditorSidebar.tsx:90-102 | The emitted page keeps the page's id. It takes the given layout and note, and its photos are the pool filtered by the selection. |
| PageEditor.AddKeepsConsistent | src/components/PageEditorSidebar.tsx:65-70 | Below four photos, adding an available photo's id keeps the state consistent. |
| PageEditor.RemoveKeepsConsistent | src/components/PageEditorSidebar.tsx:72-78 | Removing an id keeps the state consistent. |
| PageEditor.RemovalEmitsFittingLayout | src/components/PageEditorSidebar.tsx:72-78 | After a removal from a consistent state, the emitted page's layout is the default for its photo count. For 1..4 photos, that layout is one the pickers offer for the count. |
| PageEditor.AddKeepsStaleLayout | src/components/PageEditorSidebar.tsx:65-70 | Adding a second photo to a `single` page emits a two-photo page that still has the `single` layout, which the pickers do not offer for two photos. |
| PageEditor.EmittedInPoolOrder | src/components/PageEditorSidebar.tsx:95 | Selecting b then a emits [a, b] when the pool is [a, b]: the order comes from the pool, not the selection. |
| PageEditor.Resyncs | src/components/PageEditorSidebar.tsx:32-37 | The sidebar re-syncs exactly when the incoming page differs from the previous one. The page card (`PhotoPageEditor.tsx:36-47`) re-syncs exactly when the id changes. Either re-syncs on a new id, and never on an identical page. |
| PageEditor.Editor.constructor | src/components/PageEditorSidebar.tsx:22-26 | The state starts as the page's photo ids, layout and note. |
| PageEditor.Editor.Available | src/components/PageEditorSidebar.tsx:39-41 | The photos offered are exactly the pool photos whose id is not selected. |
| PageEditor.Editor.AddPhoto | src/components/PageEditorSidebar.tsx:65-70 | At four or more ids, adding does nothing and emits nothing. Otherwise the id is appended and the page is emitted with the layout and note unchanged (`PhotoPageEditor.tsx:81-86` is identical). Adding an available photo keeps a consistent state consistent. |
| PageEditor.Editor.RemovePhoto | src/components/PageEditorSidebar.tsx:72-78 | Every occurrence of the id leaves the selection, the layout becomes the default for the new count, and the rebuilt page is emitted. A consistent state stays consistent and emits one photo per id. |
| PageEditor.Editor.ChangeLayout | src/components/PageEditorSidebar.tsx:80-83 | Only the layout changes, to any variant, unchecked. The page is emitted with it. |
| PageEditor.Editor.ChangeNote | src/components/PageEditorSidebar.tsx:85-88 | Only the note changes, and the page is emitted with it. |
| PageEditor.Editor.ReceiveProps | src/components/PageEditorSidebar.tsx:32-37 | New props reset the selection, layout and note from the page exactly when the effect fires. The sidebar fires on a change of id, photos, layout or note. The page card fires only on a change of id (`PhotoPageEditor.tsx:36-47`). Otherwise the state is kept. |
| PageList.FindPage | src/pages/CreatePages.tsx:85 | No page is found exactly when no page has the id. Otherwise the result is the first page with that id. |
| PageList.ReplaceById | src/pages/UploadPhotos.tsx:81-87 | Same length and positions. Every page with the updated page's id becomes the updated page, and every other page is unchanged. |
| PageList.ReplaceKeepsIds | src/pages/UploadPhotos.tsx:82-84 | Replacing by id leaves the list of page ids unchanged. |
| PageList.RemoveById | src/pages/UploadPhotos.tsx:89-93 | The result holds exactly the pages whose id differs, as a subsequence (order kept), and no page with that id remains. |
| PageList.RemoveKeepsOtherIds | src/pages/CreatePages.tsx:161 | A page id other than the removed one is still present after the removal. |
| Staging.NewPhotos | src/pages/CreatePages.tsx:62-75 | There are as many new photos as image files, and never more than files. Each has an image file from the list, an id drawn for one of the files, an empty note and url, and a prompt from the prompt list. |
| Staging.NewPhotosComplete | src/pages/CreatePages.tsx:62-75 | No image file is skipped: the photo staged for the image file at position j, with the draws for j, is among the new photos. |
| Staging.NewPhotosPrefix | src/pages/CreatePages.tsx:62-75 | The photos staged for the first n files are a prefix of those staged for all files: later files only append. |
| Staging.CollectImages | src/pages/CreatePages.tsx:62-75 | The `forEach` push loop produces exactly `NewPhotos` of the files. |
| Staging.NewPhotosDistinct | src/pages/CreatePages.tsx:65 | Distinct id draws give the new photos distinct ids. |
| Staging.DropPhoto | src/components/PhotoUploader.tsx:60-66 | The result holds exactly the photos whose id differs, as a subsequence (order kept), and none with that id. |
| Staging.DropPhotoCount | src/pages/Contribute.tsx:95-101 | With distinct ids, removal shortens the list by one exactly when the id is present, and otherwise leaves its length. |
| Storage.StorePhotos | src/pages/CreatePages.tsx:108-113 | One stored photo per photo, in order: id, preview, note and prompt, with no file. |
| Storage.StorePages | src/pages/CreatePages.tsx:179-189 | One stored page per page, in order: id, stored photos, layout name and note. |
| Storage.LoadPhotos | src/pages/CreatePages.tsx:35-37 | One photo per stored photo, in order, with no file and no url. |
| Storage.LoadPages | src/pages/CreatePages.tsx:32-34 | One page per stored page, in order. |
| Storage.SavePages | src/pages/CreatePages.tsx:175-192 | Without a record nothing is written. With one, only its pages are replaced. |
| Storage.SavePhotos | src/pages/CreatePages.tsx:104-116 | Without a record nothing is written. With one, only its photo pool is replaced. |
| Storage.RoundTripPages | src/pages/CreatePages.tsx:175-192 | Stored pages read back as the same pages, in order, minus each photo's file and url. |
| Storage.RoundTripStoredPages | src/pages/CreatePages.tsx:175-192 | Pages whose photos have no file and no url read back exactly. |
| Storage.RoundTripPhotos | src/pages/CreatePages.tsx:104-116 | A stored pool reads back as the pool without files and urls. |
| CreatePages.FindPhoto | src/pages/CreatePages.tsx:140 | No photo is found exactly when no pool photo has the id. Otherwise the result is the first pool photo with it. |
| CreatePages.Rehydrate | src/pages/CreatePages.tsx:137-142 | Every resulting photo is from the pool. The ids form a subsequence of the page's ids, an id occurs in the result exactly when it occurs in the page and the pool knows it, and all ids are kept when the pool knows them all. |
| CreatePages.RehydrateCounts | src/pages/CreatePages.tsx:137-142 | Each id the pool knows occurs as often in the result as in the page, and an id the pool does not know never occurs. |
| CreatePages.RehydrateFinds | src/pages/CreatePages.tsx:140 | Each resulting photo is exactly what `find` returns for its id: the pool's first photo with that id. |
| CreatePages.RehydrateFromPool | src/pages/CreatePages.tsx:135-142 | With distinct pool ids, a page whose photos come from the pool is rehydrated to itself. |
| CreatePages.AddedTo | src/pages/CreatePages.tsx:86-92 | The uploading page keeps its id, layout, note and existing photos as a prefix. |
| CreatePages.AutoAdd | src/pages/CreatePages.tsx:82-100 | The pages change exactly when a page id is given, a photo was added, and that page exists with fewer than four photos. Then only pages with that id change, and the page ids stay the same. |
| CreatePages.AddedToFresh | src/pages/CreatePages.tsx:86-92 | With fresh ids, the page receives exactly the first `4 - count` new photos, in order, and ends with `min(4, count + new)` photos. |
| CreatePages.StoredRoundTrip | src/pages/CreatePages.tsx:24-55 | The pages and pool loaded from a record store back as that record's pages and pool. |
| CreatePages.BookEditor.constructor | src/pages/CreatePages.tsx:24-55 | With no record, it redirects and loads nothing. Otherwise it loads the book, pool and pages and selects the first page. A record without pages gets one empty `single` page, which is selected and stored. The record mirrors the state and the selection is valid. |
| CreatePages.BookEditor.UploadFiles | src/pages/CreatePages.tsx:59-102 | Without files, nothing changes. Otherwise the image files' photos are appended to the pool, the pool is stored, and the pages follow `AutoAdd`. When the pages change they are stored too. A record that mirrored the state still does, and a valid selection stays valid. |
| CreatePages.BookEditor.AddPage | src/pages/CreatePages.tsx:118-129 | An empty `single` page is appended and made current, and the pages are stored. |
| CreatePages.BookEditor.SelectPage | src/pages/CreatePages.tsx:131-133 | Only the current page id changes. |
| CreatePages.BookEditor.UpdatePage | src/pages/CreatePages.tsx:135-151 | The page with the emitted id is replaced by it, with its photos rehydrated from the pool. Page ids and the selection are kept, and the pages are stored. |
| CreatePages.BookEditor.SyncCurrentPage | src/pages/CreatePages.tsx:154-158 | When there are pages and the selected id is empty or names no page, the first page is selected. A non-empty valid selection is kept, and with no pages nothing changes. Afterwards the selection is valid. |
| CreatePages.BookEditor.RemovePage | src/pages/CreatePages.tsx:160-173 | The pages with that id are removed, order kept, and the rest are stored. If the removed page was current, the first remaining page (or `""`) becomes current; otherwise the selection is kept. |
| UploadPhotos.UsedIds | src/pages/UploadPhotos.tsx:60-62 | An id is used exactly when some page holds a photo with it. |
| UploadPhotos.Unused | src/pages/UploadPhotos.tsx:122-125 | The unused photos are exactly the pool photos whose id no page uses. |
| UploadPhotos.FirstUnused | src/pages/UploadPhotos.tsx:63 | No photo is found exactly when every photo is used. Otherwise the result is the first unused photo in pool order. |
| UploadPhotos.UploadFlow.UnusedCount | src/pages/UploadPhotos.tsx:122-125 | The unused count is at most the number of photos. It is zero exactly when every photo's id is used by some page. |
| UploadPhotos.UsingShrinks | src/pages/UploadPhotos.tsx:59-79 | Marking an available photo as used strictly lowers the number of unused photos. |
| UploadPhotos.UploadFlow.constructor | src/pages/UploadPhotos.tsx:13-24 | The stored pool and pages are loaded when a record exists, and the flow starts at the upload step. |
| UploadPhotos.UploadFlow.PhotosChange | src/pages/UploadPhotos.tsx:26-39 | The new pool replaces the pool and is stored. |
| UploadPhotos.UploadFlow.Continue | src/pages/UploadPhotos.tsx:41-57 | It is refused exactly when there are no photos. Otherwise it moves to the page step; if there are no pages, it first creates one `single` page holding the first photo, without storing it. |
| UploadPhotos.UploadFlow.AddPage | src/pages/UploadPhotos.tsx:59-79 | It succeeds exactly when some photo is unused. It then appends a `single` page holding the first unused photo, stores the pages, and strictly lowers the unused count. Otherwise nothing changes. |
| UploadPhotos.UploadFlow.UpdatePage | src/pages/UploadPhotos.tsx:81-87 | The page with the emitted id is replaced, positions and ids kept, and the pages are stored. |
| UploadPhotos.UploadFlow.RemovePage | src/pages/UploadPhotos.tsx:89-93 | The pages with that id are removed, order kept, and the rest are stored. |
| UploadPhotos.UploadFlow.Finish | src/pages/UploadPhotos.tsx:114-120 | It is refused exactly when there are no pages. Otherwise it goes to the preview. |
| PhotoUtils.ApiBase | src/utils/photoUtils.ts:11 | The configured base when one is set, else `http://localhost:3000/api`. Never empty. |
| PhotoUtils.PreviewUrl | src/utils/photoUtils.ts:12-16 | The preview always ends with the server url. An `http` url is kept. Any other url that starts with `/` becomes the base followed by the url. Every remaining url becomes the base, then `/images/`, then the url. |
| PhotoUtils.PreviewUnchangedIffHttp | src/utils/photoUtils.ts:12-16 | With a non-empty base, the preview equals the server url exactly when the url starts with `http`. |
| PhotoUtils.ToPhoto | src/utils/photoUtils.ts:8-25 | Id, url, note and prompt are copied. There is no file, and the preview is derived from the url. |
| PhotoUtils.ToPage | src/utils/photoUtils.ts:30-39 | Id and note are kept, the layout string is read as a layout, and the photos are converted one-to-one in order. |
| PhotoUtils.FromPhoto | src/utils/photoUtils.ts:45-73 | It fails with "not uploaded" exactly when the photo has a file, and with "blob preview" exactly when it has none and the preview starts with `blob:`. On success, id, note and prompt are kept, and the url is the photo's url (or its preview when the url is empty) with a leading API base removed. |
| PhotoUtils.FromPhotos | src/utils/photoUtils.ts:83 | A successful conversion gives one converted photo per photo. |
| PhotoUtils.FromPhotosAll | src/utils/photoUtils.ts:83 | Converting a page's photos succeeds exactly when every photo converts, and then gives the converted photos one-to-one, in order. |
| PhotoUtils.FromPhotosFirstError | src/utils/photoUtils.ts:83 | A failed conversion fails with the error of the first photo that does not convert. |
| PhotoUtils.FromPage | src/utils/photoUtils.ts:78-87 | It succeeds exactly when its photos convert, keeping id and note and writing the layout's name. Otherwise it fails with the photos' error. |
| PhotoUtils.PhotoRoundTrip | src/utils/photoUtils.ts:8-73 | A server photo whose url is non-empty and does not start with the API base converts back to itself. The base must not start with `blob:`. |
| PhotoUtils.PageRoundTrip | src/utils/photoUtils.ts:30-87 | A server page whose photos all round-trip converts back to itself, whatever its layout string, since the layout is only cast. |
| PhotoUtils.EmptyUrlComesBackAsImagesDir | src/utils/photoUtils.ts:12-16 | A server photo with an empty url does not round-trip: it comes back with the url `/images/`. |
| PhotoUploader.MaxPhotos | src/components/PhotoUploader.tsx:16 | The given cap, or 20 when none is given. |
| PhotoUploader.CanAddMore | src/components/PhotoUploader.tsx:68 | The upload area is shown exactly when a further selection of one file would have that file examined, i.e. when there is room below the cap. |
| PhotoUploader.Examined | src/components/PhotoUploader.tsx:26-28 | The examined files are a prefix of the selection. While there is room, they are the first `min(files, maxPhotos - photos)` files. |
| PhotoUploader.HandleFileSelect | src/components/PhotoUploader.tsx:22-43 | Without files, nothing is emitted. Otherwise the existing photos are emitted unchanged, followed by the new photos of the examined files. |
| PhotoUploader.UploadStaysWithinCap | src/components/PhotoUploader.tsx:26-42 | Starting at or below the cap, an upload never goes over it. |
| PhotoUploader.NonImageTakesTheLastPlace | src/components/PhotoUploader.tsx:28-29 | With one place left, a non-image file followed by an image adds nothing: the non-image file used up the slot. |
| PhotoUploader.RoomForAll | src/components/PhotoUploader.tsx:26-29 | With room for every file, all files are examined and every image file becomes a photo. |
| Contribute.Files | src/pages/Contribute.tsx:119 | The files are those of the photos that have one, in photo order. When every photo has a file, there is exactly one per photo. |
| Contribute.BuildSubmission | src/pages/Contribute.tsx:119-123 | The book id, the files, and the notes and prompts one per photo, in photo order. |
| Contribute.SubmissionAligned | src/pages/Contribute.tsx:119-121 | When every photo has its file, the three lists have the photo count, and entry i of each belongs to photo i. |
| Contribute.SetNote | src/pages/Contribute.tsx:103-107 | Same length and ids. The photos with the id get the note, and the others are unchanged. |
| Contribute.SetNoteOnlyNotes | src/pages/Contribute.tsx:103-107 | Editing a note changes nothing of a photo but its note, and nothing at all for a photo with another id. |
| Contribute.ContributeForm.constructor | src/pages/Contribute.tsx:28-55 | Without an id, it goes home. Otherwise it holds the looked-up book, or the server's message (or the fallback) when the lookup fails. |
| Contribute.ContributeForm.HandleFileSelect | src/pages/Contribute.tsx:59-78 | The new photos of the first `10 - photos` files are appended, and the form stays within ten photos, each with a file. |
| Contribute.ContributeForm.RemovePhoto | src/pages/Contribute.tsx:95-101 | The photos with the id leave the list, order kept. |
| Contribute.ContributeForm.UpdatePhotoNote | src/pages/Contribute.tsx:103-107 | Only the note of the photos with the id changes. |
| Contribute.ContributeForm.Submit | src/pages/Contribute.tsx:109-132 | No request is made exactly when there are no photos or no book. Otherwise the aligned submission is sent; success marks the form submitted, and failure records the message (or the fallback). |
| MemoryGallery.CardSizeOf | src/components/MemoryGallery.tsx:22-29 | Large exactly when there are 3+ photos or the note is over 150 characters. Medium exactly when, failing that, there are 2 photos or the note is over 50 characters. Otherwise small. |
| MemoryGallery.SizeMonotone | src/components/MemoryGallery.tsx:22-29 | More photos and a longer note never give a smaller card. |
| MemoryGallery.Truncate | src/components/MemoryGallery.tsx:139-143 | Empty text stays empty, and text within the limit is kept. Longer text becomes its first `limit` characters (0 for a negative limit) followed by `...`. |
| MemoryGallery.TruncateIdempotent | src/components/MemoryGallery.tsx:139-143 | Truncating twice gives the same text as truncating once. |
| MemoryGallery.PhotoSlots | src/components/MemoryGallery.tsx:119-120 | At most the first four photos are shown, and photo i goes in area `photo{i+1}` with its preview. |
| MemoryGallery.SlotsFillTheGrid | src/components/MemoryGallery.tsx:115-120 | When a page holds as many photos as its layout draws, the slots occupy exactly the grid's areas. |
| MemoryGallery.RenderPhotoLayout | src/components/MemoryGallery.tsx:31-120 | The placeholder is shown exactly when there are no photos. Otherwise the layout's grid holds the slots, and an unknown layout gets the base style only (an empty geometry). |
| MemoryGallery.HasNote | src/components/MemoryGallery.tsx:207 | A page has a note exactly when its note is not blank (not made only of whitespace). |
| MemoryGallery.CardOf | src/components/MemoryGallery.tsx:205-299 | A text-only card shows the page's note uncut. A photo card has the computed size. It draws the photo layout exactly when there are photos, and shows the note cut to 120 characters exactly when the note is not blank. |
| MemoryGallery.TextOnlyIff | src/components/MemoryGallery.tsx:206-216 | A card is text-only exactly when the page has no photos and its note is not blank. |
| MemoryGallery.PlaceholderNeverShown | src/components/MemoryGallery.tsx:277-279 | A card's photo area is always a grid, never the no-photos placeholder. |
| MyMemoryBooks.Thumbnail | src/pages/MyMemoryBooks.tsx:88-96 | There is a thumbnail exactly when there are pages and the first page has a photo. It is that photo's url. |
| MyMemoryBooks.ThumbnailIgnoresLaterPages | src/pages/MyMemoryBooks.tsx:88-96 | Books that agree on their first page get the same thumbnail, whatever their later pages. |
| MyMemoryBooks.PageCount | src/pages/MyMemoryBooks.tsx:141 | The number of pages, 0 when they are absent. |
| MyMemoryBooks.SumPhotosBounds | src/pages/MyMemoryBooks.tsx:142 | The photo total is at least the first page's count, and it is zero exactly when no page has a photo. |
| MyMemoryBooks.PhotoCount | src/pages/MyMemoryBooks.tsx:142 | The sum of the pages' photo counts, 0 when the pages are absent. |
| MyMemoryBooks.ThumbnailMeansPhotos | src/pages/MyMemoryBooks.tsx:141-143 | A book with a thumbnail shows a photo count of at least one. |
| MyMemoryBooks.IsLeader | src/pages/MyMemoryBooks.tsx:296 | Every card on the own-books tab is a leader card. On the other tab, exactly the cards whose flag is `true` are. |
| MyMemoryBooks.CurrentBooks | src/pages/MyMemoryBooks.tsx:190 | The own books on the own-books tab, the contributed books otherwise. |
| MyMemoryBooks.CreateName | src/pages/MyMemoryBooks.tsx:58-65 | No name is sent exactly when the input is blank. Otherwise the trimmed name is sent, which is non-empty and has no whitespace at either end. |
| MyMemoryBooks.CreateNameStable | src/pages/MyMemoryBooks.tsx:65 | A name that was sent is accepted again unchanged. |
| MyMemoryBooks.ErrorMessage | src/pages/MyMemoryBooks.tsx:81 | The create error shown is the server's message, or the fallback text when that message is empty. It is never empty. |
| MyMemoryBooks.BookList.constructor | src/pages/MyMemoryBooks.tsx:24-44 | The load gives both lists, or empty lists and the server's message (or the fallback). |
| MyMemoryBooks.BookList.SubmitCreate | src/pages/MyMemoryBooks.tsx:56-86 | A blank name sends nothing and changes nothing, the error message included. Otherwise the trimmed name is sent with the default type. On success the lists are reloaded, the form is cleared and the new book is opened. A failure keeps the lists and the name and records the message (or the fallback). |
| MyMemoryBooks.BookList.ReceiveCreated | src/pages/MyMemoryBooks.tsx:61-82 | The error is cleared first. A failed creation or reload records its message and leaves the lists, the name and the opened book. A success replaces both lists, clears the name and opens the new book. |

## Left out

- Network, storage and browser objects are not modelled. The API client (`fetch`, `FormData`), `localStorage`, JSON and `URL.createObjectURL` are outside the model. Their results are parameters: the stored record, API outcomes as `Result` values, and fresh ids, prompt picks and preview URLs from `Staging.Draws`.
- `URL.revokeObjectURL` in the uploaders' `removePhoto` is left out: it releases a browser object and changes no state the model holds.
- Authentication, routing and the book-id context (`setMemoryBookId`) are left out; a navigation is recorded only as a flag or the id opened.
- React timing is simplified. Batching and effect scheduling become sequential method calls, and object identity becomes value equality. `PageEditor.Editor.ReceiveProps` thus re-syncs when the sidebar's page changes in value, whereas React compares references.
- Loading and submitting flags, drag state, hover state and modal visibility in the pages are presentation only and are left out.
- Share links (`ShareModal.tsx`), the page navigation bar, the prompt note, the templates and the single-page preview are left out. They are JSX; the geometry tables they repeat are modelled once in `Layouts`.
- Note length limits (500 and 200 characters) are enforced only by text fields' `maxLength`, not by any handler, so they are not modelled.
- String lengths are counted in characters, whereas JavaScript counts UTF-16 code units. This matters for `getCardSize`, `truncateText` and `trim` only on text outside the Basic Multilingual Plane.
- The `|| ''` fallbacks for a missing note or prompt in `photoToPhotoResponse`, and `photos?.length || 0` for a missing photo list, are not modelled. The model's notes, prompts, urls and photo lists are always present, so those fallbacks never apply.
- The book list's other API fields (creation date, totals) and its list tabs' empty-state texts are presentation and are left out.
- `PageEditor.Editor.AddPhoto`: the id added is not checked against the pool or the current selection (the source does not check either). Consistency is promised only when the id is an available photo's.
- `UploadPhotos.UploadFlow.Continue` does not store the page it creates, as in the source; the model keeps that.
- Two editor members have one row each. The sidebar (`PageEditorSidebar.tsx`) and the page card (`PhotoPageEditor.tsx`) share one `Editor` class, distinguished only by `EditorKind` for their sync effects. Their handlers are line for line the same.
