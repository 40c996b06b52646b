/** The gallery of a book's pages (MemoryGallery): one card per page, sized
    by its content, showing its photos in the page's layout grid and a
    shortened note, or a text-only card for a page with a note and no
    photos. */
module MemoryGallery {
  import opened Common
  import opened Types
  import opened Layouts

  datatype CardSize = Small | Medium | Large

  /** The sizes in increasing order. */
  function Rank(s: CardSize): nat
  {
    match s
    case Small => 0
    case Medium => 1
    case Large => 2
  }

  /** `getCardSize`: large from three photos or a note over 150 characters,
      else medium for exactly two photos or a note over 50, else small. */
  function CardSizeOf(page: Page): (s: CardSize)
    ensures s == Large <==> |page.photos| >= 3 || |page.note| > 150
    ensures s == Medium <==> |page.photos| < 3 && |page.note| <= 150 && (|page.photos| == 2 || |page.note| > 50)
  {
    if |page.photos| >= 3 || |page.note| > 150 then Large
    else if |page.photos| == 2 || |page.note| > 50 then Medium
    else Small
  }

  /** More photos or a longer note never give a smaller card. */
  lemma {:induction false} SizeMonotone(a: Page, b: Page)
    requires |a.photos| <= |b.photos| && |a.note| <= |b.note|
    ensures Rank(CardSizeOf(a)) <= Rank(CardSizeOf(b))
  {
    if CardSizeOf(a) == Medium && |a.photos| == 2 && |b.photos| > 2 {
      assert CardSizeOf(b) == Large;
    }
  }

  /** `truncateText`: the empty text stays empty, a text within the limit is
      kept, a longer one is cut to the limit and marked with `...`
      (`substring` treats a negative limit as 0). */
  function Truncate(text: string, max: int): (r: string)
    ensures text == [] ==> r == []
    ensures text != [] && |text| <= max ==> r == text
    ensures text != [] && |text| > max ==> var k := if max < 0 then 0 else max;
      |r| == k + 3 && r[..k] == text[..k] && r[k..] == "..."
  {
    if text == [] then []
    else if |text| <= max then text
    else text[..if max < 0 then 0 else max] + "..."
  }

  /** Truncating twice gives the same as truncating once. */
  lemma TruncateIdempotent(text: string, max: int)
    ensures Truncate(Truncate(text, max), max) == Truncate(text, max)
  {
    if text != [] && |text| > max {
      var k := if max < 0 then 0 else max;
      var once := Truncate(text, max);
      assert once[..k] == text[..k];
    }
  }

  /** One photo of a card's grid: the area it is placed in (`photo{i+1}`)
      and its image, the photo's preview. */
  function PhotoSlots(photos: seq<Photo>): (r: seq<Cell>)
    ensures |r| == if |photos| < 4 then |photos| else 4
    ensures forall i :: 0 <= i < |r| ==> r[i].area == i + 1 && r[i].image == Some(photos[i].preview)
  {
    var shown := if |photos| < 4 then photos else photos[..4];
    seq(|shown|, i requires 0 <= i < |shown| => Cell(i + 1, Some(shown[i].preview)))
  }

  /** When a page holds as many photos as its layout draws, every photo
      lands in an area of the grid and every area receives a photo. */
  lemma SlotsFillTheGrid(page: Page)
    requires |page.photos| == SlotCount(page.layout)
    ensures CellAreas(PhotoSlots(page.photos)) == AreaNames(GridAreas(page.layout))
  {
    var slots := PhotoSlots(page.photos);
    var previews := seq(|page.photos|, i requires 0 <= i < |page.photos| => page.photos[i].preview);
    var cells := PreviewCells(SlotCount(page.layout), previews);
    CellsFillTheGrid(page.layout, previews);
    assert CellAreas(slots) == CellAreas(cells) by {
      forall k ensures k in CellAreas(slots) <==> k in CellAreas(cells) {
        if k in CellAreas(cells) {
          var i :| 0 <= i < |cells| && cells[i].area == k;
          assert slots[i].area == k;
        }
        if k in CellAreas(slots) {
          var i :| 0 <= i < |slots| && slots[i].area == k;
          assert cells[i].area == k;
        }
      }
    }
  }

  /** `renderPhotoLayout`: a placeholder for a page without photos, else the
      grid of the page's layout (a layout outside the union gets the base
      style only, an empty geometry) holding the first four photos. */
  datatype PhotoView = NoPhotos | Grid(geometry: Geometry, slots: seq<Cell>)

  function RenderPhotoLayout(page: Page): (v: PhotoView)
    ensures v.NoPhotos? <==> page.photos == []
    ensures v.Grid? ==> v.geometry == GridAreas(page.layout) && v.slots == PhotoSlots(page.photos)
    ensures v.Grid? && page.layout.Other? ==> v.geometry == Geometry([], [], [])
  {
    if page.photos == [] then NoPhotos else Grid(GridAreas(page.layout), PhotoSlots(page.photos))
  }

  /** `page.note && page.note.trim().length > 0`. */
  predicate HasNote(note: string)
    ensures HasNote(note) <==> !IsBlank(note)
  {
    TrimEmptyIffBlank(note);
    note != [] && |Trim(note)| > 0
  }

  /** A page's card: text only, or a card of some size with its photo area
      (shown when there are photos) and its note cut to 120 characters
      (shown when there is a note). */
  datatype Card =
    | TextOnly(note: string)
    | PhotoCard(size: CardSize, photos: Option<PhotoView>, text: Option<string>)

  const NoteLimit: int := 120

  function CardOf(page: Page): (c: Card)
    ensures c.PhotoCard? ==> c.size == CardSizeOf(page)
    ensures c.PhotoCard? ==> (c.photos.Some? <==> page.photos != [])
    ensures c.PhotoCard? && c.photos.Some? ==> c.photos.value == RenderPhotoLayout(page)
    ensures c.PhotoCard? ==> (c.text.Some? <==> HasNote(page.note))
    ensures c.PhotoCard? && c.text.Some? ==> c.text.value == Truncate(page.note, NoteLimit)
    ensures c.TextOnly? ==> c.note == page.note
  {
    var hasPhotos := |page.photos| > 0;
    var hasNote := HasNote(page.note);
    if !hasPhotos && hasNote then TextOnly(page.note)
    else PhotoCard(CardSizeOf(page),
      if hasPhotos then Some(RenderPhotoLayout(page)) else None,
      if hasNote then Some(Truncate(page.note, NoteLimit)) else None)
  }

  /** The text-only card is used exactly for a page without photos whose
      note is not blank. */
  lemma TextOnlyIff(page: Page)
    ensures CardOf(page).TextOnly? <==> page.photos == [] && !IsBlank(page.note)
  {
    TrimEmptyIffBlank(page.note);
  }

  /** A card never shows the no-photos placeholder: the photo area is only
      drawn for a page that has photos. */
  lemma PlaceholderNeverShown(page: Page)
    ensures CardOf(page).PhotoCard? && CardOf(page).photos.Some? ==> CardOf(page).photos.value.Grid?
  {
  }
}
