/** The layout catalogue: which variants the pickers offer for a photo
    count (LAYOUT_OPTIONS in LayoutModal and PhotoLayoutSelector), the CSS
    grid each variant draws (the editors' and the gallery's table, and the
    pickers' thumbnail table), the preview cells, and what the two pickers
    show and emit. */
module Layouts {
  import opened Common
  import opened Types

  /** `LAYOUT_OPTIONS[photoCount] || []`, in the table's order. */
  function Options(count: int): (r: seq<Layout>)
    ensures forall i :: 0 <= i < |r| ==> !r[i].Other? && SlotCount(r[i]) == count
  {
    if count == 1 then [Single]
    else if count == 2 then [TwoHorizontal, TwoVertical]
    else if count == 3 then [ThreeLeft, ThreeRight, ThreeTop, ThreeBottom]
    else if count == 4 then [FourGrid]
    else []
  }

  /** The number of photos a variant is drawn for, read off its name
      (0 for a name outside the union). */
  function SlotCount(l: Layout): nat
  {
    match l
    case Single => 1
    case TwoHorizontal | TwoVertical => 2
    case ThreeLeft | ThreeRight | ThreeTop | ThreeBottom => 3
    case FourGrid => 4
    case Other(_) => 0
  }

  /** Every variant is offered under exactly one count, the one its name
      is drawn for, and a name outside the union under none. */
  lemma ListedUnderItsCount(l: Layout, n: int)
    ensures l in Options(n) <==> (!l.Other? && n == SlotCount(l))
  {
  }

  /** The pickers show a placeholder instead of options exactly when the
      count is outside 1..4. */
  lemma OptionsEmptyOutsideOneToFour(n: int)
    ensures Options(n) == [] <==> !(1 <= n <= 4)
  {
  }

  /** No variant is listed twice under the same count. */
  lemma OptionsDistinct(n: int)
    ensures forall i, j :: 0 <= i < j < |Options(n)| ==> Options(n)[i] != Options(n)[j]
  {
  }

  /** A CSS grid: `areas[r][c] == k` names the cell `photo{k}`
      (gridTemplateAreas), `columns` and `rows` are the track sizes in `fr`
      units (gridTemplateColumns and gridTemplateRows); an empty track list
      stands for a property that is not set. */
  datatype Geometry = Geometry(areas: seq<seq<nat>>, columns: seq<nat>, rows: seq<nat>)

  /** The rows of an area template read left to right, top to bottom. */
  function Flatten(areas: seq<seq<nat>>): seq<nat>
  {
    if areas == [] then [] else areas[0] + Flatten(areas[1..])
  }

  /** The area indices a grid names. */
  function AreaNames(g: Geometry): set<nat>
  {
    set k | k in Flatten(g.areas)
  }

  /** The indices 1..n. */
  function Slots(n: nat): set<nat>
  {
    if n == 0 then {} else Slots(n - 1) + {n}
  }

  /** Slots(n) is the range 1..n. */
  lemma {:induction false} SlotsAreOneToN(n: nat)
    ensures forall k :: k in Slots(n) <==> 1 <= k <= n
  {
    if n > 0 {
      SlotsAreOneToN(n - 1);
    }
  }

  /** The editors' `getGridAreas` (PhotoPageEditor, PageEditorSidebar) and the
      gallery's `getGridStyle` (on top of its base style): every variant sets
      areas and both track lists; any other layout string sets nothing. */
  function GridAreas(l: Layout): (g: Geometry)
    ensures l.Other? <==> g.areas == []
    ensures forall i, j :: 0 <= i < |g.areas| && 0 <= j < |g.areas[i]| ==> 1 <= g.areas[i][j] <= SlotCount(l)
    ensures forall t :: t in g.columns || t in g.rows ==> t >= 1
  {
    match l
    case Single => Geometry([[1]], [1], [1])
    case TwoHorizontal => Geometry([[1, 2]], [1, 1], [1])
    case TwoVertical => Geometry([[1], [2]], [1], [1, 1])
    case ThreeLeft => Geometry([[1, 2], [1, 3]], [2, 1], [1, 1])
    case ThreeRight => Geometry([[1, 3], [2, 3]], [1, 2], [1, 1])
    case ThreeTop => Geometry([[1, 1], [2, 3]], [1, 1], [2, 1])
    case ThreeBottom => Geometry([[1, 2], [3, 3]], [1, 1], [1, 2])
    case FourGrid => Geometry([[1, 2], [3, 4]], [1, 1], [1, 1])
    case Other(_) => Geometry([], [], [])
  }

  /** The pickers' `getGridAreas` (LayoutModal, PhotoLayoutSelector): the
      same areas as the editors, no track sizes for single and the
      two-photo variants, the editors' tracks for the others. */
  function PickerGridAreas(l: Layout): (g: Geometry)
    ensures g.areas == GridAreas(l).areas
    ensures SlotCount(l) <= 2 ==> g.columns == [] && g.rows == []
    ensures SlotCount(l) >= 3 ==> g == GridAreas(l)
  {
    match l
    case Single => Geometry([[1]], [], [])
    case TwoHorizontal => Geometry([[1, 2]], [], [])
    case TwoVertical => Geometry([[1], [2]], [], [])
    case ThreeLeft => Geometry([[1, 2], [1, 3]], [2, 1], [1, 1])
    case ThreeRight => Geometry([[1, 3], [2, 3]], [1, 2], [1, 1])
    case ThreeTop => Geometry([[1, 1], [2, 3]], [1, 1], [2, 1])
    case ThreeBottom => Geometry([[1, 2], [3, 3]], [1, 1], [1, 2])
    case FourGrid => Geometry([[1, 2], [3, 4]], [1, 1], [1, 1])
    case Other(_) => Geometry([], [], [])
  }

  /** Each variant's areas name exactly photo1..photoN, N being the count the
      variant is offered under; any other layout names no area. */
  lemma AreasNameTheSlots(l: Layout)
    ensures AreaNames(GridAreas(l)) == Slots(SlotCount(l))
  {
  }

  /** The editors' grids are well formed: one area row per row track and one
      area per column track in every row. */
  lemma GridIsRectangular(l: Layout)
    requires !l.Other?
    ensures var g := GridAreas(l);
      |g.areas| == |g.rows| && forall r :: 0 <= r < |g.areas| ==> |g.areas[r]| == |g.columns|
  {
  }

  /** The three-photo variants split one axis 2:1 (or 1:2) and keep the
      other even. */
  lemma ThreeSplitTwoToOne(l: Layout)
    requires SlotCount(l) == 3
    ensures var g := GridAreas(l);
      || (g.columns in {[2, 1], [1, 2]} && g.rows == [1, 1])
      || (g.rows in {[2, 1], [1, 2]} && g.columns == [1, 1])
  {
  }

  /** One preview cell: the grid area it is placed in (`photo{area}`) and its
      background image, `None` for the placeholder gradient. */
  datatype Cell = Cell(area: nat, image: Option<string>)

  /** The cells a layout preview renders for `photoCount` photos
      (`Array.from({ length: photoCount })`): cell k goes to area k + 1 and
      shows preview k when there is a non-empty one. */
  function PreviewCells(photoCount: nat, previews: seq<string>): (r: seq<Cell>)
    ensures |r| == photoCount
    ensures forall k :: 0 <= k < |r| ==> r[k].area == k + 1
    ensures forall k :: 0 <= k < |r| ==> (r[k].image.Some? <==> k < |previews| && previews[k] != "")
    ensures forall k :: 0 <= k < |r| && r[k].image.Some? ==> r[k].image.value == previews[k]
  {
    seq(photoCount, k requires 0 <= k => Cell(k + 1, if k < |previews| && previews[k] != "" then Some(previews[k]) else None))
  }

  /** The areas the cells are placed in. */
  function CellAreas(cells: seq<Cell>): set<nat>
  {
    set k | 0 <= k < |cells| :: cells[k].area
  }

  /** When the count matches the variant, every cell lands in an area the
      grid names and every named area receives a cell. */
  lemma CellsFillTheGrid(l: Layout, previews: seq<string>)
    ensures CellAreas(PreviewCells(SlotCount(l), previews)) == AreaNames(GridAreas(l))
  {
    AreasNameTheSlots(l);
    var n := SlotCount(l);
    var cells := PreviewCells(n, previews);
    SlotsAreOneToN(n);
    forall k | k in Slots(n) ensures k in CellAreas(cells) {
      assert cells[k - 1].area == k;
    }
    forall k | k in CellAreas(cells) ensures k in Slots(n) {
      var j :| 0 <= j < |cells| && cells[j].area == k;
    }
  }

  /** With more photos than the variant draws, the extra cells name areas the
      grid does not have (CSS then places them implicitly). */
  lemma ExtraCellsHaveNoArea(l: Layout, photoCount: nat, previews: seq<string>, k: nat)
    requires SlotCount(l) <= k < photoCount
    ensures PreviewCells(photoCount, previews)[k].area !in AreaNames(GridAreas(l))
  {
    AreasNameTheSlots(l);
  }

  /** One option of a picker and whether it is marked as selected. */
  datatype Tile = Tile(layout: Layout, selected: bool)

  /** What a picker renders: nothing (a closed modal), the 1-4 photos
      placeholder, or the option tiles. */
  datatype PickerView = Hidden | Placeholder | Tiles(tiles: seq<Tile>)

  /** The option tiles for a count; a tile is marked iff its id equals the
      selected layout. */
  function OptionTiles(photoCount: int, selected: Layout): (tiles: seq<Tile>)
    ensures |tiles| == |Options(photoCount)|
    ensures forall i :: 0 <= i < |tiles| ==> tiles[i].layout == Options(photoCount)[i]
    ensures forall i :: 0 <= i < |tiles| ==> (tiles[i].selected <==> tiles[i].layout == selected)
  {
    var opts := Options(photoCount);
    seq(|opts|, i requires 0 <= i < |opts| => Tile(opts[i], opts[i] == selected))
  }

  /** LayoutModal: nothing when closed, the placeholder when no option
      exists for the count, else the tiles. */
  function ModalView(isOpen: bool, photoCount: int, selected: Layout): (v: PickerView)
    ensures v.Hidden? <==> !isOpen
    ensures v.Placeholder? <==> isOpen && !(1 <= photoCount <= 4)
    ensures v.Tiles? ==> v.tiles == OptionTiles(photoCount, selected) && v.tiles != []
  {
    OptionsEmptyOutsideOneToFour(photoCount);
    if !isOpen then Hidden
    else if Options(photoCount) == [] then Placeholder
    else Tiles(OptionTiles(photoCount, selected))
  }

  /** PhotoLayoutSelector: the same, without an open flag. */
  function SelectorView(photoCount: int, selected: Layout): (v: PickerView)
    ensures !v.Hidden?
    ensures v.Placeholder? <==> !(1 <= photoCount <= 4)
    ensures v.Tiles? ==> v.tiles == OptionTiles(photoCount, selected) && v.tiles != []
  {
    OptionsEmptyOutsideOneToFour(photoCount);
    if Options(photoCount) == [] then Placeholder
    else Tiles(OptionTiles(photoCount, selected))
  }

  /** At most one tile carries the selected marker. */
  lemma AtMostOneMarked(photoCount: int, selected: Layout, i: nat, j: nat)
    requires i < j < |OptionTiles(photoCount, selected)|
    ensures !(OptionTiles(photoCount, selected)[i].selected && OptionTiles(photoCount, selected)[j].selected)
  {
    OptionsDistinct(photoCount);
  }

  /** Some tile is marked exactly when the selected layout is offered for
      the count, that is when it draws that many photos. */
  lemma MarkedIffOffered(photoCount: int, selected: Layout)
    ensures (exists i :: 0 <= i < |OptionTiles(photoCount, selected)| && OptionTiles(photoCount, selected)[i].selected)
      <==> !selected.Other? && SlotCount(selected) == photoCount
  {
    var tiles := OptionTiles(photoCount, selected);
    ListedUnderItsCount(selected, photoCount);
    if selected in Options(photoCount) {
      var i :| 0 <= i < |Options(photoCount)| && Options(photoCount)[i] == selected;
      assert tiles[i].selected;
    }
  }

  /** A picker's callbacks, in the order they are called. */
  datatype Event = Chose(layout: Layout) | Closed

  /** LayoutModal's `handleSelect`: `onSelect` with the tile's id, then
      `onClose`. The chosen variant always fits the photo count. */
  function ModalClick(isOpen: bool, photoCount: int, selected: Layout, i: nat): (events: seq<Event>)
    requires ModalView(isOpen, photoCount, selected).Tiles?
    requires i < |ModalView(isOpen, photoCount, selected).tiles|
    ensures events == [Chose(Options(photoCount)[i]), Closed]
    ensures SlotCount(events[0].layout) == photoCount && !events[0].layout.Other?
  {
    var l := ModalView(isOpen, photoCount, selected).tiles[i].layout;
    assert l in Options(photoCount);
    ListedUnderItsCount(l, photoCount);
    [Chose(l), Closed]
  }

  /** PhotoLayoutSelector's click: `onSelect` with exactly the tile's id, and
      no close. */
  function SelectorClick(photoCount: int, selected: Layout, i: nat): (events: seq<Event>)
    requires SelectorView(photoCount, selected).Tiles?
    requires i < |SelectorView(photoCount, selected).tiles|
    ensures events == [Chose(Options(photoCount)[i])]
    ensures SlotCount(events[0].layout) == photoCount && !events[0].layout.Other?
  {
    var l := SelectorView(photoCount, selected).tiles[i].layout;
    assert l in Options(photoCount);
    ListedUnderItsCount(l, photoCount);
    [Chose(l)]
  }
}
