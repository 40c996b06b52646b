/** The application's data types: photos, pages and the layout variants
    (src/types.ts), plus the abstract file a user picks in the browser. */
module Types {
  import opened Common

  /** The eight `PhotoLayout` variants. A page's layout reaches the
      application as a plain string (from storage or from the server, through
      an unchecked `as PhotoLayout` cast), so a string outside the union is
      kept as `Other(name)`; `LayoutOf` produces such a value only for a name
      that is none of the eight. */
  datatype Layout =
    | Single
    | TwoHorizontal
    | TwoVertical
    | ThreeLeft
    | ThreeRight
    | ThreeTop
    | ThreeBottom
    | FourGrid
    | Other(name: string)

  /** The string the application stores and sends for a layout. */
  function LayoutName(l: Layout): string
  {
    match l
    case Single => "single"
    case TwoHorizontal => "two-horizontal"
    case TwoVertical => "two-vertical"
    case ThreeLeft => "three-left"
    case ThreeRight => "three-right"
    case ThreeTop => "three-top"
    case ThreeBottom => "three-bottom"
    case FourGrid => "four-grid"
    case Other(name) => name
  }

  /** Reads a layout string back. */
  function LayoutOf(s: string): (l: Layout)
    ensures l.Other? <==> !IsKnownName(s)
  {
    if s == "single" then Single
    else if s == "two-horizontal" then TwoHorizontal
    else if s == "two-vertical" then TwoVertical
    else if s == "three-left" then ThreeLeft
    else if s == "three-right" then ThreeRight
    else if s == "three-top" then ThreeTop
    else if s == "three-bottom" then ThreeBottom
    else if s == "four-grid" then FourGrid
    else Other(s)
  }

  /** One of the eight names of the `PhotoLayout` union. */
  predicate IsKnownName(s: string)
  {
    s in {"single", "two-horizontal", "two-vertical", "three-left",
          "three-right", "three-top", "three-bottom", "four-grid"}
  }

  /** A layout value the application can actually hold: `Other` only ever
      carries a name outside the union. */
  predicate WellFormed(l: Layout)
  {
    l.Other? ==> !IsKnownName(l.name)
  }

  /** Reading any stored string back and writing it again gives the same
      string: the cast loses nothing. */
  lemma NameOfLayoutOf(s: string)
    ensures LayoutName(LayoutOf(s)) == s && WellFormed(LayoutOf(s))
  {
  }

  /** Writing a layout and reading it back gives the same layout. */
  lemma LayoutOfName(l: Layout)
    requires WellFormed(l)
    ensures LayoutOf(LayoutName(l)) == l
  {
  }

  /** A file picked or dropped in the browser; only its MIME type matters. */
  datatype File = File(name: string, mimeType: string)

  /** `file.type.startsWith('image/')`. */
  predicate IsImage(f: File)
  {
    StartsWith(f.mimeType, "image/")
  }

  /** Every `image/...` type is an image, whatever the subtype (an empty
      one included); the test is case-sensitive and needs the slash, so
      `Image/png`, `image` and `video/mp4` are not. */
  lemma IsImageCases(name: string, subtype: string)
    ensures IsImage(File(name, "image/" + subtype))
    ensures !IsImage(File(name, "Image/png"))
    ensures !IsImage(File(name, "image"))
    ensures !IsImage(File(name, "video/mp4"))
  {
    assert ("image/" + subtype)[..6] == "image/";
    assert "Image/png"[0] != "image/"[0];
    assert "video/mp4"[0] != "image/"[0];
  }

  /** `Photo`: `file` is present until the photo is uploaded, `url` is the
      server's reference ("" when the photo has none). */
  datatype Photo = Photo(id: string, file: Option<File>, preview: string, url: string, note: string, prompt: string)

  /** `PhotoPage`. */
  datatype Page = Page(id: string, photos: seq<Photo>, layout: Layout, note: string)

  /** The writing prompts a new photo draws from (`PROMPTS`, identical in
      every component that declares it). */
  const Prompts: seq<string> := [
    "Khoảnh khắc này xảy ra khi…",
    "Điều không ai biết về bức ảnh này là…",
    "Nếu quay lại ngày hôm đó, điều muốn nói nhất là…"
  ]

  /** The ids of a list of photos, in order (`photos.map((p) => p.id)`). */
  function Ids(photos: seq<Photo>): (r: seq<string>)
    ensures |r| == |photos|
    ensures forall i :: 0 <= i < |photos| ==> r[i] == photos[i].id
  {
    seq(|photos|, i requires 0 <= i < |photos| => photos[i].id)
  }

  lemma IdsAppend(a: seq<Photo>, b: seq<Photo>)
    ensures Ids(a + b) == Ids(a) + Ids(b)
  {
  }

  /** The ids of a non-empty list: the head's id, then the tail's ids. */
  lemma IdsCons(photos: seq<Photo>)
    requires photos != []
    ensures Ids(photos) == [photos[0].id] + Ids(photos[1..])
    ensures Ids(photos)[1..] == Ids(photos[1..])
  {
  }

  /** No id occurs twice. */
  predicate Distinct(ids: seq<string>)
  {
    forall i, j :: 0 <= i < j < |ids| ==> ids[i] != ids[j]
  }

  /** In a list of distinct ids, an id outside positions `lo..hi` does not
      occur among them. */
  lemma Apart(all: seq<string>, lo: nat, hi: nat, i: nat)
    requires lo <= hi <= |all| && Distinct(all)
    requires i < |all| && !(lo <= i < hi)
    ensures all[i] !in all[lo..hi]
  {
    forall m | 0 <= m < hi - lo ensures all[lo..hi][m] != all[i] {
      assert all[lo..hi][m] == all[lo + m];
    }
  }
}
