/** The reusable upload widget (PhotoUploader): it shows the staged photos,
    offers its upload area while there is room below `maxPhotos`, and hands
    every change to its parent. A selection is cut to the remaining room
    before the files are looked at, so a non-image file uses up a place. */
module PhotoUploader {
  import opened Common
  import opened Types
  import opened Staging

  /** The `maxPhotos` default. */
  const DefaultMaxPhotos: int := 20

  /** `maxPhotos = 20`: the given cap, or the default when the parent passes
      none. */
  function MaxPhotos(given: Option<int>): (r: int)
    ensures given.Some? ==> r == given.value
    ensures given.None? ==> r == DefaultMaxPhotos
  {
    if given.Some? then given.value else DefaultMaxPhotos
  }

  /** `canAddMore`: the upload area is shown. */
  predicate CanAddMore(photos: seq<Photo>, maxPhotos: int)
    ensures CanAddMore(photos, maxPhotos) <==> SliceEnd(1, maxPhotos - |photos|) == 1
  {
    |photos| < maxPhotos
  }

  /** The files `handleFileSelect` looks at:
      `Array.from(files).slice(0, maxPhotos - photos.length)`. */
  function Examined(photos: seq<Photo>, files: seq<File>, maxPhotos: int): (r: seq<File>)
    ensures |r| <= |files| && r == files[..|r|]
    ensures CanAddMore(photos, maxPhotos) ==> |r| == Min(|files|, maxPhotos - |photos|)
  {
    SlicePrefix(files, maxPhotos - |photos|)
  }

  /** `handleFileSelect`: nothing happens without a file list; otherwise the
      parent receives the staged photos followed by one new photo per image
      among the examined files. */
  method HandleFileSelect(photos: seq<Photo>, files: Option<seq<File>>, maxPhotos: int, d: Draws)
    returns (emitted: Option<seq<Photo>>)
    requires files.Some? ==> Covers(d, |files.value|)
    ensures files.None? ==> emitted.None?
    ensures files.Some? ==> emitted == Some(photos + NewPhotos(Examined(photos, files.value, maxPhotos), d))
    ensures emitted.Some? ==> |photos| <= |emitted.value| && emitted.value[..|photos|] == photos
  {
    if files.None? {
      return None;
    }
    var examined := Examined(photos, files.value, maxPhotos);
    var added := CollectImages(examined, d);
    emitted := Some(photos + added);
    assert emitted.value[..|photos|] == photos;
  }

  /** Starting within the cap, an upload never goes beyond it. */
  lemma UploadStaysWithinCap(photos: seq<Photo>, files: seq<File>, maxPhotos: int, d: Draws)
    requires Covers(d, |files|) && |photos| <= maxPhotos
    ensures |photos + NewPhotos(Examined(photos, files, maxPhotos), d)| <= maxPhotos
  {
  }

  /** A non-image file in the last free place takes it: nothing is added. */
  lemma NonImageTakesTheLastPlace(photos: seq<Photo>, f: File, g: File, d: Draws)
    requires !IsImage(f) && IsImage(g) && Covers(d, 2)
    ensures NewPhotos(Examined(photos, [f, g], |photos| + 1), d) == []
  {
    assert Examined(photos, [f, g], |photos| + 1) == [f];
    assert [f][..0] == [];
  }

  /** With room for every file, each image file becomes a photo. */
  lemma RoomForAll(photos: seq<Photo>, files: seq<File>, maxPhotos: int, d: Draws)
    requires Covers(d, |files|) && |photos| + |files| <= maxPhotos
    ensures Examined(photos, files, maxPhotos) == files
    ensures |NewPhotos(Examined(photos, files, maxPhotos), d)| == ImageCount(files)
  {
  }
}
