/** Turning picked files into new photos: the `forEach` loop that
    CreatePages, PhotoUploader and Contribute each run over the files,
    pushing one photo per image file. The browser's random id, object URL and
    random prompt are passed in as draws, one per file position. */
module Staging {
  import opened Common
  import opened Types

  /** What the browser supplies for the file at position i: `ids[i]`
      (`Math.random().toString(36)`), `previews[i]` (`URL.createObjectURL`) and
      `picks[i]`, the index `Math.floor(Math.random() * PROMPTS.length)`. */
  datatype Draws = Draws(ids: seq<string>, previews: seq<string>, picks: seq<nat>)

  /** The draws cover the first n files and every pick is a prompt index. */
  predicate Covers(d: Draws, n: nat)
  {
    && n <= |d.ids| && n <= |d.previews| && n <= |d.picks|
    && forall i :: 0 <= i < n ==> d.picks[i] < |Prompts|
  }

  /** The photo pushed for the image file at position i. */
  function StagedPhoto(f: File, d: Draws, i: nat): Photo
    requires Covers(d, i + 1)
  {
    Photo(d.ids[i], Some(f), d.previews[i], "", "", Prompts[d.picks[i]])
  }

  /** The number of image files. */
  function ImageCount(files: seq<File>): nat
  {
    if files == [] then 0
    else ImageCount(files[..|files| - 1]) + if IsImage(files[|files| - 1]) then 1 else 0
  }

  /** The photos the loop pushes: one per image file, in file order, each
      carrying its file, an empty note and one of the prompts; other files
      are skipped. */
  function NewPhotos(files: seq<File>, d: Draws): (r: seq<Photo>)
    requires Covers(d, |files|)
    ensures |r| == ImageCount(files) <= |files|
    ensures forall p :: p in r ==>
      p.file.Some? && IsImage(p.file.value) && p.file.value in files
      && p.note == "" && p.url == "" && p.prompt in Prompts
    ensures forall p :: p in r ==> p.id in d.ids[..|files|]
  {
    if files == [] then []
    else
      var k := |files| - 1;
      var front := NewPhotos(files[..k], d);
      assert forall p :: p in front ==> p.id in d.ids[..|files|] by {
        assert d.ids[..k] == d.ids[..|files|][..k];
      }
      front + if IsImage(files[k]) then [StagedPhoto(files[k], d, k)] else []
  }

  /** No image file is skipped: the photo staged at its position is among
      the new photos. */
  lemma {:induction false} NewPhotosComplete(files: seq<File>, d: Draws, j: nat)
    requires Covers(d, |files|) && j < |files| && IsImage(files[j])
    ensures StagedPhoto(files[j], d, j) in NewPhotos(files, d)
  {
    var k := |files| - 1;
    if j < k {
      assert files[..k][j] == files[j];
      NewPhotosComplete(files[..k], d, j);
    }
  }

  /** The photos staged for the first n files are the first photos staged
      for all of them: later files only append. */
  lemma {:induction false} NewPhotosPrefix(files: seq<File>, d: Draws, n: nat)
    requires Covers(d, |files|) && n <= |files|
    ensures NewPhotos(files[..n], d) <= NewPhotos(files, d)
  {
    if n < |files| {
      var k := |files| - 1;
      assert files[..k][..n] == files[..n];
      NewPhotosPrefix(files[..k], d, n);
    } else {
      assert files[..n] == files;
    }
  }

  /** `files.forEach((file) => { if (isImage) newPhotos.push(...) })`. */
  method CollectImages(files: seq<File>, d: Draws) returns (photos: seq<Photo>)
    requires Covers(d, |files|)
    ensures photos == NewPhotos(files, d)
  {
    photos := [];
    var i := 0;
    while i < |files|
      invariant 0 <= i <= |files|
      invariant photos == NewPhotos(files[..i], d)
    {
      assert files[..i + 1][..i] == files[..i];
      if IsImage(files[i]) {
        photos := photos + [StagedPhoto(files[i], d, i)];
      }
      i := i + 1;
    }
    assert files[..|files|] == files;
  }

  /** Distinct draws give the new photos distinct ids. */
  lemma {:induction false} NewPhotosDistinct(files: seq<File>, d: Draws)
    requires Covers(d, |files|) && Distinct(d.ids[..|files|])
    ensures Distinct(Ids(NewPhotos(files, d)))
  {
    if files != [] {
      var k := |files| - 1;
      assert d.ids[..k] == d.ids[..|files|][..k];
      NewPhotosDistinct(files[..k], d);
      var front := NewPhotos(files[..k], d);
      if IsImage(files[k]) {
        forall p | p in front ensures p.id != d.ids[k] {
          assert p.id in d.ids[..k];
        }
        IdsAppend(front, [StagedPhoto(files[k], d, k)]);
      } else {
        assert NewPhotos(files, d) == front;
      }
    }
  }

  /** `photos.filter((p) => p.id !== id)`: the staged list without the photo
      being removed, the others kept in order. */
  function DropPhoto(photos: seq<Photo>, id: string): (r: seq<Photo>)
    ensures forall p :: p in r <==> p in photos && p.id != id
    ensures Subsequence(r, photos)
    ensures id !in Ids(r)
    ensures |r| <= |photos|
  {
    if photos == [] then []
    else
      var rest := DropPhoto(photos[1..], id);
      if photos[0].id != id then
        assert ([photos[0]] + rest)[1..] == rest;
        [photos[0]] + rest
      else rest
  }

  /** With distinct ids, removing a staged photo shortens the list by one
      exactly when the id is staged. */
  lemma {:induction false} DropPhotoCount(photos: seq<Photo>, id: string)
    requires Distinct(Ids(photos))
    ensures |DropPhoto(photos, id)| == if id in Ids(photos) then |photos| - 1 else |photos|
  {
    if photos != [] {
      var rest := photos[1..];
      assert Distinct(Ids(rest)) by {
        forall i, j | 0 <= i < j < |rest| ensures Ids(rest)[i] != Ids(rest)[j] {
          assert Ids(photos)[i + 1] != Ids(photos)[j + 1];
        }
      }
      DropPhotoCount(rest, id);
      assert Ids(photos) == [photos[0].id] + Ids(rest);
      if photos[0].id == id {
        assert id !in Ids(rest) by {
          forall j | 0 <= j < |rest| ensures Ids(rest)[j] != id {
            assert Ids(photos)[0] != Ids(photos)[j + 1];
          }
        }
      }
    }
  }
}
