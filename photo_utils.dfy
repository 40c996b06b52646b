/** The conversions between the server's photo and page records and the
    editor's photos and pages (photoUtils). A server record holds a photo's
    url; the editor shows a preview url built from it against the API base,
    and converts back only photos that are already uploaded. */
module PhotoUtils {
  import opened Common
  import opened Types

  /** A photo as the server sends and accepts it. */
  datatype PhotoResponse = PhotoResponse(id: string, url: string, note: string, prompt: string)

  /** A page as the server sends and accepts it; the layout is a free
      string. */
  datatype PageResponse = PageResponse(id: string, photos: seq<PhotoResponse>, layout: string, note: string)

  /** Why a photo cannot be converted back: it still carries its file, or its
      preview is a local object URL. */
  datatype ConvertError = NotUploaded | BlobPreview

  const DefaultApiBase: string := "http://localhost:3000/api"

  /** `VITE_API_URL || 'http://localhost:3000/api'`; `env` is the
      configured value, empty when unset. */
  function ApiBase(env: string): (r: string)
    ensures r != []
    ensures env != [] ==> r == env
    ensures env == [] ==> r == DefaultApiBase
  {
    if env != [] then env else DefaultApiBase
  }

  /** The preview url of a server url: kept as is when it starts with
      `http`, appended to the API base when it starts with `/`, else placed
      under the base's `/images/` directory. It always ends with the server
      url, and only an `http` url is shown unchanged. */
  function PreviewUrl(base: string, url: string): (r: string)
    ensures |url| <= |r| && r[|r| - |url|..] == url
    ensures StartsWith(url, "http") ==> r == url
    ensures !StartsWith(url, "http") ==> StartsWith(r, base) && |r| >= |base| + |url|
    ensures !StartsWith(url, "http") && StartsWith(url, "/") ==> r == base + url
    ensures !StartsWith(url, "http") && !StartsWith(url, "/") ==> r == base + "/images/" + url
  {
    if StartsWith(url, "http") then url
    else if StartsWith(url, "/") then base + url
    else base + "/images/" + url
  }

  /** With a non-empty base, a preview equals its server url exactly when
      that url starts with `http`. */
  lemma PreviewUnchangedIffHttp(base: string, url: string)
    requires base != []
    ensures PreviewUrl(base, url) == url <==> StartsWith(url, "http")
  {
  }

  /** `photoResponseToPhoto`: no file; the server url is kept beside the
      derived preview. */
  function ToPhoto(env: string, r: PhotoResponse): (p: Photo)
    ensures p.id == r.id && p.url == r.url && p.note == r.note && p.prompt == r.prompt
    ensures p.file.None? && p.preview == PreviewUrl(ApiBase(env), r.url)
  {
    Photo(r.id, None, PreviewUrl(ApiBase(env), r.url), r.url, r.note, r.prompt)
  }

  /** `photoPageResponseToPhotoPage`: the photos converted in order, the
      layout string read as a layout. */
  function ToPage(env: string, r: PageResponse): (p: Page)
    ensures p.id == r.id && p.note == r.note && p.layout == LayoutOf(r.layout)
    ensures |p.photos| == |r.photos|
    ensures forall i :: 0 <= i < |r.photos| ==> p.photos[i] == ToPhoto(env, r.photos[i])
  {
    Page(r.id, seq(|r.photos|, i requires 0 <= i < |r.photos| => ToPhoto(env, r.photos[i])), LayoutOf(r.layout), r.note)
  }

  /** `photoToPhotoResponse`: fails for a photo that still has its file
      (checked first) or whose preview is a `blob:` URL; otherwise the url is
      the photo's server url, or its preview when it has none, with a leading
      API base removed. */
  function FromPhoto(env: string, p: Photo): (r: Result<PhotoResponse, ConvertError>)
    ensures r == Err(NotUploaded) <==> p.file.Some?
    ensures r == Err(BlobPreview) <==> p.file.None? && StartsWith(p.preview, "blob:")
    ensures r.Ok? ==> r.value.id == p.id && r.value.note == p.note && r.value.prompt == p.prompt
    ensures r.Ok? ==> var source := if p.url != [] then p.url else p.preview;
      var base := ApiBase(env);
      if StartsWith(source, base) then base + r.value.url == source else r.value.url == source
  {
    var url := if p.url != [] then p.url else p.preview;
    if p.file.Some? then Err(NotUploaded)
    else if p.preview != [] && StartsWith(p.preview, "blob:") then Err(BlobPreview)
    else
      var base := ApiBase(env);
      var stripped := if StartsWith(url, base) then url[|base|..] else url;
      assert StartsWith(url, base) ==> url == base + stripped;
      Ok(PhotoResponse(p.id, stripped, p.note, p.prompt))
  }

  /** The photos converted in order (`photos.map(photoToPhotoResponse)`);
      the first photo that cannot be converted stops the conversion with its
      error. */
  function FromPhotos(env: string, ps: seq<Photo>): (r: Result<seq<PhotoResponse>, ConvertError>)
    ensures r.Ok? ==> |r.value| == |ps|
  {
    if ps == [] then Ok([])
    else
      match FromPhoto(env, ps[0])
      case Err(e) => Err(e)
      case Ok(first) =>
        match FromPhotos(env, ps[1..])
        case Err(e) => Err(e)
        case Ok(rest) => Ok([first] + rest)
  }

  /** The conversion succeeds exactly when every photo converts, and then
      gives the converted photos one-to-one, in order. */
  lemma {:induction false} FromPhotosAll(env: string, ps: seq<Photo>)
    ensures FromPhotos(env, ps).Ok? <==> forall i :: 0 <= i < |ps| ==> FromPhoto(env, ps[i]).Ok?
    ensures FromPhotos(env, ps).Ok? ==>
      |FromPhotos(env, ps).value| == |ps|
      && forall i :: 0 <= i < |ps| ==> FromPhotos(env, ps).value[i] == FromPhoto(env, ps[i]).value
  {
    if ps != [] {
      FromPhotosAll(env, ps[1..]);
      assert forall i :: 1 <= i < |ps| ==> ps[1..][i - 1] == ps[i];
    }
  }

  /** A failed conversion fails with the error of the first photo that does
      not convert. */
  lemma {:induction false} FromPhotosFirstError(env: string, ps: seq<Photo>)
    requires FromPhotos(env, ps).Err?
    ensures exists i :: (0 <= i < |ps| && FromPhoto(env, ps[i]) == Err(FromPhotos(env, ps).error)
      && forall j :: 0 <= j < i ==> FromPhoto(env, ps[j]).Ok?)
  {
    var e := FromPhotos(env, ps).error;
    if FromPhoto(env, ps[0]).Err? {
      assert FromPhoto(env, ps[0]) == Err(e);
    } else {
      FromPhotosFirstError(env, ps[1..]);
      var i :| 0 <= i < |ps[1..]| && FromPhoto(env, ps[1..][i]) == Err(e)
        && forall j :: 0 <= j < i ==> FromPhoto(env, ps[1..][j]).Ok?;
      assert ps[i + 1] == ps[1..][i];
      assert forall j :: 1 <= j <= i ==> ps[j] == ps[1..][j - 1];
      assert 0 <= i + 1 < |ps| && FromPhoto(env, ps[i + 1]) == Err(e);
    }
  }

  /** `photoPageToPhotoPageResponse`: the photos converted in order, the
      layout written as its name. */
  function FromPage(env: string, p: Page): (r: Result<PageResponse, ConvertError>)
    ensures r.Ok? <==> FromPhotos(env, p.photos).Ok?
    ensures r.Ok? ==> r.value == PageResponse(p.id, FromPhotos(env, p.photos).value, LayoutName(p.layout), p.note)
    ensures r.Err? ==> r.error == FromPhotos(env, p.photos).error
  {
    match FromPhotos(env, p.photos)
    case Err(e) => Err(e)
    case Ok(photos) => Ok(PageResponse(p.id, photos, LayoutName(p.layout), p.note))
  }

  /** A string starting with `/` appended to a base that does not start with
      `blob:` does not start with `blob:` either. */
  lemma NotBlobAfterBase(base: string, rest: string)
    requires rest != [] && rest[0] == '/'
    requires !StartsWith(base, "blob:")
    ensures !StartsWith(base + rest, "blob:")
  {
    if |base| >= 5 {
      assert (base + rest)[..5] == base[..5];
    } else if |base + rest| >= 5 {
      assert (base + rest)[..5][|base|] == '/';
    }
  }

  /** A photo loaded from the server converts back to the record it came
      from, as long as its url is non-empty and does not itself start with
      the API base (which does not start with `blob:`). */
  lemma PhotoRoundTrip(env: string, r: PhotoResponse)
    requires r.url != [] && !StartsWith(r.url, ApiBase(env))
    requires !StartsWith(ApiBase(env), "blob:")
    ensures FromPhoto(env, ToPhoto(env, r)) == Ok(r)
  {
    var base := ApiBase(env);
    var preview := PreviewUrl(base, r.url);
    if StartsWith(r.url, "http") {
      assert preview[0] == 'h';
    } else if StartsWith(r.url, "/") {
      NotBlobAfterBase(base, r.url);
    } else {
      assert base + "/images/" + r.url == base + ("/images/" + r.url);
      NotBlobAfterBase(base, "/images/" + r.url);
    }
  }

  /** A page loaded from the server converts back to the record it came
      from when every photo round-trips; the layout string, known or not,
      passes through the cast unchanged. */
  lemma PageRoundTrip(env: string, r: PageResponse)
    requires forall q :: q in r.photos ==> q.url != [] && !StartsWith(q.url, ApiBase(env))
    requires !StartsWith(ApiBase(env), "blob:")
    ensures FromPage(env, ToPage(env, r)) == Ok(r)
  {
    var p := ToPage(env, r);
    forall i | 0 <= i < |r.photos| ensures FromPhoto(env, p.photos[i]) == Ok(r.photos[i]) {
      PhotoRoundTrip(env, r.photos[i]);
    }
    NameOfLayoutOf(r.layout);
    FromPhotosAll(env, p.photos);
    assert FromPhotos(env, p.photos).value == r.photos;
  }

  /** A server photo with an empty url does not round-trip: its preview is the
      bare images directory, and that is what is sent back. */
  lemma EmptyUrlComesBackAsImagesDir(r: PhotoResponse)
    requires r.url == []
    ensures FromPhoto([], ToPhoto([], r)) == Ok(r.(url := "/images/"))
  {
    var preview := PreviewUrl(DefaultApiBase, []);
    assert preview == DefaultApiBase + "/images/";
    assert preview[..|DefaultApiBase|] == DefaultApiBase;
    assert preview[|DefaultApiBase|..] == "/images/";
    assert preview[0] == 'h';
  }
}
