/** The contribution form (Contribute): a visitor with a book's
    contribution link stages up to ten photos, writes a note on each and
    submits them; the files, notes and prompts are sent as three lists in
    photo order. */
module Contribute {
  import opened Common
  import opened Types
  import opened Staging

  /** The form's cap on staged photos. */
  const MaxContributions: nat := 10

  /** The fallback messages when the server gives none. */
  const LoadFailed: string := "Không thể tải thông tin nhật ký"
  const SubmitFailed: string := "Không thể gửi đóng góp"

  /** The book the link points to. */
  datatype BookRef = BookRef(id: string, name: string, kind: string)

  /** What `submitContributions` is called with. */
  datatype Submission = Submission(bookId: string, files: seq<File>, notes: seq<string>, prompts: seq<string>)

  /** `photos.map((p) => p.file!).filter((f) => f !== undefined)`: the files
      of the photos that have one, in photo order. */
  function Files(photos: seq<Photo>): (r: seq<File>)
    ensures |r| <= |photos|
    ensures (forall p :: p in photos ==> p.file.Some?) ==>
      |r| == |photos| && forall i :: 0 <= i < |photos| ==> r[i] == photos[i].file.value
    ensures forall f :: f in r <==> exists p :: p in photos && p.file == Some(f)
  {
    if photos == [] then []
    else
      var rest := Files(photos[1..]);
      assert forall p :: p in photos <==> p == photos[0] || p in photos[1..];
      if photos[0].file.Some? then
        assert forall i :: 1 <= i < |photos| ==> photos[1..][i - 1] == photos[i];
        [photos[0].file.value] + rest
      else rest
  }

  /** The arguments of the submission: the notes and the prompts, one per
      photo in photo order, and the files. */
  function BuildSubmission(book: BookRef, photos: seq<Photo>): (s: Submission)
    ensures s.bookId == book.id && s.files == Files(photos)
    ensures |s.notes| == |photos| && |s.prompts| == |photos|
    ensures forall i :: 0 <= i < |photos| ==> s.notes[i] == photos[i].note && s.prompts[i] == photos[i].prompt
  {
    Submission(book.id,
      Files(photos),
      seq(|photos|, i requires 0 <= i < |photos| => photos[i].note),
      seq(|photos|, i requires 0 <= i < |photos| => photos[i].prompt))
  }

  /** When every staged photo carries its file (as every photo the form stages
      does), the three lists line up: entry i of each belongs to photo i. */
  lemma SubmissionAligned(book: BookRef, photos: seq<Photo>)
    requires forall p :: p in photos ==> p.file.Some?
    ensures var s := BuildSubmission(book, photos);
      |s.files| == |s.notes| == |s.prompts| == |photos|
      && forall i :: 0 <= i < |photos| ==> s.files[i] == photos[i].file.value
  {
  }

  /** `photos.map((p) => (p.id === photoId ? { ...p, note } : p))`. */
  function SetNote(photos: seq<Photo>, id: string, note: string): (r: seq<Photo>)
    ensures |r| == |photos| && Ids(r) == Ids(photos)
    ensures forall i :: 0 <= i < |photos| ==>
      r[i] == if photos[i].id == id then photos[i].(note := note) else photos[i]
  {
    seq(|photos|, i requires 0 <= i < |photos| => if photos[i].id == id then photos[i].(note := note) else photos[i])
  }

  /** Editing a note changes nothing but the note of the photos with that
      id: files, previews and prompts stay. */
  lemma SetNoteOnlyNotes(photos: seq<Photo>, id: string, note: string, i: nat)
    requires i < |photos|
    ensures var q := SetNote(photos, id, note)[i];
      q.(note := photos[i].note) == photos[i]
      && (photos[i].id != id ==> q == photos[i])
  {
  }

  class ContributeForm {
    var book: Option<BookRef>
    var photos: seq<Photo>
    var error: Option<string>
    var submitted: bool
    /** Set by the navigation home when the link has no id. */
    var wentHome: bool

    /** The form's invariant: at most ten photos, each with its file. */
    predicate Valid()
      reads this
    {
      |photos| <= MaxContributions && forall p :: p in photos ==> p.file.Some?
    }

    /** Mounting: without an id, go home; otherwise the book lookup either
        gives the book or an error message (the server's, or the
        fallback when it sends an empty one). */
    constructor (contributeId: string, lookup: Result<BookRef, string>)
      ensures photos == [] && !submitted && Valid()
      ensures contributeId == [] ==> wentHome && book == None && error == None
      ensures contributeId != [] && lookup.Ok? ==> !wentHome && book == Some(lookup.value) && error == None
      ensures contributeId != [] && lookup.Err? ==>
        !wentHome && book == None && error == Some(if lookup.error != [] then lookup.error else LoadFailed)
    {
      photos := [];
      submitted := false;
      book := None;
      error := None;
      wentHome := false;
      if contributeId == [] {
        wentHome := true;
      } else if lookup.Ok? {
        book := Some(lookup.value);
      } else {
        error := Some(if lookup.error != [] then lookup.error else LoadFailed);
      }
    }

    /** `handleFileSelect`: at most `10 - photos.length` files are looked at;
        the image files among them are staged after the existing photos. */
    method HandleFileSelect(files: Option<seq<File>>, d: Draws)
      requires files.Some? ==> Covers(d, |files.value|)
      modifies this
      ensures book == old(book) && error == old(error) && submitted == old(submitted) && wentHome == old(wentHome)
      ensures files.None? ==> photos == old(photos)
      ensures files.Some? ==>
        photos == old(photos) + NewPhotos(SlicePrefix(files.value, MaxContributions - |old(photos)|), d)
      ensures old(Valid()) ==> Valid()
    {
      if files.None? {
        return;
      }
      var examined := SlicePrefix(files.value, MaxContributions - |photos|);
      var added := CollectImages(examined, d);
      photos := photos + added;
    }

    /** `removePhoto`. */
    method RemovePhoto(id: string)
      modifies this
      ensures book == old(book) && error == old(error) && submitted == old(submitted) && wentHome == old(wentHome)
      ensures photos == DropPhoto(old(photos), id)
      ensures old(Valid()) ==> Valid()
    {
      photos := DropPhoto(photos, id);
    }

    /** `updatePhotoNote`. */
    method UpdatePhotoNote(id: string, note: string)
      modifies this
      ensures book == old(book) && error == old(error) && submitted == old(submitted) && wentHome == old(wentHome)
      ensures photos == SetNote(old(photos), id, note)
      ensures old(Valid()) ==> Valid()
    {
      photos := SetNote(photos, id, note);
      assert forall p :: p in photos ==> exists i :: 0 <= i < |photos| && photos[i] == p;
    }

    /** `handleSubmit`: refused (no request) without photos or without a
        loaded book; otherwise the submission is sent, and its outcome either
        marks the form submitted or records the error message. */
    method Submit(outcome: Result<(), string>) returns (request: Option<Submission>)
      modifies this
      ensures book == old(book) && photos == old(photos) && wentHome == old(wentHome)
      ensures request.None? <==> (photos == [] || book.None?)
      ensures request.None? ==> submitted == old(submitted) && error == old(error)
      ensures request.Some? ==> request.value == BuildSubmission(book.value, photos)
      ensures request.Some? && outcome.Ok? ==> submitted && error == None
      ensures request.Some? && outcome.Err? ==>
        submitted == old(submitted) && error == Some(if outcome.error != [] then outcome.error else SubmitFailed)
    {
      if photos == [] || book.None? {
        return None;
      }
      error := None;
      request := Some(BuildSubmission(book.value, photos));
      match outcome
      case Ok(_) =>
        submitted := true;
      case Err(message) =>
        error := Some(if message != [] then message else SubmitFailed);
    }
  }
}
