/** The book list (MyMemoryBooks): the books the user leads and the books
    they contributed to, one card each with a thumbnail, page and photo
    counts and a leader badge, and a form that creates a book from a
    trimmed name. */
module MyMemoryBooks {
  import opened Common
  import opened PhotoUtils

  /** A book as the list endpoint sends it; `pages` and `isLeader` may be
      absent. */
  datatype BookResponse = BookResponse(id: string, name: string, kind: string,
    pages: Option<seq<PageResponse>>, isLeader: Option<bool>)

  datatype Tab = MyBooks | Contributed

  /** `getBookThumbnail`: the url of the first photo of the first page, none
      when there is no page or the first page has no photo. */
  function Thumbnail(book: BookResponse): (r: Option<string>)
    ensures r.Some? <==> book.pages.Some? && book.pages.value != [] && book.pages.value[0].photos != []
    ensures r.Some? ==> r.value == book.pages.value[0].photos[0].url
  {
    if book.pages.Some? && |book.pages.value| > 0 then
      var first := book.pages.value[0];
      if |first.photos| > 0 then Some(first.photos[0].url) else None
    else None
  }

  /** Pages after the first are never consulted for the thumbnail. */
  lemma ThumbnailIgnoresLaterPages(book: BookResponse, first: PageResponse, rest: seq<PageResponse>, other: seq<PageResponse>)
    ensures Thumbnail(book.(pages := Some([first] + rest))) == Thumbnail(book.(pages := Some([first] + other)))
  {
  }

  /** `book.pages?.length || 0`. */
  function PageCount(book: BookResponse): (n: nat)
    ensures book.pages.None? ==> n == 0
    ensures book.pages.Some? ==> n == |book.pages.value|
  {
    if book.pages.Some? then |book.pages.value| else 0
  }

  /** `pages.reduce((acc, page) => acc + page.photos.length, 0)`. */
  function SumPhotos(pages: seq<PageResponse>): nat
  {
    if pages == [] then 0 else SumPhotos(pages[..|pages| - 1]) + |pages[|pages| - 1].photos|
  }

  /** The total splits over a concatenation. */
  lemma {:induction false} SumPhotosAppend(a: seq<PageResponse>, b: seq<PageResponse>)
    ensures SumPhotos(a + b) == SumPhotos(a) + SumPhotos(b)
  {
    if b != [] {
      var last := b[|b| - 1];
      assert (a + b)[..|a + b| - 1] == a + b[..|b| - 1];
      SumPhotosAppend(a, b[..|b| - 1]);
    } else {
      assert a + b == a;
    }
  }

  /** The total counts every page's photos: it is at least the first page's
      count, and zero only when no page has a photo. */
  lemma {:induction false} SumPhotosBounds(pages: seq<PageResponse>)
    ensures pages != [] ==> SumPhotos(pages) >= |pages[0].photos|
    ensures SumPhotos(pages) == 0 <==> forall i :: 0 <= i < |pages| ==> pages[i].photos == []
  {
    if pages != [] {
      SumPhotosAppend([pages[0]], pages[1..]);
      assert [pages[0]] + pages[1..] == pages;
      assert SumPhotos([pages[0]]) == SumPhotos([]) + |pages[0].photos|;
      SumPhotosBounds(pages[1..]);
      assert forall i :: 1 <= i < |pages| ==> pages[i] == pages[1..][i - 1];
    }
  }

  /** The photo count on a card (0 when the pages are absent). */
  function PhotoCount(book: BookResponse): (n: nat)
    ensures book.pages.None? ==> n == 0
    ensures book.pages.Some? ==> n == SumPhotos(book.pages.value)
  {
    if book.pages.Some? then SumPhotos(book.pages.value) else 0
  }

  /** A book with a thumbnail shows at least one photo. */
  lemma ThumbnailMeansPhotos(book: BookResponse)
    ensures Thumbnail(book).Some? ==> PhotoCount(book) >= 1
  {
    if book.pages.Some? {
      SumPhotosBounds(book.pages.value);
    }
  }

  /** The leader badge and edit button: every card on the user's own tab,
      and on the other tab the cards whose flag is exactly `true`. */
  function IsLeader(tab: Tab, book: BookResponse): (b: bool)
    ensures tab == MyBooks ==> b
    ensures tab == Contributed ==> (b <==> book.isLeader == Some(true))
  {
    tab == MyBooks || book.isLeader == Some(true)
  }

  /** The list shown for the active tab. */
  function CurrentBooks(tab: Tab, myBooks: seq<BookResponse>, contributed: seq<BookResponse>): (r: seq<BookResponse>)
    ensures tab == MyBooks ==> r == myBooks
    ensures tab == Contributed ==> r == contributed
  {
    if tab == MyBooks then myBooks else contributed
  }

  /** The name the create form sends: none for a blank name, else the
      trimmed name. */
  function CreateName(name: string): (r: Option<string>)
    ensures r.None? <==> IsBlank(name)
    ensures r.Some? ==> r.value == Trim(name) && r.value != []
    ensures r.Some? ==> !IsWhitespace(r.value[0]) && !IsWhitespace(r.value[|r.value| - 1])
  {
    TrimEmptyIffBlank(name);
    if |Trim(name)| == 0 then None else Some(Trim(name))
  }

  /** A sent name is accepted again unchanged. */
  lemma CreateNameStable(name: string)
    requires CreateName(name).Some?
    ensures CreateName(CreateName(name).value) == CreateName(name)
  {
    var t := CreateName(name).value;
    assert TrimStart(t) == t;
    assert TrimEnd(t) == t;
  }

  /** The default book type of a created book. */
  const DefaultKind: string := "Lớp học"

  const LoadFailed: string := "Không thể tải danh sách nhật ký"

  const CreateFailed: string := "Có lỗi xảy ra khi tạo nhật ký"

  /** `apiError?.error?.message || 'Có lỗi xảy ra khi tạo nhật ký'`: the server's message,
      or the fallback when it is empty; never empty. */
  function ErrorMessage(message: string): (r: string)
    ensures r != []
    ensures message != [] ==> r == message
    ensures message == [] ==> r == CreateFailed
  {
    if message != [] then message else CreateFailed
  }

  /** The list screen's create form and lists. */
  class BookList {
    var tab: Tab
    var myBooks: seq<BookResponse>
    var contributed: seq<BookResponse>
    var createName: string
    var loadError: Option<string>
    var createError: Option<string>
    /** The book opened in the page editor after a creation. */
    var openedBook: Option<string>

    /** Mounting: the list request either gives both lists or an error
        message (the server's, or the fallback when it sends an empty one),
        in which case both lists stay empty. */
    constructor (loaded: Result<(seq<BookResponse>, seq<BookResponse>), string>)
      ensures tab == MyBooks && createName == [] && createError == None && openedBook == None
      ensures loaded.Ok? ==> myBooks == loaded.value.0 && contributed == loaded.value.1 && loadError == None
      ensures loaded.Err? ==>
        myBooks == [] && contributed == [] && loadError == Some(if loaded.error != [] then loaded.error else LoadFailed)
    {
      tab := MyBooks;
      createName := [];
      createError := None;
      openedBook := None;
      match loaded
      case Ok(lists) =>
        myBooks := lists.0;
        contributed := lists.1;
        loadError := None;
      case Err(message) =>
        myBooks := [];
        contributed := [];
        loadError := Some(if message != [] then message else LoadFailed);
    }

    /** `handleCreateSubmit`: a blank name sends nothing; otherwise the
        trimmed name is sent with the default type, and on success
        (`created` is the new book's id, `reloaded` the refreshed lists) the
        lists are replaced, the form is cleared and the new book is opened;
        a failure leaves the lists and the name and records the message. */
    method SubmitCreate(created: Result<string, string>, reloaded: Result<(seq<BookResponse>, seq<BookResponse>), string>)
      returns (request: Option<(string, string)>)
      modifies this
      ensures tab == old(tab) && loadError == old(loadError)
      ensures request.None? <==> IsBlank(old(createName))
      ensures request.Some? ==> request.value == (Trim(old(createName)), DefaultKind)
      ensures request.None? || created.Err? || reloaded.Err? ==>
        myBooks == old(myBooks) && contributed == old(contributed) && createName == old(createName) && openedBook == old(openedBook)
      ensures request.None? ==> createError == old(createError)
      ensures request.Some? && created.Err? ==> createError == Some(ErrorMessage(created.error))
      ensures request.Some? && created.Ok? && reloaded.Err? ==> createError == Some(ErrorMessage(reloaded.error))
      ensures request.Some? && created.Ok? && reloaded.Ok? ==>
        myBooks == reloaded.value.0 && contributed == reloaded.value.1
        && createName == [] && createError == None && openedBook == Some(created.value)
    {
      var name := CreateName(createName);
      if name.None? {
        return None;
      }
      request := Some((name.value, DefaultKind));
      ReceiveCreated(created, reloaded);
    }

    /** The request's outcome: the error is cleared, then a failed creation
        or reload records its message; a success replaces the lists, clears
        the form and opens the new book. */
    method ReceiveCreated(created: Result<string, string>, reloaded: Result<(seq<BookResponse>, seq<BookResponse>), string>)
      modifies this
      ensures tab == old(tab) && loadError == old(loadError)
      ensures created.Err? || reloaded.Err? ==>
        myBooks == old(myBooks) && contributed == old(contributed) && createName == old(createName) && openedBook == old(openedBook)
      ensures created.Err? ==> createError == Some(ErrorMessage(created.error))
      ensures created.Ok? && reloaded.Err? ==> createError == Some(ErrorMessage(reloaded.error))
      ensures created.Ok? && reloaded.Ok? ==>
        myBooks == reloaded.value.0 && contributed == reloaded.value.1
        && createName == [] && createError == None && openedBook == Some(created.value)
    {
      createError := None;
      if created.Err? {
        createError := Some(ErrorMessage(created.error));
      } else if reloaded.Err? {
        createError := Some(ErrorMessage(reloaded.error));
      } else {
        myBooks := reloaded.value.0;
        contributed := reloaded.value.1;
        createName := [];
        openedBook := Some(created.value);
      }
    }
  }
}
