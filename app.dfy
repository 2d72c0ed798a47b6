/**
  The library bookkeeping of the application shell (App.tsx): which files are imported and
  how the new book is made, and how the list of books and the open book change when the
  books are loaded or one of them is updated. Storage, file reading and id generation are
  inputs.
*/
module App {
  import opened Wrappers
  import opened Types
  import opened Strings

  const UnknownAuthor := "Auteur Inconnu"

  // ---------------------------------------------------------------------------
  // processFile

  /** `.pdf` first, then `.epub`, case-sensitively; any other name is rejected. */
  function ClassifyFormat(fileName: string): Option<BookFormat> {
    if EndsWith(fileName, ".pdf") then Some(Pdf)
    else if EndsWith(fileName, ".epub") then Some(Epub)
    else None
  }

  /** The extension each format is recognised by. */
  function Extension(format: BookFormat): string {
    match format
    case Pdf => ".pdf"
    case Epub => ".epub"
  }

  /** A name is accepted exactly when it ends with the extension of the format it is given; no name has both. */
  lemma ClassifyFormatByExtension(fileName: string)
    ensures ClassifyFormat(fileName).Some? <==> EndsWith(fileName, ".pdf") || EndsWith(fileName, ".epub")
    ensures ClassifyFormat(fileName).Some? ==> EndsWith(fileName, Extension(ClassifyFormat(fileName).value))
    ensures !(EndsWith(fileName, ".pdf") && EndsWith(fileName, ".epub"))
  {
    if EndsWith(fileName, ".pdf") {
      assert fileName[|fileName| - 1] == 'f';
    }
  }

  /** The test is case-sensitive: an upper-case extension is rejected. */
  lemma ClassifyFormatCaseSensitive()
    ensures ClassifyFormat("BOOK.PDF") == None
  {
    assert "BOOK.PDF"[4..] != ".pdf" by { assert "BOOK.PDF"[5] == 'P'; }
    assert "BOOK.PDF"[3..] != ".epub" by { assert "BOOK.PDF"[3] == 'K'; }
  }

  /** The regular expression `/\.[^/.]+$/` matches at `i`: a '.', then one or more characters other than '.' and '/', to the end. */
  ghost predicate ExtensionAt(name: string, i: int) {
    0 <= i < |name| - 1 && name[i] == '.' && forall j :: i < j < |name| ==> name[j] != '.' && name[j] != '/'
  }

  /** The regular expression matches at most once. */
  lemma ExtensionUnique(name: string, i: int, k: int)
    requires ExtensionAt(name, i) && ExtensionAt(name, k)
    ensures i == k
  {
  }

  /** The position of the last '.', if any. */
  function LastDot(name: string): (r: Option<nat>)
    ensures r.Some? ==> r.value < |name| && name[r.value] == '.' && forall j :: r.value < j < |name| ==> name[j] != '.'
    ensures r.None? ==> forall j :: 0 <= j < |name| ==> name[j] != '.'
    decreases |name|
  {
    if |name| == 0 then None
    else if name[|name| - 1] == '.' then Some(|name| - 1)
    else LastDot(name[..|name| - 1])
  }

  /** `file.name.replace(/\.[^/.]+$/, "")`: the name without its final extension, or the name itself when there is none. */
  function Title(fileName: string): (title: string)
    ensures forall i :: ExtensionAt(fileName, i) ==> title == fileName[..i]
    ensures (forall i :: !ExtensionAt(fileName, i)) ==> title == fileName
  {
    match LastDot(fileName)
    case Some(i) =>
      if i < |fileName| - 1 && forall j | i < j < |fileName| :: fileName[j] != '/' then
        assert ExtensionAt(fileName, i);
        fileName[..i]
      else fileName
    case None => fileName
  }

  /** The title of an accepted file is its name without the format's extension. */
  lemma TitleDropsExtension(stem: string, format: BookFormat)
    ensures Title(stem + Extension(format)) == stem
  {
    var name := stem + Extension(format);
    assert ExtensionAt(name, |stem|);
    assert name[..|stem|] == stem;
  }

  /**
    The book `processFile` creates from the file `fileName` with contents `data`, the id
    `id` (`crypto.randomUUID()`) and the time `now`; None when the name is rejected.
  */
  function ImportBook(fileName: string, id: string, data: seq<Byte>, now: int): (r: Option<Book>)
    ensures r.None? <==> ClassifyFormat(fileName).None?
    ensures r.Some? ==>
      && r.value.format == ClassifyFormat(fileName).value
      && r.value.title + Extension(r.value.format) == fileName
      && r.value.author == UnknownAuthor
      && r.value.bookmarks == Some([])
      && r.value.id == id && r.value.data == data && r.value.addedAt == now
      && r.value.cover.None? && r.value.lastRead.None? && r.value.progress.None?
  {
    match ClassifyFormat(fileName)
    case None => None
    case Some(format) =>
      ClassifyFormatByExtension(fileName);
      var stem := fileName[..|fileName| - |Extension(format)|];
      assert fileName == stem + Extension(format);
      TitleDropsExtension(stem, format);
      Some(Book(id, Title(fileName), UnknownAuthor, format, data, None, now, None, None, Some([])))
  }

  // ---------------------------------------------------------------------------
  // The list of books

  /** `books.find(b => b.id === id)`: the first book with that id. */
  function FindById(books: seq<Book>, id: string): (r: Option<Book>)
    ensures r.Some? ==> r.value.id == id && exists i :: 0 <= i < |books| && books[i] == r.value && forall j :: 0 <= j < i ==> books[j].id != id
    ensures r.None? <==> forall i :: 0 <= i < |books| ==> books[i].id != id
    decreases |books|
  {
    if |books| == 0 then None
    else if books[0].id == id then Some(books[0])
    else
      var r := FindById(books[1..], id);
      assert forall j :: 1 <= j < |books| ==> books[j] == books[1..][j - 1];
      r
  }

  /** `books.map(b => b.id === updated.id ? updated : b)`. */
  function ReplaceById(books: seq<Book>, updated: Book): seq<Book> {
    seq(|books|, i requires 0 <= i < |books| => if books[i].id == updated.id then updated else books[i])
  }

  /** The list keeps its length and its ids; every entry with the id becomes the update and every other entry stays. */
  lemma ReplaceByIdShape(books: seq<Book>, updated: Book)
    ensures var r := ReplaceById(books, updated);
      && |r| == |books|
      && (forall i :: 0 <= i < |r| ==> r[i].id == books[i].id)
      && (forall i :: 0 <= i < |r| && books[i].id == updated.id ==> r[i] == updated)
      && (forall i :: 0 <= i < |r| && books[i].id != updated.id ==> r[i] == books[i])
  {
  }

  /** Without a book of that id the list is unchanged. */
  lemma ReplaceAbsentIsIdentity(books: seq<Book>, updated: Book)
    requires FindById(books, updated.id).None?
    ensures ReplaceById(books, updated) == books
  {
  }

  /** Replacing twice is replacing once. */
  lemma ReplaceByIdIdempotent(books: seq<Book>, updated: Book)
    ensures ReplaceById(ReplaceById(books, updated), updated) == ReplaceById(books, updated)
  {
  }

  /** After the update, looking the id up finds the updated book, if the id was in the list at all. */
  lemma {:induction false} FindAfterReplace(books: seq<Book>, updated: Book)
    ensures FindById(ReplaceById(books, updated), updated.id) ==
      (if FindById(books, updated.id).Some? then Some(updated) else None)
    decreases |books|
  {
    if |books| > 0 && books[0].id != updated.id {
      assert ReplaceById(books, updated)[1..] == ReplaceById(books[1..], updated);
      FindAfterReplace(books[1..], updated);
    }
  }

  // ---------------------------------------------------------------------------
  // The shell's state: the books, the open book and the once-only reopening

  datatype Shell = Shell(books: seq<Book>, currentBook: Option<Book>, isInitialized: bool)

  const InitialShell := Shell([], None, false)

  /** The book reopened at start-up: the first stored book with the last-read id, when that id is set (non-empty) and found. */
  function ReopenLastBook(current: Option<Book>, stored: seq<Book>, lastId: Option<string>): Option<Book> {
    if lastId.Some? && lastId.value != "" && FindById(stored, lastId.value).Some? then FindById(stored, lastId.value)
    else current
  }

  /** `loadBooks` with the stored books and the value `getLastReadBookId()` gives. */
  function Load(sh: Shell, stored: seq<Book>, lastId: Option<string>): Shell {
    if sh.isInitialized then Shell(stored, sh.currentBook, true)
    else Shell(stored, ReopenLastBook(sh.currentBook, stored, lastId), true)
  }

  /** `handleUpdateBook`. */
  function Update(sh: Shell, updated: Book): Shell {
    Shell(ReplaceById(sh.books, updated),
          if sh.currentBook.Some? && sh.currentBook.value.id == updated.id then Some(updated) else sh.currentBook,
          sh.isInitialized)
  }

  /**
    The first load stores the books and opens the first stored book with the last-read id
    when that id is set (neither null nor "") and found; otherwise no book is open.
  */
  lemma FirstLoadReopens(stored: seq<Book>, lastId: Option<string>)
    ensures var sh := Load(InitialShell, stored, lastId);
      && sh.books == stored && sh.isInitialized
      && sh.currentBook == (if lastId.Some? && lastId.value != "" then FindById(stored, lastId.value) else None)
      && (lastId.Some? && lastId.value != "" && (exists i :: 0 <= i < |stored| && stored[i].id == lastId.value) ==>
            sh.currentBook.Some? && sh.currentBook.value.id == lastId.value &&
            exists i :: 0 <= i < |stored| && stored[i] == sh.currentBook.value &&
              forall j :: 0 <= j < i ==> stored[j].id != lastId.value)
      && (lastId.None? || lastId.value == "" || (forall i :: 0 <= i < |stored| ==> stored[i].id != lastId.value) ==>
            sh.currentBook.None?)
  {
  }

  /** Later loads replace the books but never change the open book. */
  lemma LaterLoadsKeepCurrent(sh: Shell, s1: seq<Book>, l1: Option<string>, s2: seq<Book>, l2: Option<string>)
    ensures Load(Load(sh, s1, l1), s2, l2) == Shell(s2, Load(sh, s1, l1).currentBook, true)
  {
  }

  /** The open book is replaced only when it has the updated book's id; the list keeps its length. */
  lemma UpdateReplacesCurrentOnlyOnIdMatch(sh: Shell, updated: Book)
    ensures |Update(sh, updated).books| == |sh.books|
    ensures sh.currentBook.Some? && sh.currentBook.value.id == updated.id ==> Update(sh, updated).currentBook == Some(updated)
    ensures sh.currentBook.None? || sh.currentBook.value.id != updated.id ==> Update(sh, updated).currentBook == sh.currentBook
  {
  }

  /** The React state of `App`: `books`, `currentBook` and `isInitialized`. */
  class AppState {
    var books: seq<Book>
    var currentBook: Option<Book>
    var isInitialized: bool

    function State(): Shell
      reads this
    {
      Shell(books, currentBook, isInitialized)
    }

    constructor ()
      ensures State() == InitialShell
    {
      books, currentBook, isInitialized := [], None, false;
    }

    /** `loadBooks`: `stored` is what `getAllBooks()` resolves to, `lastId` what `getLastReadBookId()` returns. */
    method LoadBooks(stored: seq<Book>, lastId: Option<string>)
      modifies this
      ensures State() == Load(old(State()), stored, lastId)
      ensures books == stored && isInitialized
      ensures old(isInitialized) ==> currentBook == old(currentBook)
    {
      books := stored;
      if !isInitialized {
        if lastId.Some? && lastId.value != "" {
          var lastBook := FindById(stored, lastId.value);
          if lastBook.Some? {
            currentBook := lastBook;
          }
        }
        isInitialized := true;
      }
    }

    /** `handleUpdateBook` (after the book is saved). */
    method UpdateBook(updated: Book)
      modifies this
      ensures State() == Update(old(State()), updated)
    {
      books := ReplaceById(books, updated);
      if currentBook.Some? && currentBook.value.id == updated.id {
        currentBook := Some(updated);
      }
    }

    /** Opening a book from the library. */
    method OpenBook(book: Book)
      modifies this
      ensures State() == old(State()).(currentBook := Some(book))
    {
      currentBook := Some(book);
    }

    /** The back button. */
    method CloseBook()
      modifies this
      ensures State() == old(State()).(currentBook := None)
    {
      currentBook := None;
    }
  }
}
