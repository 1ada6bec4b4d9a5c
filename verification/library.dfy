/** The request handlers of the library application, acting on the loaded
    document: the catalog `books` and the borrow ledger `borrowed`. Each
    handler either succeeds and updates the document, or reports Invalid or
    NotFound and leaves the document exactly as it was. */
module LibraryApp {
  import opened Wrappers
  import opened Lists
  import opened Catalog

  class Library {
    var books: seq<Book>
    var borrowed: seq<Borrowed>

    /** The document used when no data file exists yet. */
    constructor ()
      ensures books == [] && borrowed == []
    {
      books := [];
      borrowed := [];
    }

    /** A document read from an existing data file. */
    constructor Load(books: seq<Book>, borrowed: seq<Borrowed>)
      ensures this.books == books && this.borrowed == borrowed
    {
      this.books := books;
      this.borrowed := borrowed;
    }

    /** Adds a book at the end of the catalog; both fields must be non-empty. */
    method AddBook(title: string, author: string) returns (res: Outcome)
      modifies this
      ensures res == (if title == [] || author == [] then Invalid else Ok)
      ensures res == Ok ==> books == old(books) + [Book(title, author)]
      ensures res != Ok ==> books == old(books)
      ensures borrowed == old(borrowed)
    {
      if title == [] || author == [] {
        return Invalid;
      }
      books := books + [Book(title, author)];
      res := Ok;
    }

    /** Rewrites the first book titled `title`. The lookup comes first, so an
        unknown title is NotFound even when the new fields are empty. */
    method UpdateBook(title: string, newTitle: string, newAuthor: string) returns (res: Outcome)
      modifies this
      ensures res == (if title !in Titles(old(books)) then NotFound
                      else if newTitle == [] || newAuthor == [] then Invalid
                      else Ok)
      ensures res != Ok ==> books == old(books)
      ensures res == Ok ==>
                var i := FirstIndex(Titles(old(books)), title).value;
                books == old(books)[i := Book(newTitle, newAuthor)]
      ensures borrowed == old(borrowed)
    {
      var found := FirstIndex(Titles(books), title);
      if found.None? {
        return NotFound;
      }
      if newTitle == [] || newAuthor == [] {
        return Invalid;
      }
      var i := found.value;
      books := books[i := books[i].(title := newTitle)];
      books := books[i := books[i].(author := newAuthor)];
      res := Ok;
    }

    /** Deletes the first book titled `title` from the catalog. */
    method RemoveBook(title: string) returns (res: Outcome)
      modifies this
      ensures res == (if title !in Titles(old(books)) then NotFound else Ok)
      ensures res != Ok ==> books == old(books)
      ensures res == Ok ==>
                var i := FirstIndex(Titles(old(books)), title).value;
                books == old(books)[..i] + old(books)[i + 1..]
      ensures borrowed == old(borrowed)
    {
      var found := FirstIndex(Titles(books), title);
      if found.None? {
        return NotFound;
      }
      var book := books[found.value];
      FirstKeyIsFirst(books, BookTitle, title, found.value);
      RemoveFirstAt(books, found.value);
      books := RemoveFirst(books, book);
      res := Ok;
    }

    /** The books whose title contains `query`, ignoring case, in catalog
        order. An empty query is Invalid; an empty result is still Ok. */
    method SearchBook(query: string) returns (res: Outcome, found: seq<Book>)
      ensures res == (if query == [] then Invalid else Ok)
      ensures res == Invalid ==> found == []
      ensures res == Ok ==> found == MatchingBooks(books, query)
    {
      if query == [] {
        return Invalid, [];
      }
      res, found := Ok, MatchingBooks(books, query);
    }

    /** Moves the first book titled `title` from the catalog to the end of
        the ledger, recording the borrower but not the author. */
    method BorrowBook(title: string, borrower: string) returns (res: Outcome)
      modifies this
      ensures res == (if title == [] || borrower == [] then Invalid
                      else if title !in Titles(old(books)) then NotFound
                      else Ok)
      ensures res != Ok ==> books == old(books) && borrowed == old(borrowed)
      ensures res == Ok ==>
                var i := FirstIndex(Titles(old(books)), title).value;
                books == old(books)[..i] + old(books)[i + 1..] &&
                borrowed == old(borrowed) + [Borrowed(title, borrower, None)]
      ensures res == Ok ==> |books| + |borrowed| == old(|books| + |borrowed|)
    {
      if title == [] || borrower == [] {
        return Invalid;
      }
      var found := FirstIndex(Titles(books), title);
      if found.None? {
        return NotFound;
      }
      var book := books[found.value];
      FirstKeyIsFirst(books, BookTitle, title, found.value);
      RemoveFirstAt(books, found.value);
      books := RemoveFirst(books, book);
      borrowed := borrowed + [Borrowed(title, borrower, None)];
      res := Ok;
    }

    /** Moves the first ledger record titled `title` back to the end of the
        catalog, with the record's author or "Unknown" when it has none. */
    method ReturnBook(title: string) returns (res: Outcome)
      modifies this
      ensures res == (if title == [] then Invalid
                      else if title !in BorrowedTitles(old(borrowed)) then NotFound
                      else Ok)
      ensures res != Ok ==> books == old(books) && borrowed == old(borrowed)
      ensures res == Ok ==>
                var i := FirstIndex(BorrowedTitles(old(borrowed)), title).value;
                borrowed == old(borrowed)[..i] + old(borrowed)[i + 1..] &&
                books == old(books) + [Book(title, old(borrowed)[i].author.GetOr(UnknownAuthor))]
      ensures res == Ok ==> |books| + |borrowed| == old(|books| + |borrowed|)
    {
      if title == [] {
        return Invalid;
      }
      var found := FirstIndex(BorrowedTitles(borrowed), title);
      if found.None? {
        return NotFound;
      }
      var record := borrowed[found.value];
      FirstKeyIsFirst(borrowed, RecordTitle, title, found.value);
      RemoveFirstAt(borrowed, found.value);
      borrowed := RemoveFirst(borrowed, record);
      books := books + [Book(title, record.author.GetOr(UnknownAuthor))];
      res := Ok;
    }
  }

  /** Borrowing a catalogued book and returning it restores the sizes of
      both lists. The book comes back at the end of the catalog; when the
      ledger held no earlier record of that title it comes back with author
      "Unknown", since borrowing does not keep the author, and the ledger is
      restored exactly. */
  method BorrowThenReturn(lib: Library, title: string, borrower: string) returns (lent: Outcome, back: Outcome)
    requires title != [] && borrower != [] && title in Titles(lib.books)
    modifies lib
    ensures lent == Ok && back == Ok
    ensures |lib.books| == old(|lib.books|) && |lib.borrowed| == old(|lib.borrowed|)
    ensures title !in BorrowedTitles(old(lib.borrowed)) ==>
              var i := FirstIndex(Titles(old(lib.books)), title).value;
              lib.books == old(lib.books)[..i] + old(lib.books)[i + 1..] + [Book(title, UnknownAuthor)] &&
              lib.borrowed == old(lib.borrowed)
  {
    ghost var books0, borrowed0 := lib.books, lib.borrowed;
    lent := lib.BorrowBook(title, borrower);
    ProjectAppend(borrowed0, Borrowed(title, borrower, None), RecordTitle);
    back := lib.ReturnBook(title);
    if title !in BorrowedTitles(borrowed0) {
      var n := |borrowed0|;
      assert FirstIndex(BorrowedTitles(borrowed0 + [Borrowed(title, borrower, None)]), title) == Some(n);
    }
  }

  /** Removing a newly added book undoes the addition when no book of that
      title was in the catalog before. */
  method AddThenRemove(lib: Library, title: string, author: string) returns (added: Outcome, removed: Outcome)
    requires title != [] && author != [] && title !in Titles(lib.books)
    modifies lib
    ensures added == Ok && removed == Ok
    ensures lib.books == old(lib.books) && lib.borrowed == old(lib.borrowed)
  {
    ghost var books0 := lib.books;
    added := lib.AddBook(title, author);
    ProjectAppend(books0, Book(title, author), BookTitle);
    removed := lib.RemoveBook(title);
    assert FirstIndex(Titles(books0 + [Book(title, author)]), title) == Some(|books0|);
  }
}
