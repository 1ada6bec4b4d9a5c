/** The records of the library document and the read-only logic over them:
    title lookups and the case-insensitive title search. */
module Catalog {
  import opened Wrappers
  import opened Text
  import opened Lists

  /** An entry of the catalog (`books`). */
  datatype Book = Book(title: string, author: string)

  /** An entry of the borrow ledger (`borrowed_books`). Records written by
      the application carry no author; a stored document may hold one. */
  datatype Borrowed = Borrowed(title: string, borrower: string, author: Option<string>)

  /** How a request ends: it succeeds, a required field is empty, or no
      record has the requested title. */
  datatype Outcome = Ok | Invalid | NotFound

  /** The default author a returned book gets when its ledger record has none. */
  const UnknownAuthor := "Unknown"

  function BookTitle(b: Book): string {
    b.title
  }

  function RecordTitle(r: Borrowed): string {
    r.title
  }

  /** The titles of the catalog, in order. */
  function Titles(books: seq<Book>): seq<string> {
    Project(books, BookTitle)
  }

  /** The titles of the ledger, in order. */
  function BorrowedTitles(ledger: seq<Borrowed>): seq<string> {
    Project(ledger, RecordTitle)
  }

  /** A book matches a search when the lower-cased query occurs in its
      lower-cased title. */
  predicate Matches(query: string, b: Book) {
    Contains(Lower(b.title), Lower(query))
  }

  /** The books that match `query`, in catalog order. */
  function MatchingBooks(books: seq<Book>, query: string): (r: seq<Book>)
    ensures |r| <= |books|
    ensures forall b :: b in r <==> b in books && Matches(query, b)
  {
    if books == [] then []
    else
      var rest := MatchingBooks(books[1..], query);
      assert books == [books[0]] + books[1..];
      if Matches(query, books[0]) then [books[0]] + rest else rest
  }

  /** Searching a concatenation searches each part and keeps them in order;
      with the one-element case below this pins the result down to the
      order-preserving selection of the matching books. */
  lemma {:induction false} MatchingBooksAppend(a: seq<Book>, b: seq<Book>, query: string)
    ensures MatchingBooks(a + b, query) == MatchingBooks(a, query) + MatchingBooks(b, query)
  {
    if a != [] {
      assert (a + b)[1..] == a[1..] + b;
      MatchingBooksAppend(a[1..], b, query);
    } else {
      assert a + b == b;
    }
  }

  lemma MatchingBooksSingle(b: Book, query: string)
    ensures MatchingBooks([b], query) == if Matches(query, b) then [b] else []
  {
    assert [b][1..] == [];
  }

  /** A matching book appears in the result as often as in the catalog, a
      book that does not match never appears. */
  lemma {:induction false} MatchingBooksCount(books: seq<Book>, query: string, b: Book)
    ensures multiset(MatchingBooks(books, query))[b] == if Matches(query, b) then multiset(books)[b] else 0
  {
    if books != [] {
      MatchingBooksCount(books[1..], query, b);
      assert books == [books[0]] + books[1..];
    }
  }

  /** The search ignores case: queries that lower-case alike select the same books. */
  lemma {:induction false} SearchIgnoresCase(books: seq<Book>, q1: string, q2: string)
    requires Lower(q1) == Lower(q2)
    ensures MatchingBooks(books, q1) == MatchingBooks(books, q2)
  {
    if books != [] {
      SearchIgnoresCase(books[1..], q1, q2);
    }
  }

  /** A book whose title equals the query, up to case, is found. */
  lemma TitleFound(books: seq<Book>, query: string, b: Book)
    requires b in books && Lower(b.title) == Lower(query)
    ensures b in MatchingBooks(books, query)
  {
    ContainsSelf(Lower(query));
  }
}
