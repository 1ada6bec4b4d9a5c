# Library catalog: handlers over the catalog and the borrow ledger

This project models the catalog logic of a small library web application.
The application keeps one document with two ordered lists: the catalog
`books`, whose entries are `{title, author}`, and the borrow ledger
`borrowed_books`, whose entries are `{title, borrower}` and may carry an
`author`. Six request handlers act on it:

- add a book at the end of the catalog;
- update the first book with a given title;
- remove the first book with a given title;
- search the catalog by title, ignoring case;
- borrow: move the first book with a title from the catalog to the ledger;
- return: move the first ledger record with a title back to the catalog.

Each handler either succeeds (`Ok`), rejects an empty form field
(`Invalid`) or finds no record with the title (`NotFound`). Every rejection
leaves both lists exactly as they were.

Layout:

- `wrappers.dfy` (module `Wrappers`): `Option`, with `GetOr` for a dict's
  `get` with a default.
- `text.dfy` (module `Text`): ASCII lower-casing and substring containment,
  the two string operations the search uses.
- `lists.dfy` (module `Lists`): `FirstIndex`, the first-match lookup, and
  `RemoveFirst`, Python's `list.remove`, which deletes the first element
  equal to a value. `Project` lists the titles of a list of records. The
  lemmas `FirstKeyIsFirst` and `RemoveFirstAt` show that removing the
  looked-up record by value deletes exactly its position.
- `catalog.dfy` (module `Catalog`): the records `Book` and `Borrowed`, the
  `Outcome` of a request, and the search filter `MatchingBooks` with its
  lemmas.
- `library.dfy` (module `LibraryApp`): class `Library` holding the two lists
  as `seq` fields, one method per handler. Two client methods,
  `BorrowThenReturn` and `AddThenRemove`, prove what a sequence of requests
  does from the handlers' contracts alone.

A ledger record might be expected to carry the book's author, but
`borrow_book` never writes one (app.py:100). `return_book` reads it with the
default "Unknown" (app.py:118). So `Borrowed.author` is an
`Option<string>`. Records written by the application hold `None`, and a
loaded document may hold `Some`. A book that is borrowed and then returned
therefore comes back with author "Unknown", when the ledger holds no earlier
record of that title. `return_book` takes the first ledger record with the
title, so an older record's author, or its missing author, wins otherwise
(see `BorrowThenReturn`).

## Model

| member | source | states |
|---|---|---|
| `Text.Lower` | app.py:81 | lower-casing keeps the length, leaves no upper-case ASCII letter, keeps every other character and shifts each letter A-Z by 32 |
| `Text.LowerIdempotent` | app.py:81 | lower-casing a lower-cased string changes nothing |
| `Text.Contains` | app.py:81 | `needle in hay` holds exactly when `needle` occurs at some position of `hay` |
| `Text.ContainsSelf` | app.py:81 | every string contains itself |
| `Lists.FirstIndex` | app.py:43 | the lookup finds nothing exactly when the title does not occur; otherwise it gives a position holding the title with no earlier occurrence |
| `Lists.RemoveFirst` | app.py:67 | `list.remove` of a present value shortens the list by one and removes one copy of that value from the multiset; an absent value changes nothing |
| `Lists.RemoveFirstAt` | app.py:64-67 | when position `i` holds the first copy of its value, removing that value deletes exactly position `i` and keeps the rest in order |
| `Lists.FirstKeyIsFirst` | app.py:96-99 | the first record with a given title is equal to no earlier record, so removing it by value removes the looked-up entry; used for books (app.py:96-99) and ledger records (app.py:114-117) alike |
| `Lists.ProjectAppend` | app.py:100 | appending a record to a list appends its title to the list of titles |
| `Catalog.MatchingBooks` | app.py:81 | the search result is no longer than the catalog and holds exactly the catalog's books whose lower-cased title contains the lower-cased query |
| `Catalog.MatchingBooksAppend` | app.py:81 | searching a concatenation gives the two results concatenated, so catalog order is kept |
| `Catalog.MatchingBooksSingle` | app.py:81 | a one-book catalog yields that book exactly when it matches |
| `Catalog.MatchingBooksCount` | app.py:81 | a matching book occurs in the result as often as in the catalog; a non-matching one never |
| `Catalog.SearchIgnoresCase` | app.py:81 | queries that lower-case to the same string select the same books |
| `Catalog.TitleFound` | tests/test_library_app.py:78-83 | a book whose title equals the query up to case is in the search result |
| `LibraryApp.Library.constructor` | app.py:10-12 | with no data file, both the catalog and the ledger are empty |
| `LibraryApp.Library.Load` | app.py:13-14 | a loaded document supplies both lists as they are |
| `LibraryApp.Library.AddBook` | app.py:27-37 | Invalid exactly when the title or author is empty, and then nothing changes; otherwise the book is appended at the end of the catalog; the ledger never changes |
| `LibraryApp.Library.UpdateBook` | app.py:41-56 | NotFound when no book has the title, checked before the fields; Invalid when a new field is empty; both change nothing; otherwise only the first book with the title is replaced by the new title and author, the rest of the catalog and the ledger unchanged |
| `LibraryApp.Library.RemoveBook` | app.py:61-70 | NotFound with no change when no book has the title; otherwise the first book with the title is deleted and the others keep their order; the ledger never changes |
| `LibraryApp.Library.SearchBook` | app.py:75-84 | Invalid with no result for an empty query; otherwise Ok, even when nothing matches, with the matching books in catalog order |
| `LibraryApp.Library.BorrowBook` | app.py:89-103 | Invalid for an empty title or borrower, then NotFound for a title not in the catalog, both with no change; otherwise the first book with the title leaves the catalog and a record of title and borrower, without author, is appended to the ledger; the total count is kept |
| `LibraryApp.Library.ReturnBook` | app.py:108-121 | Invalid for an empty title, NotFound for a title not in the ledger, both with no change; otherwise the first ledger record with the title is deleted and a book with that title and the record's author, or "Unknown", is appended to the catalog; the total count is kept |
| `LibraryApp.BorrowThenReturn` | tests/test_library_app.py:95-107 | borrowing a catalogued book and returning it restores both list sizes; with no earlier ledger record of that title the ledger is restored and the book is back at the end of the catalog with author "Unknown" |
| `LibraryApp.AddThenRemove` | app.py:26-70 | adding a book with a new title and then removing that title restores the catalog and the ledger |

## Left out

- Reading and writing the JSON data file (`load_data`, `save_data`): the document is an in-memory value. A handler's "nothing changes" result stands for "the file is not rewritten".
- Flask plumbing: routes, `flash` messages, redirects, templates, the 404 and 400 error pages, the secret key and `app.run`. Outcomes are the `Outcome` values `Ok`, `Invalid` and `NotFound`.
- A form field missing from the request (Flask answers 400): every field is modelled as a present string, possibly empty.
- The GET branches of the handlers, which only render a page.
- Concurrent requests: two requests that interleave their read-modify-write cycles can lose an update; the model is sequential.
- Text.Lower: only the ASCII letters A-Z are lower-cased; Python's `str.lower` follows full Unicode case mapping.
- Lists.RemoveFirst: on a value that is absent Python's `list.remove` raises; the handlers only remove a value they have just found, so the model returns the list unchanged there.
- Stored records of another shape: a book is its title and author, a ledger record its title, borrower and optional string author. Extra keys are not modelled. Nor is a record without a `title` key (the lookup's `book['title']` raises and the request fails with a server error), nor a ledger `author` stored as JSON null (`.get` then returns None and the returned book gets a null author).
