# Personal library — a Dafny model of the collection manager

This project models the core of a personal book-collection tracker. A `Book`
has a title, an author, a genre, a page count and a read flag (unread by
default). A `Library` owns an insertion-ordered list of books, duplicates
allowed, and offers these operations:

- append a book;
- case-insensitive keyword search over title and author;
- a numbered text report of a list of books;
- flipping the read flag of the first book whose title matches
  case-insensitively;
- deleting that first match;
- read/unread statistics.

The record is the datatype `Books.Book`. Python's default `read_status=False`
corresponds to writing `Book(title, author, genre, pages, false)`.

A file stores the collection as one record per book, and the model covers the
mapping between a book and its record.

Layout:

- `text.dfy` (module `Text`): ASCII case folding, substring containment, and
  the decimal rendering of integers and booleans used in the report strings.
- `books.dfy` (module `Books`): the `Book` datatype and what each operation
  does to a `seq<Book>`: search, first title match, toggle, removal, counts,
  and the report text. It also holds the lemmas about these.
- `records.dfy` (module `Records`): a book to its stored record and back, for
  one book and for a whole list.
- `library.dfy` (module `PersonalLibrary`): the `Library` class. Its field
  `books: seq<Book>` is reassigned by `AddBook`, `UpdateReadStatus` and
  `DeleteBook`. `DisplayBooks` builds the report in a loop. The result
  messages are also defined here. The class functions `SearchBooks`
  (`search_books`) and `ReadingStatistics` (`get_reading_statistics`) only
  read the field. They apply `Books.Search`, and `Books.Statistics` rendered
  by `Books.StatisticsReport`, to `books`. The rows below for those functions
  state their properties.

One behaviour of the report is easy to misread, and the model keeps it. An
explicitly empty list does not report "No books found.". The code computes
`book_list or self.books` (GUI-personal-library.py:28), so an empty list
falls back to the whole collection. "No books found." appears only when the
collection is empty too (`Books.EffectiveFallback`,
`Books.DisplayNoBooksIffEmpty`).

## Model

| member | source | states |
|---|---|---|
| `Text.Lower` | GUI-personal-library.py:24 | case folding keeps the length, folds each character, and leaves no upper-case ASCII letter |
| `Text.ContainsIff` | GUI-personal-library.py:24 | the containment test holds exactly when the needle occurs at some position of the string |
| `Text.ContainsEmpty` | GUI-personal-library.py:24 | the empty string is contained in every string |
| `Text.NatToStringRoundTrip` | GUI-personal-library.py:34 | the decimal digits printed for a natural number denote that number |
| `Text.IntToStringRoundTrip` | GUI-personal-library.py:34 | a printed integer is a sign followed by digits, and reading it back gives the same integer |
| `Books.Search` | GUI-personal-library.py:23-25 | the search result is no longer than the collection, and every book in it matches the keyword in its title or author, case-insensitively |
| `Books.SearchSelectsMatches` | GUI-personal-library.py:23-25 | the search result is exactly the books at the matching positions, taken at strictly ascending indices: a subsequence in original order that leaves out no match |
| `Books.SearchEmptyKeyword` | GUI-personal-library.py:24 | searching for the empty keyword returns the whole collection |
| `Books.SearchAfterAppend` | GUI-personal-library.py:20-25 | after a book is appended, a search returns the old result, followed by the new book exactly when it matches |
| `Books.FindFirst` | GUI-personal-library.py:39 | the first-match lookup returns an index whose title matches case-insensitively with no match before it; it returns nothing only when no title matches |
| `Books.FindFirstTitlesOnly` | GUI-personal-library.py:39 | the first match depends only on the titles, so changing read flags cannot move it |
| `Books.ToggleFirst` | GUI-personal-library.py:38-45 | the length is kept, and every book keeps its title, author, genre and pages; a read flag changes exactly at the first match, and nothing changes when there is no match |
| `Books.ToggleTwice` | GUI-personal-library.py:38-43 | toggling the same title twice restores the original collection |
| `Books.RemoveFirst` | GUI-personal-library.py:53-59 | with no match the collection is unchanged; otherwise it is one shorter, the books before the first match stay in place and the books after it shift down by one, in order |
| `Books.RemoveFirstMultiset` | GUI-personal-library.py:56 | deletion removes exactly one copy of the matched book and keeps every other book |
| `Books.CountRead` | GUI-personal-library.py:49 | the read count never exceeds the number of books |
| `Books.ReadPlusUnread` | GUI-personal-library.py:48-50 | read books plus unread books make up the total |
| `Books.CountReadConcat` | GUI-personal-library.py:49 | the read count of two lists joined together is the sum of their read counts |
| `Books.CountReadAppend` | GUI-personal-library.py:20-21 | appending a book raises the read count by one exactly when that book is read |
| `Books.CountReadToggle` | GUI-personal-library.py:41 | a toggle changes the read count by exactly one (up for an unread book, down for a read one), and changes nothing when no title matches |
| `Books.CountReadRemove` | GUI-personal-library.py:56 | a deletion lowers the read count by one exactly when the removed book was read, and changes nothing when no title matches |
| `Books.StatisticsReportReadsBack` | GUI-personal-library.py:51 | two statistics reports are equal exactly when their total, read and unread figures are equal: each figure is printed in decimal on its own labelled line and reads back |
| `Books.Statistics` | GUI-personal-library.py:47-51 | the total is the number of books and read is the number of read books; the reported unread figure equals the number of unread books, and both figures lie between 0 and the total |
| `Books.EffectiveFallback` | GUI-personal-library.py:28 | a missing or empty list falls back to the whole collection, and a non-empty list is shown as given; nothing is shown only when both the list and the collection are empty |
| `Books.LineNumberReadsBack` | GUI-personal-library.py:34 | the decimal number in front of a report line, up to its first dot, reads back: equal lines carry equal numbers |
| `Text.IntToStringInjective` | GUI-personal-library.py:34 | distinct integers are printed as distinct strings |
| `Books.ReportPrefixStep` | GUI-personal-library.py:33-34 | the report of the first i+1 books is the report of the first i books followed by the line for book i numbered i+1 |
| `Books.DisplayNoBooksIffEmpty` | GUI-personal-library.py:29-35 | the report text is "No books found." exactly when the shown list is empty |
| `Records.ToRecord` | GUI-personal-library.py:74 | a saved record has exactly the keys title, author, genre, pages and read_status |
| `Records.FromRecord` | GUI-personal-library.py:66 | loading succeeds exactly when the five fields are present with the right kinds, and the loaded book saves back to the same five fields |
| `Records.RecordRoundTrip` | GUI-personal-library.py:66-74 | saving a book and loading its record gives the same book |
| `Records.ToRecords` | GUI-personal-library.py:72-74 | one record per book, in order |
| `Records.FromRecords` | GUI-personal-library.py:65-67 | loading a list succeeds exactly when every record is well formed, and then yields one book per record, in order |
| `Records.SaveLoadRoundTrip` | GUI-personal-library.py:61-76 | saving a collection and loading it back reconstructs the same books in the same order |
| `PersonalLibrary.MessagesTellOutcome` | GUI-personal-library.py:43-59 | the deleted and status-updated messages can never equal a not-found message |
| `PersonalLibrary.Library.constructor` | GUI-personal-library.py:16-18 | a library starts with the books it was given |
| `PersonalLibrary.Library.AddBook` | GUI-personal-library.py:20-21 | the new book is appended at the end and the existing books are unchanged |
| `PersonalLibrary.Library.DisplayBooks` | GUI-personal-library.py:27-35 | the loop builds one line per shown book, numbered 1 to n in list order; the result is "No books found." exactly when the shown list is empty |
| `PersonalLibrary.Library.UpdateReadStatus` | GUI-personal-library.py:38-45 | the collection becomes the toggled one, and the message reports the stored title and the new status, or says the title was not found |
| `PersonalLibrary.Library.DeleteBook` | GUI-personal-library.py:53-59 | the collection loses exactly its first match, and the message reports the deletion, or says the title was not found |

## Left out

- `Text.Lower`: folds only ASCII letters. Python's full Unicode `str.lower` is not modelled, including characters whose lower case is longer than one character.
- Book identity and aliasing: books are values here. In Python they are shared objects, so a toggle is also visible through a search result taken earlier. The model does not capture that.
- File handling is not modelled: opening, reading and writing `library_data.json`, `json.load`/`json.dump`, and the `FileNotFoundError` branch. `Records` models only the field mapping, and it assumes JSON round-trips strings, integers and booleans unchanged.
- `Records.FromRecord`: a missing key yields no book, where Python raises `KeyError` out of `load_data`. A value of the wrong kind is also rejected, where Python would store any value in the book.
- `Records.FromRecords`: all-or-nothing. The books appended before a bad record are not kept, because in the source the `KeyError` aborts construction of the library anyway.
- `Records.Json`: floats, nested arrays and objects are not modelled.
- `Library.__init__` calling `load_data`: the constructor receives the already-loaded list instead.
- `PersonalLibrary.Library.DisplayBooks`: `book_list` is an optional list of books. Python's other falsy values are not modelled.
- The whole desktop interface (`LibraryGUI`), the page-count parse with its console fallback, and the `__main__` block are not modelled. They are presentation and console I/O.
