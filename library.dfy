/** The collection manager: a `Library` owns the insertion-ordered list of
    books and changes it by appending, toggling a read flag and removing. */
module PersonalLibrary {
  import opened Text
  import opened Books

  function NotFoundMessage(bookTitle: string): string
  {
    "Book with title '" + bookTitle + "' not found in the library."
  }

  function StatusUpdatedMessage(title: string, nowRead: bool): string
  {
    "Read status for '" + title + "' has been updated to " + (if nowRead then "read" else "unread") + "."
  }

  function DeletedMessage(bookTitle: string): string
  {
    "Book '" + bookTitle + "' deleted from the library."
  }

  /** A caller can tell success from failure by the message alone, whatever
      the titles involved. */
  lemma MessagesTellOutcome(t: string, u: string, nowRead: bool)
    ensures DeletedMessage(t) != NotFoundMessage(u)
    ensures StatusUpdatedMessage(t, nowRead) != NotFoundMessage(u)
  {
    assert DeletedMessage(t)[5] == '\'';
    assert NotFoundMessage(u)[5] == 'w';
    assert StatusUpdatedMessage(t, nowRead)[0] == 'R';
    assert NotFoundMessage(u)[0] == 'B';
  }

  class Library {
    /** The collection, in insertion order, duplicates allowed. */
    var books: seq<Book>

    /** A library holding the books loaded at start-up. */
    constructor(initial: seq<Book>)
      ensures books == initial
    {
      books := initial;
    }

    /** `add_book`: append at the end. */
    method AddBook(book: Book)
      modifies this
      ensures books == old(books) + [book]
    {
      books := books + [book];
    }

    /** `search_books`: reads the collection and leaves it as it is. */
    function SearchBooks(keyword: string): seq<Book>
      reads this
    {
      Search(books, keyword)
    }

    /** `display_books`: the numbered report of the given list, or of the whole
        collection when the list is missing or empty. */
    method DisplayBooks(bookList: Option<seq<Book>>) returns (text: string)
      ensures text == DisplayText(Effective(bookList, books))
      ensures text == NoBooksFound <==> Effective(bookList, books) == []
    {
      var shown := Effective(bookList, books);
      DisplayNoBooksIffEmpty(shown);
      if shown == [] {
        return NoBooksFound;
      }
      ghost var lines := NumberedLines(shown);
      text := "";
      var i := 0;
      while i < |shown|
        invariant 0 <= i <= |shown|
        invariant text == Concat(lines[..i])
      {
        ReportPrefixStep(shown, i);
        text := text + Line(i + 1, shown[i]);
        i := i + 1;
      }
      assert lines[..i] == lines;
    }

    /** `update_read_status`: flip the read flag of the first book whose title
        matches case-insensitively, and report the new status. */
    method UpdateReadStatus(bookTitle: string) returns (message: string)
      modifies this
      ensures books == ToggleFirst(old(books), bookTitle)
      ensures match FindFirst(old(books), bookTitle)
                case Some(i) =>
                  message == StatusUpdatedMessage(old(books)[i].title, !old(books)[i].readStatus)
                case None => message == NotFoundMessage(bookTitle)
    {
      match FindFirst(books, bookTitle) {
        case Some(i) =>
          books := books[i := books[i].(readStatus := !books[i].readStatus)];
          message := StatusUpdatedMessage(books[i].title, books[i].readStatus);
        case None =>
          message := NotFoundMessage(bookTitle);
      }
    }

    /** `get_reading_statistics`: the rendered total, read and unread counts. */
    function ReadingStatistics(): string
      reads this
    {
      StatisticsReport(Statistics(books))
    }

    /** `delete_book`: remove the first book whose title matches
        case-insensitively. */
    method DeleteBook(bookTitle: string) returns (message: string)
      modifies this
      ensures books == RemoveFirst(old(books), bookTitle)
      ensures FindFirst(old(books), bookTitle).Some? ==> message == DeletedMessage(bookTitle)
      ensures FindFirst(old(books), bookTitle).None? ==> message == NotFoundMessage(bookTitle)
    {
      match FindFirst(books, bookTitle) {
        case Some(i) =>
          books := books[..i] + books[i + 1..];
          message := DeletedMessage(bookTitle);
        case None =>
          message := NotFoundMessage(bookTitle);
      }
    }
  }
}
