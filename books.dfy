/** The book record and the value-level meaning of every collection
    operation: keyword search, first case-insensitive title match, the
    read-flag toggle, removal, the read/unread counts and the numbered
    report. The `Library` class applies these to its mutable list. */
module Books {
  import opened Text

  datatype Option<T> = None | Some(value: T)

  /** One book of the collection. A book created without a read flag is
      `Book(title, author, genre, pages, false)`. */
  datatype Book = Book(title: string, author: string, genre: string, pages: int, readStatus: bool)

  // ---------------------------------------------------------------------
  // Search

  /** The keyword, case-folded, occurs in the case-folded title or author. */
  predicate KeywordMatches(b: Book, keyword: string)
  {
    Contains(Lower(b.title), Lower(keyword)) || Contains(Lower(b.author), Lower(keyword))
  }

  /** The books that match `keyword`, in collection order. */
  function Search(books: seq<Book>, keyword: string): (r: seq<Book>)
    ensures |r| <= |books|
    ensures forall j :: 0 <= j < |r| ==> KeywordMatches(r[j], keyword)
    decreases |books|
  {
    if books == [] then []
    else
      var last := books[|books| - 1];
      Search(books[..|books| - 1], keyword) + (if KeywordMatches(last, keyword) then [last] else [])
  }

  /** The positions of the matching books, ascending. */
  function MatchIndices(books: seq<Book>, keyword: string): (idx: seq<nat>)
    decreases |books|
  {
    if books == [] then []
    else
      var n := |books| - 1;
      MatchIndices(books[..n], keyword) + (if KeywordMatches(books[n], keyword) then [n] else [])
  }

  /** The indices of `idx` pick out `r` from `s`, strictly ascending: `r` is a
      subsequence of `s` through `idx`. */
  ghost predicate PicksOut<T>(r: seq<T>, s: seq<T>, idx: seq<nat>)
  {
    && |idx| == |r|
    && (forall j :: 0 <= j < |idx| ==> idx[j] < |s| && r[j] == s[idx[j]])
    && (forall j, j' :: 0 <= j < j' < |idx| ==> idx[j] < idx[j'])
  }

  /** Search keeps exactly the matching books: the result is the subsequence
      of `books` at the matching positions, in their original order. */
  lemma {:induction false} SearchSelectsMatches(books: seq<Book>, keyword: string)
    ensures PicksOut(Search(books, keyword), books, MatchIndices(books, keyword))
    ensures forall i :: 0 <= i < |books| ==>
              (i in MatchIndices(books, keyword) <==> KeywordMatches(books[i], keyword))
    decreases |books|
  {
    if books != [] {
      var n := |books| - 1;
      var init := books[..n];
      SearchSelectsMatches(init, keyword);
      var r0, idx0 := Search(init, keyword), MatchIndices(init, keyword);
      var m := KeywordMatches(books[n], keyword);
      var r, idx := Search(books, keyword), MatchIndices(books, keyword);
      assert r == r0 + (if m then [books[n]] else []);
      assert idx == idx0 + (if m then [n] else []);
      assert forall j :: 0 <= j < |idx0| ==> idx0[j] < n;
      forall j | 0 <= j < |idx|
        ensures idx[j] < |books| && r[j] == books[idx[j]]
      {
        if j < |idx0| {
          assert idx[j] == idx0[j] && r[j] == r0[j] && books[idx0[j]] == init[idx0[j]];
        }
      }
      forall i | 0 <= i < |books|
        ensures (i in idx <==> KeywordMatches(books[i], keyword))
      {
        if i < n {
          assert books[i] == init[i];
          assert i in idx <==> i in idx0;
        } else {
          assert n !in idx0;
        }
      }
    }
  }

  /** An empty keyword matches every book, so search returns the collection. */
  lemma {:induction false} SearchEmptyKeyword(books: seq<Book>)
    ensures Search(books, "") == books
    decreases |books|
  {
    if books != [] {
      var n := |books| - 1;
      SearchEmptyKeyword(books[..n]);
      assert Lower("") == "";
      ContainsEmpty(Lower(books[n].title));
      assert books[..n] + [books[n]] == books;
    }
  }

  /** Appending a book extends the search result by that book exactly when it
      matches. */
  lemma SearchAfterAppend(books: seq<Book>, b: Book, keyword: string)
    ensures Search(books + [b], keyword)
         == Search(books, keyword) + (if KeywordMatches(b, keyword) then [b] else [])
  {
    assert (books + [b])[..|books|] == books;
  }

  // ---------------------------------------------------------------------
  // First case-insensitive title match

  /** Titles equal after case folding. */
  predicate TitleMatches(b: Book, title: string)
  {
    Lower(b.title) == Lower(title)
  }

  /** The index of the first book whose title matches `title`, if any. */
  function FindFirst(books: seq<Book>, title: string): (r: Option<nat>)
    ensures r.Some? ==> r.value < |books| && TitleMatches(books[r.value], title)
    ensures r.Some? ==> forall j :: 0 <= j < r.value ==> !TitleMatches(books[j], title)
    ensures r.None? ==> forall j :: 0 <= j < |books| ==> !TitleMatches(books[j], title)
  {
    if books == [] then None
    else if TitleMatches(books[0], title) then Some(0)
    else match FindFirst(books[1..], title)
      case None => None
      case Some(i) => Some(i + 1)
  }

  /** The first match depends on nothing but the titles. */
  lemma {:induction false} FindFirstTitlesOnly(books: seq<Book>, other: seq<Book>, title: string)
    requires |other| == |books|
    requires forall j :: 0 <= j < |books| ==> other[j].title == books[j].title
    ensures FindFirst(other, title) == FindFirst(books, title)
  {
    if books != [] {
      FindFirstTitlesOnly(books[1..], other[1..], title);
    }
  }

  /** Everything but the read flag agrees. */
  predicate SameExceptRead(a: Book, b: Book)
  {
    a.title == b.title && a.author == b.author && a.genre == b.genre && a.pages == b.pages
  }

  /** The collection after `update_read_status(title)`. */
  function ToggleFirst(books: seq<Book>, title: string): (r: seq<Book>)
    ensures |r| == |books|
    ensures forall j :: 0 <= j < |books| ==> SameExceptRead(r[j], books[j])
    ensures forall j :: 0 <= j < |books| ==>
              (r[j].readStatus != books[j].readStatus <==> FindFirst(books, title) == Some(j))
  {
    match FindFirst(books, title)
    case None => books
    case Some(i) => books[i := books[i].(readStatus := !books[i].readStatus)]
  }

  /** Toggling the same title twice restores every read flag. */
  lemma ToggleTwice(books: seq<Book>, title: string)
    ensures ToggleFirst(ToggleFirst(books, title), title) == books
  {
    var once := ToggleFirst(books, title);
    FindFirstTitlesOnly(books, once, title);
  }

  /** The collection after `delete_book(title)`. */
  function RemoveFirst(books: seq<Book>, title: string): (r: seq<Book>)
    ensures FindFirst(books, title).None? ==> r == books
    ensures FindFirst(books, title).Some? ==>
              var i := FindFirst(books, title).value;
              |r| == |books| - 1
              && (forall j :: 0 <= j < i ==> r[j] == books[j])
              && (forall j :: i <= j < |r| ==> r[j] == books[j + 1])
  {
    match FindFirst(books, title)
    case None => books
    case Some(i) => books[..i] + books[i + 1..]
  }

  /** Removal takes out exactly one copy of the matched book. */
  lemma RemoveFirstMultiset(books: seq<Book>, title: string)
    requires FindFirst(books, title).Some?
    ensures multiset(RemoveFirst(books, title)) + multiset{books[FindFirst(books, title).value]}
         == multiset(books)
  {
    var i := FindFirst(books, title).value;
    MultisetRemoveAt(books, i);
  }

  lemma MultisetRemoveAt<T>(s: seq<T>, i: nat)
    requires i < |s|
    ensures multiset(s[..i] + s[i + 1..]) + multiset{s[i]} == multiset(s)
  {
    assert s == s[..i] + [s[i]] + s[i + 1..];
  }

  // ---------------------------------------------------------------------
  // Counting

  /** `sum(book.read_status for book in books)`. */
  function CountRead(books: seq<Book>): (n: nat)
    ensures n <= |books|
  {
    if books == [] then 0 else (if books[0].readStatus then 1 else 0) + CountRead(books[1..])
  }

  /** The number of books not yet read. */
  function CountUnread(books: seq<Book>): (n: nat)
  {
    if books == [] then 0 else (if books[0].readStatus then 0 else 1) + CountUnread(books[1..])
  }

  lemma {:induction false} ReadPlusUnread(books: seq<Book>)
    ensures CountRead(books) + CountUnread(books) == |books|
  {
    if books != [] {
      ReadPlusUnread(books[1..]);
    }
  }

  /** Counting read books distributes over concatenation. */
  lemma {:induction false} CountReadConcat(a: seq<Book>, b: seq<Book>)
    ensures CountRead(a + b) == CountRead(a) + CountRead(b)
  {
    if a != [] {
      CountReadConcat(a[1..], b);
      assert (a + b)[0] == a[0];
      assert (a + b)[1..] == a[1..] + b;
    } else {
      assert a + b == b;
    }
  }

  /** Adding a book adds one read book exactly when it is read. */
  lemma CountReadAppend(books: seq<Book>, b: Book)
    ensures CountRead(books + [b]) == CountRead(books) + (if b.readStatus then 1 else 0)
  {
    CountReadConcat(books, [b]);
  }

  /** A toggle moves the read count by one, up or down by the flag it flips. */
  lemma CountReadToggle(books: seq<Book>, title: string)
    ensures FindFirst(books, title).None? ==> CountRead(ToggleFirst(books, title)) == CountRead(books)
    ensures FindFirst(books, title).Some? ==>
              var i := FindFirst(books, title).value;
              CountRead(ToggleFirst(books, title))
              == CountRead(books) + (if books[i].readStatus then -1 else 1)
  {
    if FindFirst(books, title).Some? {
      var i := FindFirst(books, title).value;
      var r := ToggleFirst(books, title);
      assert books == books[..i] + [books[i]] + books[i + 1..];
      assert r == books[..i] + [r[i]] + books[i + 1..];
      CountReadConcat(books[..i] + [books[i]], books[i + 1..]);
      CountReadConcat(books[..i], [books[i]]);
      CountReadConcat(books[..i] + [r[i]], books[i + 1..]);
      CountReadConcat(books[..i], [r[i]]);
    }
  }

  /** A removal lowers the read count by one exactly when the removed book was
      read. */
  lemma CountReadRemove(books: seq<Book>, title: string)
    ensures FindFirst(books, title).None? ==> CountRead(RemoveFirst(books, title)) == CountRead(books)
    ensures FindFirst(books, title).Some? ==>
              var i := FindFirst(books, title).value;
              CountRead(RemoveFirst(books, title))
              == CountRead(books) - (if books[i].readStatus then 1 else 0)
  {
    if FindFirst(books, title).Some? {
      var i := FindFirst(books, title).value;
      assert books == books[..i] + [books[i]] + books[i + 1..];
      CountReadConcat(books[..i] + [books[i]], books[i + 1..]);
      CountReadConcat(books[..i], [books[i]]);
      CountReadConcat(books[..i], books[i + 1..]);
    }
  }

  /** The three figures of the statistics report. */
  datatype Stats = Stats(total: int, read: int, unread: int)

  /** `get_reading_statistics`: total, read, and total minus read. */
  function Statistics(books: seq<Book>): (st: Stats)
    ensures st.total == |books| && st.read == CountRead(books)
    ensures st.unread == CountUnread(books)
    ensures 0 <= st.read <= st.total && 0 <= st.unread <= st.total
  {
    ReadPlusUnread(books);
    var total := |books|;
    var read := CountRead(books);
    Stats(total, read, total - read)
  }

  /** The text `get_reading_statistics` returns: a head line, then the three
      labelled figures on lines of their own. */
  function StatisticsReport(st: Stats): string
  {
    "Reading statistics \nTotal books: "
    + (IntToString(st.total) + "\n"
       + ("Read books: " + (IntToString(st.read) + "\n"
          + ("Unread books: " + IntToString(st.unread)))))
  }

  /** The statistics report determines its three figures: two reports are
      equal exactly when their total, read and unread figures are. */
  lemma StatisticsReportReadsBack(a: Stats, b: Stats)
    ensures StatisticsReport(a) == StatisticsReport(b) <==> a == b
  {
    if StatisticsReport(a) == StatisticsReport(b) {
      var ta, ra, ua := IntToString(a.total), IntToString(a.read), IntToString(a.unread);
      var tb, rb, ub := IntToString(b.total), IntToString(b.read), IntToString(b.unread);
      var tailA := ra + "\n" + ("Unread books: " + ua);
      var tailB := rb + "\n" + ("Unread books: " + ub);
      StripPrefix("Reading statistics \nTotal books: ", ta + "\n" + ("Read books: " + tailA),
                  tb + "\n" + ("Read books: " + tailB));
      IntToStringAvoids(a.total, '\n');
      IntToStringAvoids(b.total, '\n');
      SplitAtSeparator(ta, "Read books: " + tailA, tb, "Read books: " + tailB, '\n');
      StripPrefix("Read books: ", tailA, tailB);
      IntToStringAvoids(a.read, '\n');
      IntToStringAvoids(b.read, '\n');
      SplitAtSeparator(ra, "Unread books: " + ua, rb, "Unread books: " + ub, '\n');
      StripPrefix("Unread books: ", ua, ub);
      IntToStringInjective(a.total, b.total);
      IntToStringInjective(a.read, b.read);
      IntToStringInjective(a.unread, b.unread);
    }
  }

  // ---------------------------------------------------------------------
  // Numbered report

  const NoBooksFound: string := "No books found."

  /** `book_list or self.books`: a missing or empty list falls back to the
      whole collection. */
  function Effective(bookList: Option<seq<Book>>, books: seq<Book>): (shown: seq<Book>)
  {
    match bookList
    case Some(list) => if list != [] then list else books
    case None => books
  }

  /** Which list gets displayed: the given one when it is non-empty, else the
      collection; so nothing is shown only when both are empty. */
  lemma EffectiveFallback(bookList: Option<seq<Book>>, books: seq<Book>)
    ensures Effective(Some([]), books) == Effective(None, books) == books
    ensures bookList.Some? && bookList.value != [] ==> Effective(bookList, books) == bookList.value
    ensures Effective(bookList, books) == [] <==>
              books == [] && (bookList.None? || bookList.value == [])
  {
  }

  /** One report line for book `b` numbered `n`. */
  function Line(n: int, b: Book): string
  {
    IntToString(n) + "." + LineAfterNumber(b)
  }

  /** The number in front of a report line reads back: equal lines carry
      equal numbers. */
  lemma LineNumberReadsBack(n: int, b: Book, m: int, c: Book)
    ensures Line(n, b) == Line(m, c) ==> n == m
  {
    if Line(n, b) == Line(m, c) {
      var restB := LineAfterNumber(b);
      var restC := LineAfterNumber(c);
      IntToStringAvoids(n, '.');
      IntToStringAvoids(m, '.');
      SplitAtSeparator(IntToString(n), restB, IntToString(m), restC, '.');
      IntToStringInjective(n, m);
    }
  }

  /** What follows the number and its dot on a report line. */
  function LineAfterNumber(b: Book): string
  {
    " Title: " + b.title + ", Author: " + b.author + ", Genre: " + b.genre
    + ", Pages: " + IntToString(b.pages) + ", Read: " + BoolToString(b.readStatus) + ".\n"
  }

  /** The report lines of `books`: line `i` shows `books[i]` numbered `i + 1`. */
  function NumberedLines(books: seq<Book>): seq<string>
  {
    seq(|books|, i requires 0 <= i < |books| => Line(i + 1, books[i]))
  }

  function Concat(parts: seq<string>): string
  {
    if parts == [] then "" else parts[0] + Concat(parts[1..])
  }

  lemma {:induction false} ConcatSnoc(parts: seq<string>, last: string)
    ensures Concat(parts + [last]) == Concat(parts) + last
  {
    if parts != [] {
      assert (parts + [last])[1..] == parts[1..] + [last];
      ConcatSnoc(parts[1..], last);
    }
  }

  /** The report of the first `i + 1` books extends that of the first `i` by
      line `i + 1`. */
  lemma ReportPrefixStep(shown: seq<Book>, i: nat)
    requires i < |shown|
    ensures Concat(NumberedLines(shown)[..i + 1])
         == Concat(NumberedLines(shown)[..i]) + Line(i + 1, shown[i])
  {
    var lines := NumberedLines(shown);
    ConcatPrefixStep(lines, i);
  }

  lemma ConcatPrefixStep(lines: seq<string>, i: nat)
    requires i < |lines|
    ensures Concat(lines[..i + 1]) == Concat(lines[..i]) + lines[i]
  {
    assert lines[..i + 1] == lines[..i] + [lines[i]];
    ConcatSnoc(lines[..i], lines[i]);
  }

  /** What `display_books` returns for the list it actually shows. */
  function DisplayText(shown: seq<Book>): string
  {
    if shown == [] then NoBooksFound else Concat(NumberedLines(shown))
  }

  /** The not-found text appears exactly when the shown list is empty: a
      report always starts with the number 1. */
  lemma DisplayNoBooksIffEmpty(shown: seq<Book>)
    ensures DisplayText(shown) == NoBooksFound <==> shown == []
  {
    if shown != [] {
      var lines := NumberedLines(shown);
      assert lines[0] == Line(1, shown[0]);
      assert IntToString(1) == "1";
      assert Concat(lines) == lines[0] + Concat(lines[1..]);
      assert Concat(lines)[0] == '1';
      assert NoBooksFound[0] == 'N';
    }
  }
}
