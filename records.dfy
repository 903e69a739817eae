/** The field mapping between a book and the record the collection file
    stores for it: `save_data` writes one record per book with the keys
    title, author, genre, pages and read_status, and `load_data` rebuilds
    each book from those keys. */
module Records {
  import opened Books

  /** The values a record field can hold after decoding the file. */
  datatype Json = JString(str: string) | JInt(num: int) | JBool(flag: bool) | JNull

  type Record = map<string, Json>

  const BookKeys: set<string> := {"title", "author", "genre", "pages", "read_status"}

  /** The record `save_data` writes for one book. */
  function ToRecord(b: Book): (r: Record)
    ensures r.Keys == BookKeys
  {
    map["title" := JString(b.title), "author" := JString(b.author), "genre" := JString(b.genre),
        "pages" := JInt(b.pages), "read_status" := JBool(b.readStatus)]
  }

  /** The five fields are present and hold values of the right kinds. */
  predicate WellFormed(r: Record)
  {
    && "title" in r && r["title"].JString?
    && "author" in r && r["author"].JString?
    && "genre" in r && r["genre"].JString?
    && "pages" in r && r["pages"].JInt?
    && "read_status" in r && r["read_status"].JBool?
  }

  /** The book `load_data` builds from one record; fails on a missing or
      ill-typed field. Keys other than the five are ignored. */
  function FromRecord(r: Record): (b: Option<Book>)
    ensures b.Some? <==> WellFormed(r)
    ensures b.Some? ==> forall k :: k in BookKeys ==> ToRecord(b.value)[k] == r[k]
  {
    if WellFormed(r) then
      Some(Book(r["title"].str, r["author"].str, r["genre"].str, r["pages"].num,
                r["read_status"].flag))
    else None
  }

  /** Writing a book and reading it back gives the same book. */
  lemma RecordRoundTrip(b: Book)
    ensures FromRecord(ToRecord(b)) == Some(b)
  {
  }

  /** The list `save_data` writes: one record per book, in order. */
  function ToRecords(books: seq<Book>): (data: seq<Record>)
    ensures |data| == |books|
    ensures forall i :: 0 <= i < |books| ==> data[i] == ToRecord(books[i])
  {
    if books == [] then [] else [ToRecord(books[0])] + ToRecords(books[1..])
  }

  /** The books `load_data` rebuilds, in order; nothing when any record lacks
      a field. */
  function FromRecords(data: seq<Record>): (r: Option<seq<Book>>)
    ensures r.Some? <==> forall i :: 0 <= i < |data| ==> WellFormed(data[i])
    ensures r.Some? ==>
              |r.value| == |data|
              && forall i :: 0 <= i < |data| ==> FromRecord(data[i]) == Some(r.value[i])
  {
    if data == [] then Some([])
    else match FromRecord(data[0])
      case None => None
      case Some(b) =>
        match FromRecords(data[1..])
        case None => None
        case Some(rest) => Some([b] + rest)
  }

  /** Saving a collection and loading it back reconstructs the same books in
      the same order. */
  lemma SaveLoadRoundTrip(books: seq<Book>)
    ensures FromRecords(ToRecords(books)) == Some(books)
  {
    var data := ToRecords(books);
    forall i | 0 <= i < |books|
      ensures WellFormed(data[i]) && FromRecord(data[i]) == Some(books[i])
    {
      RecordRoundTrip(books[i]);
    }
    var r := FromRecords(data);
    assert r.Some?;
    assert forall i :: 0 <= i < |books| ==> Some(r.value[i]) == Some(books[i]);
    assert r.value == books;
  }
}
