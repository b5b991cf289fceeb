/**
  `BookService`: lookups and writes on the `books` table. `create` checks the author, updates
  the author's `books_published` and then saves the book; `update` merges field by field and may
  move the book to another author; `delete` removes the row. Only `create` writes a count.
 */
module BookService {
  import opened Wrappers
  import opened Json
  import opened Store
  import AuthorService
  import opened AuthorsPublishedJob

  /** The validated body of a create request (`available` already defaulted). */
  datatype BookDto = BookDto(title: string, description: Option<string>, publishedAt: Option<string>,
                             available: bool, idAuthor: int)

  /** The validated body of an update request: only the supplied fields are present. */
  datatype BookPatch = BookPatch(title: Option<string>, description: Option<string>, publishedAt: Option<string>,
                                 available: Option<bool>, idAuthor: Option<int>)

  /** What a book operation throws: a database error, or the service's own `Error`. */
  datatype BookError = Db(e: DbError) | Thrown(message: string)

  function AuthorNotFound(idAuthor: int): string {
    "Author with ID " + IntText(idAuthor) + " not found"
  }

  function IndexOf(books: seq<Book>, id: int): (r: Option<nat>)
    ensures r.Some? ==> r.value < |books| && books[r.value].idBook == id
    ensures r.None? ==> forall j :: 0 <= j < |books| ==> books[j].idBook != id
  {
    FirstIndex(books, (b: Book) => b.idBook == id)
  }

  /** `findOne({ where: { id_book: id } })`: the book with that key, or null. */
  function GetById(books: seq<Book>, id: int): (r: Option<Book>)
    ensures r.Some? ==> r.value in books && r.value.idBook == id
    ensures r.None? <==> forall b :: b in books ==> b.idBook != id
  {
    var i := IndexOf(books, id);
    if i.Some? then Some(books[i.value]) else None
  }

  /** In a well-formed table the lookup finds exactly the stored row. */
  lemma GetByIdFindsTheRow(books: seq<Book>, b: Book)
    requires DistinctBookIds(books) && b in books
    ensures GetById(books, b.idBook) == Some(b)
  {
    var k :| 0 <= k < |books| && books[k] == b;
    assert GetById(books, b.idBook).value == books[k];
  }

  /** The row `create` builds: the input's fields, the looked-up author, the next key. */
  function NewBook(id: int, dto: BookDto): Book {
    Book(id, dto.title, dto.description, dto.publishedAt, dto.available, dto.idAuthor)
  }

  /** `create` as written: the author's count is written from the table as it is before the new
      book is saved, so the new book is not counted. `countFails` says whether that count write
      throws, in which case no book is saved. */
  method Create(db: Database, dto: BookDto, countFails: bool) returns (r: Result<Book, BookError>)
    requires db.Valid()
    modifies db`authors, db`books, db`nextBookId
    ensures db.Valid()
    ensures AuthorService.IndexOf(old(db.authors), dto.idAuthor).None? ==>
      && r == Err(Thrown(AuthorNotFound(dto.idAuthor)))
      && db.authors == old(db.authors) && db.books == old(db.books) && db.nextBookId == old(db.nextBookId)
    ensures AuthorService.IndexOf(old(db.authors), dto.idAuthor).Some? && countFails ==>
      && r == Err(Db(QueryFailed))
      && db.authors == old(db.authors) && db.books == old(db.books) && db.nextBookId == old(db.nextBookId)
    ensures AuthorService.IndexOf(old(db.authors), dto.idAuthor).Some? && !countFails ==>
      var i := AuthorService.IndexOf(old(db.authors), dto.idAuthor).value;
      && r == Ok(NewBook(old(db.nextBookId), dto))
      && db.authors == old(db.authors)[i := ReconcileOne(old(db.authors)[i], old(db.books))]
      && db.books == old(db.books) + [r.value]
      && db.nextBookId == old(db.nextBookId) + 1
  {
    var i := AuthorService.IndexOf(db.authors, dto.idAuthor);
    if i.None? {
      return Err(Thrown(AuthorNotFound(dto.idAuthor)));
    }
    if countFails {
      return Err(Db(QueryFailed));
    }
    ReconcileKeepsInvariants(db.authors, db.nextAuthorId, db.books, db.nextBookId, i.value);
    db.authors := db.authors[i.value := ReconcileOne(db.authors[i.value], db.books)];
    assert db.authors[i.value].idAuthor == dto.idAuthor;
    var b := NewBook(db.nextBookId, dto);
    InsertKeepsInvariants(db.books, db.nextBookId, db.authors, b);
    db.books := db.books + [b];
    db.nextBookId := db.nextBookId + 1;
    r := Ok(b);
  }

  /** `create` with the save before the count: the count written includes the new book. */
  method CreateCounted(db: Database, dto: BookDto, countFails: bool) returns (r: Result<Book, BookError>)
    requires db.Valid()
    modifies db`authors, db`books, db`nextBookId
    ensures db.Valid()
    ensures AuthorService.IndexOf(old(db.authors), dto.idAuthor).None? ==>
      && r == Err(Thrown(AuthorNotFound(dto.idAuthor)))
      && db.authors == old(db.authors) && db.books == old(db.books) && db.nextBookId == old(db.nextBookId)
    ensures AuthorService.IndexOf(old(db.authors), dto.idAuthor).Some? ==>
      var i := AuthorService.IndexOf(old(db.authors), dto.idAuthor).value;
      && db.books == old(db.books) + [NewBook(old(db.nextBookId), dto)]
      && db.nextBookId == old(db.nextBookId) + 1
      && (countFails ==> r == Err(Db(QueryFailed)) && db.authors == old(db.authors))
      && (!countFails ==> r == Ok(NewBook(old(db.nextBookId), dto))
                          && db.authors == old(db.authors)[i := ReconcileOne(old(db.authors)[i], db.books)])
    ensures !countFails && Consistent(old(db.authors), old(db.books)) ==> Consistent(db.authors, db.books)
  {
    var i := AuthorService.IndexOf(db.authors, dto.idAuthor);
    if i.None? {
      return Err(Thrown(AuthorNotFound(dto.idAuthor)));
    }
    var b := NewBook(db.nextBookId, dto);
    InsertKeepsInvariants(db.books, db.nextBookId, db.authors, b);
    ghost var books0 := db.books;
    db.books := db.books + [b];
    db.nextBookId := db.nextBookId + 1;
    if countFails {
      return Err(Db(QueryFailed));
    }
    ReconcileKeepsInvariants(db.authors, db.nextAuthorId, db.books, db.nextBookId, i.value);
    if Consistent(db.authors, books0) {
      CountedCreateKeepsConsistency(db.authors, db.nextAuthorId, books0, i.value, b);
    }
    db.authors := db.authors[i.value := ReconcileOne(db.authors[i.value], db.books)];
    r := Ok(b);
  }

  lemma ReconcileKeepsInvariants(authors: seq<Author>, next: int, books: seq<Book>, nextBook: int, i: nat)
    requires AuthorsOk(authors, next) && BooksOk(books, nextBook, authors) && i < |authors|
    ensures var r := authors[i := ReconcileOne(authors[i], books)];
            AuthorsOk(r, next) && BooksOk(books, nextBook, r)
  {
    var r := authors[i := ReconcileOne(authors[i], books)];
    assert SameButCounts(authors, r);
    SameKeysKeepInvariants(authors, r, next, books, nextBook);
  }

  lemma InsertKeepsInvariants(books: seq<Book>, next: int, authors: seq<Author>, b: Book)
    requires BooksOk(books, next, authors) && b.idBook == next && HasAuthor(authors, b.idAuthor)
    ensures BooksOk(books + [b], next + 1, authors)
  {
    assert forall k :: 0 <= k < |books| ==> books[k].idBook < b.idBook;
  }

  /** As written, the count stored for the book's author is one below the true count. */
  lemma WrittenCreateLeavesCountStale(authors: seq<Author>, books: seq<Book>, i: nat, b: Book)
    requires i < |authors| && b.idAuthor == authors[i].idAuthor
    ensures ReconcileOne(authors[i], books).booksPublished + 1 == Count(books + [b], authors[i].idAuthor)
    ensures !Consistent(authors[i := ReconcileOne(authors[i], books)], books + [b])
  {
    CountAppend(books, b, authors[i].idAuthor);
    var r := authors[i := ReconcileOne(authors[i], books)];
    assert r[i].booksPublished != Count(books + [b], r[i].idAuthor);
  }

  /** Saving first and then counting keeps every author consistent. */
  lemma CountedCreateKeepsConsistency(authors: seq<Author>, next: int, books: seq<Book>, i: nat, b: Book)
    requires AuthorsOk(authors, next) && Consistent(authors, books)
    requires i < |authors| && b.idAuthor == authors[i].idAuthor
    ensures Consistent(authors[i := ReconcileOne(authors[i], books + [b])], books + [b])
  {
    var r := authors[i := ReconcileOne(authors[i], books + [b])];
    forall k | 0 <= k < |r| ensures r[k].booksPublished == Count(books + [b], r[k].idAuthor) {
      if k != i {
        CountAppend(books, b, authors[k].idAuthor);
        assert authors[k].idAuthor != authors[i].idAuthor;
      }
    }
  }

  /** The `??` merge: supplied fields replace the old ones, the rest stay. `author` is the author key
      the book ends up with. */
  function Merged(b: Book, patch: BookPatch, author: int): (r: Book)
    ensures r.idBook == b.idBook && r.idAuthor == author
    ensures r.title == (if patch.title.Some? then patch.title.value else b.title)
    ensures r.description == (if patch.description.Some? then patch.description else b.description)
    ensures r.publishedAt == (if patch.publishedAt.Some? then patch.publishedAt else b.publishedAt)
    ensures r.available == (if patch.available.Some? then patch.available.value else b.available)
  {
    Book(b.idBook, patch.title.GetOr(b.title),
         if patch.description.Some? then patch.description else b.description,
         if patch.publishedAt.Some? then patch.publishedAt else b.publishedAt,
         patch.available.GetOr(b.available), author)
  }

  /** `if (data.id_author)`: a supplied key other than 0 asks for a new author. */
  predicate ChangesAuthor(patch: BookPatch) {
    patch.idAuthor.Some? && patch.idAuthor.value != 0
  }

  /** `update`: null for an unknown key; a missing new author throws before any save; otherwise the
      merged row replaces the old one. No author row is written. */
  method Update(db: Database, id: int, patch: BookPatch) returns (r: Result<Option<Book>, BookError>)
    requires db.Valid()
    modifies db`books
    ensures db.Valid()
    ensures IndexOf(old(db.books), id).None? ==> r == Ok(None) && db.books == old(db.books)
    ensures IndexOf(old(db.books), id).Some? && ChangesAuthor(patch) && !HasAuthor(db.authors, patch.idAuthor.value) ==>
      r == Err(Thrown(AuthorNotFound(patch.idAuthor.value))) && db.books == old(db.books)
    ensures IndexOf(old(db.books), id).Some? && (ChangesAuthor(patch) ==> HasAuthor(db.authors, patch.idAuthor.value)) ==>
      var i := IndexOf(old(db.books), id).value;
      var b := old(db.books)[i];
      var m := Merged(b, patch, if ChangesAuthor(patch) then patch.idAuthor.value else b.idAuthor);
      r == Ok(Some(m)) && db.books == old(db.books)[i := m]
  {
    var i := IndexOf(db.books, id);
    if i.None? {
      return Ok(None);
    }
    var b := db.books[i.value];
    var author := b.idAuthor;
    if ChangesAuthor(patch) {
      if AuthorService.IndexOf(db.authors, patch.idAuthor.value).None? {
        return Err(Thrown(AuthorNotFound(patch.idAuthor.value)));
      }
      author := patch.idAuthor.value;
    }
    var m := Merged(b, patch, author);
    ghost var before := db.books;
    db.books := db.books[i.value := m];
    assert forall k :: 0 <= k < |db.books| && k != i.value ==> db.books[k] == before[k];
    r := Ok(Some(m));
  }

  /** `delete`: true exactly when a row with that key existed; that row, and only it, is gone. */
  method Delete(db: Database, id: int) returns (deleted: bool)
    requires db.Valid()
    modifies db`books
    ensures db.Valid()
    ensures deleted <==> GetById(old(db.books), id).Some?
    ensures !deleted ==> db.books == old(db.books)
    ensures deleted ==> db.books == RemoveAt(old(db.books), IndexOf(old(db.books), id).value)
  {
    var i := IndexOf(db.books, id);
    if i.None? {
      return false;
    }
    ghost var before := db.books;
    db.books := RemoveAt(db.books, i.value);
    assert forall k :: 0 <= k < |db.books| ==> db.books[k] == before[if k < i.value then k else k + 1];
    deleted := true;
  }

  /** Deleting a book leaves its author's stored count one above the true count until the job runs. */
  lemma DeleteLeavesCountStale(authors: seq<Author>, books: seq<Book>, i: nat, k: nat)
    requires Consistent(authors, books)
    requires i < |books| && k < |authors| && authors[k].idAuthor == books[i].idAuthor
    ensures authors[k].booksPublished == Count(RemoveAt(books, i), authors[k].idAuthor) + 1
  {
    CountRemoveAt(books, i, authors[k].idAuthor);
  }

  /** Moving a book to another author leaves the old author's stored count one too high and the
      new author's one too low. */
  lemma MoveLeavesCountsStale(authors: seq<Author>, books: seq<Book>, i: nat, m: Book, from: nat, to: nat)
    requires Consistent(authors, books)
    requires i < |books| && from < |authors| && to < |authors|
    requires authors[from].idAuthor == books[i].idAuthor && authors[to].idAuthor == m.idAuthor
    requires m.idAuthor != books[i].idAuthor
    ensures authors[from].booksPublished == Count(books[i := m], authors[from].idAuthor) + 1
    ensures authors[to].booksPublished + 1 == Count(books[i := m], authors[to].idAuthor)
  {
    CountUpdate(books, i, m, authors[from].idAuthor);
    CountUpdate(books, i, m, authors[to].idAuthor);
  }
}
