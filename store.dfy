/**
  The database the services share (TypeORM's `AppDataSource`), reduced to three in-memory
  tables in insertion order, the next value of each auto-increment key, and the column
  constraints that can make a write throw: unique e-mails and the book-to-author foreign key.
  Passwords are symbolic: bcrypt is modelled by its contract only.
 */
module Store {
  import opened Wrappers

  // ---------------------------------------------------------------- bcrypt, by contract

  /** A stored password: a plain text, or the bcrypt hash of another secret. */
  datatype Secret = Plain(text: string) | Hashed(input: Secret)

  /** `bcrypt.hash(s, 10)`; the salt is not modelled. */
  function Hash(s: Secret): Secret {
    Hashed(s)
  }

  /** `bcrypt.compare(password, stored)`: true exactly when `stored` is a hash of `password`. */
  predicate Compare(password: string, stored: Secret) {
    stored == Hash(Plain(password))
  }

  lemma CompareContract(p: string, q: string)
    ensures Compare(p, Hash(Plain(q))) <==> p == q
  {
  }

  // ---------------------------------------------------------------- rows

  /** A `users` row (timestamps left out). */
  datatype User = User(idUser: int, nickname: string, email: string, password: Secret)

  /** An `authors` row; `booksPublished` is the denormalised book count. */
  datatype Author = Author(idAuthor: int, name: string, email: string, bio: Option<string>, booksPublished: int)

  /** A `books` row; the `author` relation is held as the key of the author. */
  datatype Book = Book(idBook: int, title: string, description: Option<string>, publishedAt: Option<string>,
                       available: bool, idAuthor: int)

  /** Why the database refuses a write. */
  datatype DbError = UniqueViolation(table: string, column: string) | ForeignKeyViolation(table: string) | QueryFailed

  /** The `message` of the error the driver throws; generated constraint names are not modelled. */
  function DriverMessage(e: DbError): (m: string)
    ensures m != ""
  {
    match e
    case UniqueViolation(table, column) => "duplicate key value violates unique constraint on " + table + "." + column
    case ForeignKeyViolation(table) => "update or delete violates foreign key constraint on table " + table
    case QueryFailed => "query failed"
  }

  // ---------------------------------------------------------------- sequence helpers

  /** The first position whose element satisfies `p`. */
  function FirstIndex<T>(s: seq<T>, p: T -> bool): (r: Option<nat>)
    ensures r.Some? ==> r.value < |s| && p(s[r.value]) && forall j :: 0 <= j < r.value ==> !p(s[j])
    ensures r.None? ==> forall j :: 0 <= j < |s| ==> !p(s[j])
  {
    if s == [] then None
    else if p(s[0]) then Some(0)
    else
      var r := FirstIndex(s[1..], p);
      if r.Some? then Some(r.value + 1) else None
  }

  /** `s` without its element at `i`. */
  function RemoveAt<T>(s: seq<T>, i: nat): (r: seq<T>)
    requires i < |s|
    ensures |r| == |s| - 1
    ensures forall k :: 0 <= k < i ==> r[k] == s[k]
    ensures forall k :: i <= k < |r| ==> r[k] == s[k + 1]
  {
    s[..i] + s[i + 1..]
  }

  // ---------------------------------------------------------------- counting books

  /** `bookRepo.count({ where: { author: { id_author } } })`. */
  function Count(books: seq<Book>, idAuthor: int): (n: nat)
    ensures n <= |books|
  {
    if books == [] then 0
    else (if books[|books| - 1].idAuthor == idAuthor then 1 else 0) + Count(books[..|books| - 1], idAuthor)
  }

  lemma CountAppend(books: seq<Book>, b: Book, idAuthor: int)
    ensures Count(books + [b], idAuthor) == Count(books, idAuthor) + (if b.idAuthor == idAuthor then 1 else 0)
  {
    assert (books + [b])[..|books|] == books;
  }

  /** Appending books by other authors leaves an author's count alone; each book by the author adds one. */
  lemma {:induction false} CountAppendAll(books: seq<Book>, added: seq<Book>, idAuthor: int)
    ensures Count(books + added, idAuthor) == Count(books, idAuthor) + Count(added, idAuthor)
    decreases |added|
  {
    if added == [] {
      assert books + added == books;
    } else {
      var init := added[..|added| - 1];
      var last := added[|added| - 1];
      assert books + added == (books + init) + [last];
      CountAppendAll(books, init, idAuthor);
      CountAppend(books + init, last, idAuthor);
    }
  }

  lemma {:induction false} CountRemoveAt(books: seq<Book>, i: nat, idAuthor: int)
    requires i < |books|
    ensures Count(books, idAuthor) == Count(RemoveAt(books, i), idAuthor) + (if books[i].idAuthor == idAuthor then 1 else 0)
  {
    var r := RemoveAt(books, i);
    assert books == books[..i] + [books[i]] + books[i + 1..];
    assert r == books[..i] + books[i + 1..];
    CountAppend(books[..i], books[i], idAuthor);
    CountAppendAll(books[..i] + [books[i]], books[i + 1..], idAuthor);
    CountAppendAll(books[..i], books[i + 1..], idAuthor);
  }

  /** Replacing one row moves its count from the old row's author to the new row's author. */
  lemma {:induction false} CountUpdate(books: seq<Book>, i: nat, b: Book, idAuthor: int)
    requires i < |books|
    ensures Count(books[i := b], idAuthor) + (if books[i].idAuthor == idAuthor then 1 else 0)
            == Count(books, idAuthor) + (if b.idAuthor == idAuthor then 1 else 0)
  {
    assert books == books[..i] + [books[i]] + books[i + 1..];
    assert books[i := b] == books[..i] + [b] + books[i + 1..];
    CountAppend(books[..i], books[i], idAuthor);
    CountAppend(books[..i], b, idAuthor);
    CountAppendAll(books[..i] + [books[i]], books[i + 1..], idAuthor);
    CountAppendAll(books[..i] + [b], books[i + 1..], idAuthor);
  }

  predicate DistinctBookIds(books: seq<Book>) {
    forall i, j :: 0 <= i < j < |books| ==> books[i].idBook != books[j].idBook
  }

  /** The books of an author, as a set of rows. */
  function BooksBy(books: seq<Book>, idAuthor: int): set<Book> {
    set b | b in books && b.idAuthor == idAuthor
  }

  /** With distinct keys, the count is the size of the author's set of books:
      `books_published == |{b | b.author == a}|`. */
  lemma {:induction false} CountIsCardinality(books: seq<Book>, idAuthor: int)
    requires DistinctBookIds(books)
    ensures Count(books, idAuthor) == |BooksBy(books, idAuthor)|
    decreases |books|
  {
    if books != [] {
      var init := books[..|books| - 1];
      var last := books[|books| - 1];
      assert books == init + [last];
      assert DistinctBookIds(init);
      CountIsCardinality(init, idAuthor);
      assert last !in init by {
        forall k | 0 <= k < |init| ensures init[k] != last {
          assert books[k].idBook != books[|books| - 1].idBook;
        }
      }
      if last.idAuthor == idAuthor {
        assert BooksBy(books, idAuthor) == BooksBy(init, idAuthor) + {last};
      } else {
        assert BooksBy(books, idAuthor) == BooksBy(init, idAuthor);
      }
    }
  }

  // ---------------------------------------------------------------- table invariants

  /** Keys generated below the counter, keys and e-mails unique. */
  predicate UsersOk(users: seq<User>, next: int) {
    && 0 < next
    && (forall i :: 0 <= i < |users| ==> 0 < users[i].idUser < next)
    && (forall i, j :: 0 <= i < j < |users| ==> users[i].idUser != users[j].idUser && users[i].email != users[j].email)
  }

  predicate AuthorsOk(authors: seq<Author>, next: int) {
    && 0 < next
    && (forall i :: 0 <= i < |authors| ==> 0 < authors[i].idAuthor < next)
    && (forall i, j :: 0 <= i < j < |authors| ==> authors[i].idAuthor != authors[j].idAuthor && authors[i].email != authors[j].email)
  }

  predicate HasAuthor(authors: seq<Author>, idAuthor: int) {
    exists j :: 0 <= j < |authors| && authors[j].idAuthor == idAuthor
  }

  /** Keys generated below the counter and unique; every book's author exists. */
  predicate BooksOk(books: seq<Book>, next: int, authors: seq<Author>) {
    && 0 < next
    && (forall i :: 0 <= i < |books| ==> 0 < books[i].idBook < next)
    && DistinctBookIds(books)
    && (forall i :: 0 <= i < |books| ==> HasAuthor(authors, books[i].idAuthor))
  }

  /** The data source: three tables and their key counters. */
  class Database {
    var users: seq<User>
    var authors: seq<Author>
    var books: seq<Book>
    var nextUserId: int
    var nextAuthorId: int
    var nextBookId: int

    ghost predicate Valid()
      reads this
    {
      && UsersOk(users, nextUserId)
      && AuthorsOk(authors, nextAuthorId)
      && BooksOk(books, nextBookId, authors)
    }

    /** An empty database whose counters start at 1, as Postgres sequences do. */
    constructor ()
      ensures Valid()
      ensures users == [] && authors == [] && books == []
      ensures nextUserId == 1 && nextAuthorId == 1 && nextBookId == 1
    {
      users, authors, books := [], [], [];
      nextUserId, nextAuthorId, nextBookId := 1, 1, 1;
    }
  }
}
