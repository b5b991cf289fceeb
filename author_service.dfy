/**
  `AuthorService`: lookups and writes on the `authors` table. The books of an author reference
  it by key, so the database refuses to delete an author that still has books.
 */
module AuthorService {
  import opened Wrappers
  import opened Store

  /** The validated body of a create request. */
  datatype AuthorDto = AuthorDto(name: string, email: string, bio: Option<string>)

  /** The validated body of an update request: only the supplied fields are present. */
  datatype AuthorPatch = AuthorPatch(name: Option<string>, email: Option<string>, bio: Option<string>)

  function IndexOf(authors: seq<Author>, id: int): (r: Option<nat>)
    ensures r.Some? ==> r.value < |authors| && authors[r.value].idAuthor == id
    ensures r.None? <==> !HasAuthor(authors, id)
  {
    FirstIndex(authors, (a: Author) => a.idAuthor == id)
  }

  /** `findOneBy({ id_author: id })`: the author with that key, or null. */
  function GetById(authors: seq<Author>, id: int): (r: Option<Author>)
    ensures r.Some? ==> r.value in authors && r.value.idAuthor == id
    ensures r.None? <==> forall a :: a in authors ==> a.idAuthor != id
  {
    var i := IndexOf(authors, id);
    if i.Some? then Some(authors[i.value]) else None
  }

  /** In a well-formed table the lookup finds exactly the stored row. */
  lemma GetByIdFindsTheRow(authors: seq<Author>, next: int, a: Author)
    requires AuthorsOk(authors, next) && a in authors
    ensures GetById(authors, a.idAuthor) == Some(a)
  {
    var k :| 0 <= k < |authors| && authors[k] == a;
    assert GetById(authors, a.idAuthor).value == authors[k];
  }

  /** `Object.assign(author, data)`: supplied fields replace the old ones; the count is kept. */
  function Patched(a: Author, patch: AuthorPatch): (r: Author)
    ensures r.idAuthor == a.idAuthor && r.booksPublished == a.booksPublished
    ensures r.name == (if patch.name.Some? then patch.name.value else a.name)
    ensures r.email == (if patch.email.Some? then patch.email.value else a.email)
    ensures r.bio == (if patch.bio.Some? then patch.bio else a.bio)
  {
    Author(a.idAuthor, patch.name.GetOr(a.name), patch.email.GetOr(a.email),
           if patch.bio.Some? then patch.bio else a.bio, a.booksPublished)
  }

  predicate EmailTakenByOther(authors: seq<Author>, id: int, email: string) {
    exists j :: 0 <= j < |authors| && authors[j].idAuthor != id && authors[j].email == email
  }

  predicate HasBooks(books: seq<Book>, id: int) {
    exists j :: 0 <= j < |books| && books[j].idAuthor == id
  }

  /** `create`: insert with `books_published` at its column default 0; the e-mail must be new. */
  method Create(db: Database, dto: AuthorDto) returns (r: Result<Author, DbError>)
    requires db.Valid()
    modifies db`authors, db`nextAuthorId
    ensures db.Valid()
    ensures db.nextAuthorId == old(db.nextAuthorId) + 1
    ensures r.Ok? <==> forall a :: a in old(db.authors) ==> a.email != dto.email
    ensures r.Ok? ==> r.value == Author(old(db.nextAuthorId), dto.name, dto.email, dto.bio, 0)
                      && db.authors == old(db.authors) + [r.value]
    ensures r.Err? ==> r.error == UniqueViolation("authors", "email") && db.authors == old(db.authors)
  {
    var id := db.nextAuthorId;
    db.nextAuthorId := db.nextAuthorId + 1;
    assert AuthorsOk(db.authors, db.nextAuthorId) by {
      assert forall i :: 0 <= i < |db.authors| ==> db.authors[i].idAuthor < id;
    }
    var clash := FirstIndex(db.authors, (a: Author) => a.email == dto.email);
    if clash.Some? {
      assert db.authors[clash.value] in db.authors;
      return Err(UniqueViolation("authors", "email"));
    }
    var a := Author(id, dto.name, dto.email, dto.bio, 0);
    ghost var before := db.authors;
    db.authors := db.authors + [a];
    forall i | 0 <= i < |db.books| ensures HasAuthor(db.authors, db.books[i].idAuthor) {
      var j :| 0 <= j < |before| && before[j].idAuthor == db.books[i].idAuthor;
      assert db.authors[j] == before[j];
    }
    r := Ok(a);
  }

  /** `update`: null for an unknown key; otherwise the patched row, unless its e-mail clashes. */
  method Update(db: Database, id: int, patch: AuthorPatch) returns (r: Result<Option<Author>, DbError>)
    requires db.Valid()
    modifies db`authors
    ensures db.Valid()
    ensures IndexOf(old(db.authors), id).None? ==> r == Ok(None) && db.authors == old(db.authors)
    ensures IndexOf(old(db.authors), id).Some? ==>
      var i := IndexOf(old(db.authors), id).value;
      var a := Patched(old(db.authors)[i], patch);
      if EmailTakenByOther(old(db.authors), id, a.email)
      then r == Err(UniqueViolation("authors", "email")) && db.authors == old(db.authors)
      else r == Ok(Some(a)) && db.authors == old(db.authors)[i := a]
  {
    var i := IndexOf(db.authors, id);
    if i.None? {
      return Ok(None);
    }
    var a := Patched(db.authors[i.value], patch);
    if EmailTakenByOther(db.authors, id, a.email) {
      return Err(UniqueViolation("authors", "email"));
    }
    ghost var before := db.authors;
    db.authors := db.authors[i.value := a];
    forall k | 0 <= k < |db.books| ensures HasAuthor(db.authors, db.books[k].idAuthor) {
      var j :| 0 <= j < |before| && before[j].idAuthor == db.books[k].idAuthor;
      assert db.authors[j].idAuthor == before[j].idAuthor;
    }
    r := Ok(Some(a));
  }

  /** `delete`: refused while a book references the author; otherwise true exactly when the row existed. */
  method Delete(db: Database, id: int) returns (r: Result<bool, DbError>)
    requires db.Valid()
    modifies db`authors
    ensures db.Valid()
    ensures HasBooks(db.books, id) ==> r == Err(ForeignKeyViolation("books")) && db.authors == old(db.authors)
    ensures !HasBooks(db.books, id) ==> r == Ok(HasAuthor(old(db.authors), id))
    ensures r.Ok? ==> forall a :: a in db.authors <==> a in old(db.authors) && a.idAuthor != id
  {
    var i := IndexOf(db.authors, id);
    if i.None? {
      forall a | a in db.authors ensures a.idAuthor != id {
        var k :| 0 <= k < |db.authors| && db.authors[k] == a;
      }
      return Ok(false);
    }
    if HasBooks(db.books, id) {
      return Err(ForeignKeyViolation("books"));
    }
    RemoveKeepsInvariants(db.authors, db.nextAuthorId, db.books, db.nextBookId, i.value);
    db.authors := RemoveAt(db.authors, i.value);
    r := Ok(true);
  }

  /** Removing an author no book references keeps the table invariants; exactly that author leaves. */
  lemma RemoveKeepsInvariants(authors: seq<Author>, next: int, books: seq<Book>, nextBook: int, i: nat)
    requires AuthorsOk(authors, next) && BooksOk(books, nextBook, authors)
    requires i < |authors| && !HasBooks(books, authors[i].idAuthor)
    ensures AuthorsOk(RemoveAt(authors, i), next) && BooksOk(books, nextBook, RemoveAt(authors, i))
    ensures forall a :: a in RemoveAt(authors, i) <==> a in authors && a.idAuthor != authors[i].idAuthor
  {
    var r := RemoveAt(authors, i);
    var id := authors[i].idAuthor;
    forall a ensures a in r <==> a in authors && a.idAuthor != id {
      if a in authors && a.idAuthor != id {
        var k :| 0 <= k < |authors| && authors[k] == a;
        if k < i { assert r[k] == a; } else { assert r[k - 1] == a; }
      }
      if a in r {
        var k :| 0 <= k < |r| && r[k] == a;
        if k >= i {
          assert authors[i].idAuthor != authors[k + 1].idAuthor;
        } else {
          assert authors[i].idAuthor != authors[k].idAuthor;
        }
      }
    }
    forall k | 0 <= k < |books| ensures HasAuthor(r, books[k].idAuthor) {
      var j :| 0 <= j < |authors| && authors[j].idAuthor == books[k].idAuthor;
      assert j != i;
      if j < i { assert r[j] == authors[j]; } else { assert r[j - 1] == authors[j]; }
    }
  }
}
