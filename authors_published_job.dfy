/**
  The nightly `books_published` job: one sequential run of the cron callback. Every author, in
  the order the table returns them, gets its count recomputed from the book table and saved.
  The whole loop sits in one try/catch, so the first author whose count or save throws stops the
  run; the authors before it keep their new counts. Which writes throw is a parameter.
 */
module AuthorsPublishedJob {
  import opened Wrappers
  import opened Store

  /** The loop body: count the author's books and store the count on the author. */
  function ReconcileOne(a: Author, books: seq<Book>): (r: Author)
    ensures r.idAuthor == a.idAuthor && r.name == a.name && r.email == a.email && r.bio == a.bio
  {
    a.(booksPublished := Count(books, a.idAuthor))
  }

  /** The stored count is the number of the author's books. */
  lemma ReconcileOneCountsBooks(a: Author, books: seq<Book>)
    requires DistinctBookIds(books)
    ensures ReconcileOne(a, books).booksPublished == |BooksBy(books, a.idAuthor)|
  {
    CountIsCardinality(books, a.idAuthor);
  }

  /** Every author's stored count agrees with the book table. */
  predicate Consistent(authors: seq<Author>, books: seq<Book>) {
    forall i :: 0 <= i < |authors| ==> authors[i].booksPublished == Count(books, authors[i].idAuthor)
  }

  /** Under unique book keys, consistency is `books_published == |{b | b.author == a}|` for every author. */
  lemma ConsistentIsCardinality(authors: seq<Author>, books: seq<Book>)
    requires DistinctBookIds(books)
    ensures Consistent(authors, books) <==>
            forall i :: 0 <= i < |authors| ==> authors[i].booksPublished == |BooksBy(books, authors[i].idAuthor)|
  {
    forall i | 0 <= i < |authors| {
      CountIsCardinality(books, authors[i].idAuthor);
    }
  }

  /** Two author tables with the same rows apart from `books_published`. */
  predicate SameButCounts(a: seq<Author>, b: seq<Author>) {
    |a| == |b| && forall i :: 0 <= i < |a| ==> b[i] == a[i].(booksPublished := b[i].booksPublished)
  }

  /** The run stops at the first author whose write throws, or completes. */
  function StopIndex(authors: seq<Author>, failing: set<int>): (k: nat)
    ensures k <= |authors|
    ensures forall j :: 0 <= j < k ==> authors[j].idAuthor !in failing
    ensures k < |authors| ==> authors[k].idAuthor in failing
  {
    var f := FirstIndex(authors, (a: Author) => a.idAuthor in failing);
    if f.Some? then f.value else |authors|
  }

  /** The author table after one run: reconciled up to the stop, untouched from there on. */
  function AfterRun(authors: seq<Author>, books: seq<Book>, failing: set<int>): (r: seq<Author>)
    ensures SameButCounts(authors, r)
  {
    var k := StopIndex(authors, failing);
    seq(|authors|, i requires 0 <= i < |authors| => if i < k then ReconcileOne(authors[i], books) else authors[i])
  }

  /** The cron callback's body. `stoppedAt` is where the catch took over, if it did. */
  method Run(db: Database, failing: set<int>) returns (stoppedAt: Option<nat>)
    requires db.Valid()
    modifies db`authors
    ensures db.Valid()
    ensures db.authors == AfterRun(old(db.authors), db.books, failing)
    ensures stoppedAt.None? <==> forall a :: a in old(db.authors) ==> a.idAuthor !in failing
    ensures stoppedAt.Some? ==> stoppedAt.value == StopIndex(old(db.authors), failing)
  {
    var authors := db.authors;
    var i := 0;
    while i < |authors| && authors[i].idAuthor !in failing
      invariant 0 <= i <= |authors|
      invariant forall j :: 0 <= j < i ==> authors[j].idAuthor !in failing
      invariant |db.authors| == |authors|
      invariant forall j :: 0 <= j < i ==> db.authors[j] == ReconcileOne(authors[j], db.books)
      invariant forall j :: i <= j < |authors| ==> db.authors[j] == authors[j]
      decreases |authors| - i
    {
      db.authors := db.authors[i := ReconcileOne(authors[i], db.books)];
      i := i + 1;
    }
    assert i == StopIndex(authors, failing);
    assert db.authors == AfterRun(authors, db.books, failing);
    SameKeysKeepInvariants(authors, db.authors, db.nextAuthorId, db.books, db.nextBookId);
    stoppedAt := if i < |authors| then Some(i) else None;
  }

  /** Rewriting counts keeps the author keys, the e-mails and so the book foreign keys valid. */
  lemma SameKeysKeepInvariants(a: seq<Author>, b: seq<Author>, next: int, books: seq<Book>, nextBook: int)
    requires SameButCounts(a, b)
    requires AuthorsOk(a, next) && BooksOk(books, nextBook, a)
    ensures AuthorsOk(b, next) && BooksOk(books, nextBook, b)
  {
    forall i | 0 <= i < |books| ensures HasAuthor(b, books[i].idAuthor) {
      var j :| 0 <= j < |a| && a[j].idAuthor == books[i].idAuthor;
      assert b[j].idAuthor == a[j].idAuthor;
    }
  }

  /** A run in which nothing throws leaves every author consistent with the book table. */
  lemma FullRunIsConsistent(authors: seq<Author>, books: seq<Book>, failing: set<int>)
    requires forall a :: a in authors ==> a.idAuthor !in failing
    ensures Consistent(AfterRun(authors, books, failing), books)
  {
    assert StopIndex(authors, failing) == |authors|;
  }

  /** The count is recomputed from scratch: a second full run with the same books stores the same values. */
  lemma RunIsIdempotent(authors: seq<Author>, books: seq<Book>)
    ensures AfterRun(AfterRun(authors, books, {}), books, {}) == AfterRun(authors, books, {})
  {
    var once := AfterRun(authors, books, {});
    assert StopIndex(authors, {}) == |authors|;
    assert StopIndex(once, {}) == |once|;
  }

  /** A consistent table is a fixed point of a full run. */
  lemma ConsistentIsFixedPoint(authors: seq<Author>, books: seq<Book>)
    requires Consistent(authors, books)
    ensures AfterRun(authors, books, {}) == authors
  {
    assert StopIndex(authors, {}) == |authors|;
    var r := AfterRun(authors, books, {});
    forall i | 0 <= i < |authors| ensures r[i] == authors[i] {
      assert r[i] == ReconcileOne(authors[i], books);
    }
  }

  /** After a run that stops at author `k`, the authors before it are consistent and the others keep
      whatever they held. */
  lemma PartialRun(authors: seq<Author>, books: seq<Book>, failing: set<int>)
    ensures var k := StopIndex(authors, failing);
            var r := AfterRun(authors, books, failing);
            Consistent(r[..k], books) && r[k..] == authors[k..]
  {
  }

  /** Adding `n` books for an author and running the job stores `n` more than the previous count. */
  lemma RunCountsNewBooks(authors: seq<Author>, books: seq<Book>, added: seq<Book>, i: nat)
    requires i < |authors|
    requires forall b :: b in added ==> b.idAuthor == authors[i].idAuthor
    ensures AfterRun(authors, books + added, {})[i].booksPublished == Count(books, authors[i].idAuthor) + |added|
  {
    assert StopIndex(authors, {}) == |authors|;
    CountAppendAll(books, added, authors[i].idAuthor);
    AllByAuthor(added, authors[i].idAuthor);
  }

  lemma {:induction false} AllByAuthor(books: seq<Book>, idAuthor: int)
    requires forall b :: b in books ==> b.idAuthor == idAuthor
    ensures Count(books, idAuthor) == |books|
  {
    if books != [] {
      var init := books[..|books| - 1];
      assert books[|books| - 1] in books;
      assert forall b :: b in init ==> b in books;
      AllByAuthor(init, idAuthor);
    }
  }
}
