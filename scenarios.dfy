/** What a caller of the catalog can rely on across several searches. */
module Scenarios {
  import opened Text
  import opened Lists
  import opened BookEntity
  import opened Catalog

  /** Submitting the same search twice: once the first call saved a book, the
      second is rejected as a duplicate. Over both calls only the first call's
      book is added, and at most one author. */
  method SubmitTwice(store: Store, query: string, results: seq<ApiRecord>) returns (first: Outcome, second: Outcome)
    requires store.Valid()
    modifies store
    ensures store.Valid()
    ensures first.Saved? ==> second == DuplicateBook && store.books == old(store.books) + [first.book]
    ensures first.Saved? ==> old(store.authors) <= store.authors && |store.authors| <= |old(store.authors)| + 1
  {
    first := store.SearchAndSave(query, results);
    if first.Saved? {
      var n := |store.books| - 1;
      assert store.books[n] == first.book && first.book.title == Chosen(results, query).value.title;
      assert ContainsIgnoreCase(first.book.title, []);
    }
    second := store.SearchAndSave(query, results);
  }

  /** Two saved books whose records name the same first author refer to the
      same stored author, and at most one author was added for both. */
  method SameAuthorTwice(store: Store, q1: string, r1: seq<ApiRecord>, q2: string, r2: seq<ApiRecord>)
    returns (o1: Outcome, o2: Outcome)
    requires store.Valid()
    modifies store
    ensures store.Valid()
    ensures o1.Saved? && o2.Saved? && Chosen(r1, q1).Some? && Chosen(r2, q2).Some? &&
            Chosen(r1, q1).value.authors != [] && Chosen(r2, q2).value.authors != [] &&
            Chosen(r1, q1).value.authors[0] == Chosen(r2, q2).value.authors[0] ==>
            o2.book.author == o1.book.author && o1.book.author.Some? &&
            |store.authors| <= |old(store.authors)| + 1
  {
    ghost var authors0 := store.authors;
    o1 := store.SearchAndSave(q1, r1);
    ghost var authors1 := store.authors;
    if o1.Saved? && Chosen(r1, q1).value.authors != [] {
      var name := Chosen(r1, q1).value.authors[0];
      assert ContainsIgnoreCase(name, []);
      if authors1 != authors0 {
        var k := |authors0|;
        assert authors1[k].name == name;
        forall j | 0 <= j < k ensures !ContainsIgnoreCase(authors1[j].name, name) {
          assert authors1[j] == authors0[j];
        }
      }
    }
    o2 := store.SearchAndSave(q2, r2);
  }

  /** A concrete run: "Emma" (languages en, fr; author Jane Austen) goes
      into an empty store as one book in English and one author; submitting it
      again is a duplicate and changes nothing. */
  method EmmaScenario() returns (emma: Outcome, again: Outcome, books: seq<BookRow>, authors: seq<Author>)
    ensures emma == Saved(BookRow(1, "Emma", Some(Author(Some(1), "Jane Austen")), "en", None))
    ensures again == DuplicateBook
    ensures books == [emma.book] && authors == [Author(Some(1), "Jane Austen")]
  {
    var store := new Store();
    var e := ApiRecord("Emma", ["en", "fr"], ["Jane Austen"]);
    assert Chosen([e], "Emma") == Some(e);
    emma := store.SearchAndSave("Emma", [e]);
    assert store.FindBookByTitle("Emma").Some?;
    again := store.SearchAndSave("Emma", [e]);
    books, authors := store.books, store.authors;
  }

  /** The duplicate check has the stored title as the haystack: once a book is
      stored, a record whose title that stored title contains (ignoring case)
      is a duplicate, although it is not the title of any stored book.
      "War" after "War and Peace" is one such pair. */
  method ShortAfterLongScenario(long: string, short: string) returns (outcome: Outcome)
    requires ContainsIgnoreCase(long, short) && short != long
    ensures outcome == DuplicateBook
  {
    var store := new Store();
    var first := store.SearchAndSave(long, [ApiRecord(long, ["en"], [])]);
    assert store.books == [first.book];
    assert store.FindBookByTitle(short).Some?;
    outcome := store.SearchAndSave(short, [ApiRecord(short, ["en"], [])]);
  }

  /** The pair the duplicate check above applies to: "War and Peace" contains
      "War", ignoring case. */
  lemma WarAndPeaceContainsWar()
    ensures ContainsIgnoreCase("War and Peace", "War")
  {
    UpperKeepsPrefix("War", "War and Peace");
  }
}
