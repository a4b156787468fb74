/** The catalog: the book store and the author store (the two repositories),
    the search-and-save workflow over them, and the three listings. */
module Catalog {
  import opened Text
  import opened Lists
  import opened BookEntity

  /** A saved book as the book store keeps it: the entity's field values at
      the time it was saved, with its assigned id. */
  datatype BookRow = BookRow(id: int, title: string, author: Option<Author>, language: string, genre: Option<string>)

  function TitleOf(b: BookRow): string { b.title }
  function NameOf(a: Author): string { a.name }

  /** One write to a store, in the order the writes happen. */
  datatype Write = AuthorSaved(authorId: int) | BookSaved(bookId: int)

  /** What a search-and-save ends with. `MalformedRecord` is the index error
      the book constructor raises on a record without languages. */
  datatype Outcome = NotFoundInApi | DuplicateBook | MalformedRecord | Saved(book: BookRow)

  /** The outcome of listing all books. */
  datatype BookListing = NoBooksYet | AllBooks(books: seq<BookRow>)

  /** The outcome of listing the books in one language. */
  datatype LanguageListing = NoneInLanguage | InLanguage(books: seq<BookRow>)

  /** The API result the search settles on: the first, in result order, whose
      upper-cased title contains the upper-cased query. */
  function SelectRecord(results: seq<ApiRecord>, query: string): (r: Option<nat>)
    ensures r.Some? ==> r.value < |results| && ContainsIgnoreCase(results[r.value].title, query)
    ensures r.Some? ==> forall j :: 0 <= j < r.value ==> !ContainsIgnoreCase(results[j].title, query)
    ensures r.None? <==> forall j :: 0 <= j < |results| ==> !ContainsIgnoreCase(results[j].title, query)
  {
    FirstWhere(results, (d: ApiRecord) => ContainsIgnoreCase(d.title, query))
  }

  /** The record chosen by `SelectRecord`, if any. */
  function Chosen(results: seq<ApiRecord>, query: string): Option<ApiRecord> {
    var i := SelectRecord(results, query);
    if i.Some? then Some(results[i.value]) else None
  }

  /** With an empty query every title matches, so the first result is chosen. */
  lemma EmptyQueryChoosesFirst(results: seq<ApiRecord>)
    requires results != []
    ensures SelectRecord(results, "") == Some(0)
  {
    assert ContainsIgnoreCase(results[0].title, []);
  }

  /** First stored book whose upper-cased title contains the upper-cased `t`. */
  function FindTitle(books: seq<BookRow>, t: string): (r: Option<nat>)
    ensures r.Some? ==> r.value < |books| && ContainsIgnoreCase(books[r.value].title, t)
    ensures r.Some? ==> forall j :: 0 <= j < r.value ==> !ContainsIgnoreCase(books[j].title, t)
    ensures r.None? <==> forall j :: 0 <= j < |books| ==> !ContainsIgnoreCase(books[j].title, t)
  {
    FirstWhere(books, (b: BookRow) => ContainsIgnoreCase(b.title, t))
  }

  /** First stored author whose upper-cased name contains the upper-cased `n`. */
  function FindName(authors: seq<Author>, n: string): (r: Option<nat>)
    ensures r.Some? ==> r.value < |authors| && ContainsIgnoreCase(authors[r.value].name, n)
    ensures r.Some? ==> forall j :: 0 <= j < r.value ==> !ContainsIgnoreCase(authors[j].name, n)
    ensures r.None? <==> forall j :: 0 <= j < |authors| ==> !ContainsIgnoreCase(authors[j].name, n)
  {
    FirstWhere(authors, (a: Author) => ContainsIgnoreCase(a.name, n))
  }

  /** The test "stored language is `code`". */
  function LanguageIs(code: string): BookRow -> bool {
    (b: BookRow) => b.language == code
  }

  /** No stored title contains (ignoring case) a title stored after it: what
      the duplicate check keeps true. */
  ghost predicate TitlesDeduplicated(books: seq<BookRow>) {
    forall i, j :: 0 <= i < j < |books| ==> !ContainsIgnoreCase(books[i].title, books[j].title)
  }

  /** No stored name contains (ignoring case) a name stored after it. */
  ghost predicate NamesDeduplicated(authors: seq<Author>) {
    forall i, j :: 0 <= i < j < |authors| ==> !ContainsIgnoreCase(authors[i].name, authors[j].name)
  }

  /** Every author a stored book refers to is a stored author. */
  ghost predicate AuthorsOnFile(books: seq<BookRow>, authors: seq<Author>) {
    forall i :: 0 <= i < |books| && books[i].author.Some? ==> books[i].author.value in authors
  }

  /** Appending a book whose title no stored title contains, and whose author
      is on file, keeps the store deduplicated and its references intact. */
  lemma SaveKeepsBooksConsistent(books: seq<BookRow>, authors: seq<Author>, authors': seq<Author>, row: BookRow)
    requires TitlesDeduplicated(books) && AuthorsOnFile(books, authors) && authors <= authors'
    requires forall j :: 0 <= j < |books| ==> !ContainsIgnoreCase(books[j].title, row.title)
    requires row.author.Some? ==> row.author.value in authors'
    ensures TitlesDeduplicated(books + [row]) && AuthorsOnFile(books + [row], authors')
  {
    forall i | 0 <= i < |books| && books[i].author.Some? ensures books[i].author.value in authors' {
      var k :| 0 <= k < |authors| && authors[k] == books[i].author.value;
      assert authors'[k] == authors[k];
    }
  }

  /** Appending an author whose name no stored name contains keeps the author
      store deduplicated. */
  lemma SaveKeepsAuthorsConsistent(authors: seq<Author>, a: Author)
    requires NamesDeduplicated(authors)
    requires forall j :: 0 <= j < |authors| ==> !ContainsIgnoreCase(authors[j].name, a.name)
    ensures NamesDeduplicated(authors + [a])
  {
  }

  /** In a deduplicated store no title occurs twice, even ignoring case. */
  lemma {:induction false} DeduplicatedTitlesDiffer(books: seq<BookRow>)
    requires TitlesDeduplicated(books)
    ensures forall i, j :: 0 <= i < j < |books| ==> Upper(books[i].title) != Upper(books[j].title)
  {
    forall i, j | 0 <= i < j < |books| ensures Upper(books[i].title) != Upper(books[j].title) {
      assert ContainsIgnoreCase(books[i].title, []);
      if Upper(books[i].title) == Upper(books[j].title) {
        assert ContainsIgnoreCase(books[i].title, books[j].title);
      }
    }
  }

  /** The two repositories. Ids come from counters, as an identity column
      hands them out. */
  class Store {
    var books: seq<BookRow>
    var authors: seq<Author>
    var nextBookId: int
    var nextAuthorId: int
    /** Every write, in order. */
    ghost var writes: seq<Write>

    /** Ids are distinct, and below the counters. */
    ghost predicate Valid()
      reads this
    {
      (forall i :: 0 <= i < |authors| ==> authors[i].id.Some? && authors[i].id.value < nextAuthorId) &&
      (forall i, j :: 0 <= i < j < |authors| ==> authors[i].id != authors[j].id) &&
      (forall i :: 0 <= i < |books| ==> books[i].id < nextBookId) &&
      (forall i, j :: 0 <= i < j < |books| ==> books[i].id != books[j].id)
    }

    /** What search-and-save keeps true and a bare save need not. */
    ghost predicate Consistent()
      reads this
    {
      TitlesDeduplicated(books) && NamesDeduplicated(authors) && AuthorsOnFile(books, authors)
    }

    constructor ()
      ensures Valid() && Consistent()
      ensures books == [] && authors == [] && writes == []
      ensures nextBookId == 1 && nextAuthorId == 1
    {
      books, authors, writes := [], [], [];
      nextBookId, nextAuthorId := 1, 1;
    }

    /** `findByTituloContainsIgnoreCase`: the first stored book whose title
        contains `t`, ignoring case; the stored title is the haystack. */
    function FindBookByTitle(t: string): (r: Option<BookRow>)
      reads this
      ensures r.None? <==> forall j :: 0 <= j < |books| ==> !ContainsIgnoreCase(books[j].title, t)
      ensures r.Some? ==> exists i :: 0 <= i < |books| && books[i] == r.value && ContainsIgnoreCase(books[i].title, t) &&
                                      forall j :: 0 <= j < i ==> !ContainsIgnoreCase(books[j].title, t)
    {
      var i := FindTitle(books, t);
      if i.Some? then Some(books[i.value]) else None
    }

    /** `findByNombreContainsIgnoreCase`: the first stored author whose name
        contains `n`, ignoring case; the stored name is the haystack. */
    function FindAuthorByName(n: string): (r: Option<Author>)
      reads this
      ensures r.None? <==> forall j :: 0 <= j < |authors| ==> !ContainsIgnoreCase(authors[j].name, n)
      ensures r.Some? ==> exists i :: 0 <= i < |authors| && authors[i] == r.value && ContainsIgnoreCase(authors[i].name, n) &&
                                      forall j :: 0 <= j < i ==> !ContainsIgnoreCase(authors[j].name, n)
    {
      var i := FindName(authors, n);
      if i.Some? then Some(authors[i.value]) else None
    }

    /** `findByIdioma`: the stored books whose language is `code`, in store
        order. */
    function FindByLanguage(code: string): (r: seq<BookRow>)
      reads this
      ensures forall i :: 0 <= i < |r| ==> r[i] in books && r[i].language == code
      ensures forall i :: 0 <= i < |books| && books[i].language == code ==> books[i] in r
      ensures r == [] <==> forall i :: 0 <= i < |books| ==> books[i].language != code
      ensures r == Filter(books, LanguageIs(code))
    {
      FilterMembers(books, LanguageIs(code));
      Filter(books, LanguageIs(code))
    }

    /** The author store's `save` of a new author: it gets the next id. */
    method SaveAuthor(a: Author) returns (saved: Author)
      requires Valid()
      requires a.id.None?
      modifies this
      ensures Valid()
      ensures saved == Author(Some(old(nextAuthorId)), a.name)
      ensures authors == old(authors) + [saved] && nextAuthorId == old(nextAuthorId) + 1
      ensures writes == old(writes) + [AuthorSaved(old(nextAuthorId))]
      ensures books == old(books) && nextBookId == old(nextBookId)
    {
      saved := Author(Some(nextAuthorId), a.name);
      authors := authors + [saved];
      writes := writes + [AuthorSaved(nextAuthorId)];
      nextAuthorId := nextAuthorId + 1;
    }

    /** The book store's `save` of a new book: it gets the next id, written
        into the entity too, and its field values are stored. */
    method SaveBook(b: Book) returns (row: BookRow)
      requires Valid()
      requires b.id.None? && b.title.Some? && b.language.Some?
      modifies this, b
      ensures Valid()
      ensures b.id == Some(old(nextBookId))
      ensures b.title == old(b.title) && b.author == old(b.author) && b.language == old(b.language) && b.genre == old(b.genre)
      ensures row == BookRow(old(nextBookId), b.title.value, b.author, b.language.value, b.genre)
      ensures books == old(books) + [row] && nextBookId == old(nextBookId) + 1
      ensures writes == old(writes) + [BookSaved(old(nextBookId))]
      ensures authors == old(authors) && nextAuthorId == old(nextAuthorId)
    {
      b.SetId(Some(nextBookId));
      row := BookRow(nextBookId, b.title.value, b.author, b.language.value, b.genre);
      books := books + [row];
      writes := writes + [BookSaved(nextBookId)];
      nextBookId := nextBookId + 1;
    }

    /** The saving half of `buscarlibrosPorTitulo`, for a record that passed
        the duplicate check: build the book; point it at the first stored
        author whose name contains its author's name, or save its author
        first; then save the book. */
    method SaveRecord(d: ApiRecord) returns (row: BookRow)
      requires Valid()
      requires d.languages != []
      modifies this
      ensures Valid()
      ensures old(Consistent()) && old(FindBookByTitle(d.title)).None? ==> Consistent()
      ensures row.id == old(nextBookId) && row.title == d.title &&
              row.language == d.languages[0] && row.genre == None
      ensures books == old(books) + [row] && nextBookId == old(nextBookId) + 1
      ensures d.authors == [] ==>
                row.author == None && authors == old(authors) &&
                nextAuthorId == old(nextAuthorId) && writes == old(writes) + [BookSaved(row.id)]
      ensures d.authors != [] && old(FindAuthorByName(d.authors[0])).Some? ==>
                row.author == old(FindAuthorByName(d.authors[0])) && authors == old(authors) &&
                nextAuthorId == old(nextAuthorId) && writes == old(writes) + [BookSaved(row.id)]
      ensures d.authors != [] && old(FindAuthorByName(d.authors[0])).None? ==>
                row.author == Some(Author(Some(old(nextAuthorId)), d.authors[0])) &&
                authors == old(authors) + [row.author.value] &&
                nextAuthorId == old(nextAuthorId) + 1 &&
                writes == old(writes) + [AuthorSaved(old(nextAuthorId)), BookSaved(row.id)]
    {
      ghost var wasConsistent := Consistent() && FindBookByTitle(d.title).None?;
      ghost var books0, authors0 := books, authors;
      var book := new Book.FromRecord(d);
      var author := book.author;
      if author.Some? {
        var existing := FindAuthorByName(author.value.name);
        if existing.Some? {
          book.SetAuthor(existing);
        } else {
          // the save gives the one author object its id, which the book then refers to
          var saved := SaveAuthor(author.value);
          if wasConsistent { SaveKeepsAuthorsConsistent(authors0, saved); }
          book.SetAuthor(Some(saved));
        }
      }
      row := SaveBook(book);
      if wasConsistent { SaveKeepsBooksConsistent(books0, authors0, authors, row); }
    }

    /** `buscarlibrosPorTitulo`, given the decoded API results for `query`.
        Choose the first matching result; reject it when a stored title
        contains its title; otherwise save it with `SaveRecord`. */
    method SearchAndSave(query: string, results: seq<ApiRecord>) returns (outcome: Outcome)
      requires Valid()
      modifies this
      ensures Valid()
      ensures old(Consistent()) ==> Consistent()
      ensures Chosen(results, query).None? ==> outcome == NotFoundInApi
      ensures Chosen(results, query).Some? ==>
                var d := Chosen(results, query).value;
                (outcome == DuplicateBook <==> old(FindBookByTitle(d.title)).Some?) &&
                (outcome == MalformedRecord <==> old(FindBookByTitle(d.title)).None? && d.languages == []) &&
                (outcome.Saved? <==> old(FindBookByTitle(d.title)).None? && d.languages != [])
      ensures !outcome.Saved? ==>
                books == old(books) && authors == old(authors) && writes == old(writes) &&
                nextBookId == old(nextBookId) && nextAuthorId == old(nextAuthorId)
      ensures outcome.Saved? ==>
                Chosen(results, query).Some? &&
                var d := Chosen(results, query).value;
                d.languages != [] &&
                outcome.book.id == old(nextBookId) && outcome.book.title == d.title &&
                outcome.book.language == d.languages[0] && outcome.book.genre == None &&
                books == old(books) + [outcome.book] && nextBookId == old(nextBookId) + 1 &&
                (d.authors == [] ==>
                   outcome.book.author == None && authors == old(authors) &&
                   nextAuthorId == old(nextAuthorId) && writes == old(writes) + [BookSaved(outcome.book.id)]) &&
                (d.authors != [] && old(FindAuthorByName(d.authors[0])).Some? ==>
                   outcome.book.author == old(FindAuthorByName(d.authors[0])) && authors == old(authors) &&
                   nextAuthorId == old(nextAuthorId) && writes == old(writes) + [BookSaved(outcome.book.id)]) &&
                (d.authors != [] && old(FindAuthorByName(d.authors[0])).None? ==>
                   outcome.book.author == Some(Author(Some(old(nextAuthorId)), d.authors[0])) &&
                   authors == old(authors) + [outcome.book.author.value] &&
                   nextAuthorId == old(nextAuthorId) + 1 &&
                   writes == old(writes) + [AuthorSaved(old(nextAuthorId)), BookSaved(outcome.book.id)])
    {
      var picked := SelectRecord(results, query);
      if picked.None? {
        return NotFoundInApi;
      }
      var d := results[picked.value];
      if FindBookByTitle(d.title).Some? {
        return DuplicateBook;
      }
      if d.languages == [] {
        return MalformedRecord;
      }
      var row := SaveRecord(d);
      outcome := Saved(row);
    }

    /** `listarLibrosRegistrados`: "no books yet" on an empty store, otherwise
        every stored book, ascending by title, books with equal titles in
        store order. */
    function ListBooks(): (r: BookListing)
      reads this
      ensures r == NoBooksYet <==> books == []
      ensures r.AllBooks? ==> SortedBy(r.books, TitleOf) && multiset(r.books) == multiset(books)
      ensures r.AllBooks? ==> forall t :: WithKey(r.books, TitleOf, t) == WithKey(books, TitleOf, t)
    {
      if books == [] then NoBooksYet
      else
        SortIsStable(books, TitleOf);
        AllBooks(SortBy(books, TitleOf))
    }

    /** `listarAutoresRegistrados`: every stored author, ascending by name,
        authors with equal names in store order; an empty store gives an empty
        list. */
    function ListAuthors(): (r: seq<Author>)
      reads this
      ensures SortedBy(r, NameOf) && multiset(r) == multiset(authors)
      ensures forall n :: WithKey(r, NameOf, n) == WithKey(authors, NameOf, n)
    {
      SortIsStable(authors, NameOf);
      SortBy(authors, NameOf)
    }

    /** `listarLibrosPorIdioma`: the language query's result as it comes, or
        "none found" when no stored book has that language. */
    function ListBooksByLanguage(code: string): (r: LanguageListing)
      reads this
      ensures r == NoneInLanguage <==> forall i :: 0 <= i < |books| ==> books[i].language != code
      ensures r.InLanguage? ==> r.books == FindByLanguage(code)
    {
      var found := FindByLanguage(code);
      if found == [] then NoneInLanguage else InLanguage(found)
    }
  }
}
