# Literalura catalog core, in Dafny

Literalura keeps a local catalog of books found through the Gutendex search
API. A user types a title. The program takes the first API result whose title
contains the query, ignoring case. It refuses the result when a stored title
already contains that result's title. Otherwise it builds a `Libro` entity
with the first language and the first author. It reuses a stored author whose
name contains the new author's name, or saves the new author first. Then it
saves the book. Three read commands list the stored books sorted by title,
the stored authors sorted by name, and the books stored in one language.

This project models that core. The two repositories are a `Store` class
holding sequences, the remote API is its decoded result list, and printed
messages are returned outcome values.

Modules, one per concern:

- `Text` (`text.dfy`): ASCII upper-casing. Substring containment, proved equal
  to "occurs at some position". Case-insensitive containment. The
  lexicographic order of `String.compareTo`, proved equal to its documented
  definition and proved to be a total order.
- `Lists` (`lists.dfy`): the stream operations. `FirstWhere` is
  `filter().findFirst()`. `Filter` models the language query and is
  proved order preserving. `SortBy` is `sorted(Comparator.comparing(key))`, proved
  sorted, a permutation of its input, and stable.
- `BookEntity` (`book.dfy`): `DatosLibro` as `ApiRecord`, `Autor` as the
  value `Author`, and `Libro` as the class `Book` with its two constructors,
  setters and `toString`.
- `Catalog` (`catalog.dfy`): the repositories' queries and saves, the
  search-and-save workflow (`Store.SearchAndSave`), and the three listings.
- `Scenarios` (`scenarios.dfy`): clients that call the workflow twice, and
  two concrete runs.

Java's `null` is `Option.None` in the `Libro` fields, in the author
reference and in the query results. Titles, author names and the lists of a
decoded API record are plain strings and sequences, so they are never null
in the model. In a `Store`, `Valid()` says that
ids are distinct and below the id counters; every store method keeps it.
`Consistent()` says three things: no stored title contains a later stored
title (ignoring case), no stored author name contains a later one, and every
author a stored book refers to is stored. Search-and-save keeps
`Consistent()`, and a bare repository save need not. A ghost `writes` log
records the order of saves, so "the author is saved before the book" and
"nothing is written" can be stated.

Three behaviours of the code the model keeps:

- A record without languages makes the `Libro` constructor throw an index
  error (Libro.java:22), before anything is saved. The model returns
  `MalformedRecord` and leaves the store unchanged.
- Titles are stored as they come, empty ones included. The model puts no
  condition on a title.
- `toString` concatenates null fields as `"null"`. A freshly built book
  therefore shows ` Género: null`.

## Model

| member | source | states |
|---|---|---|
| `Text.Upper` | src/main/java/com/example/literalura/principal/Principal.java:88 | upper-casing keeps the length and maps each character independently (ASCII letters to upper case, all else unchanged) |
| `Text.UpperIdempotent` | src/main/java/com/example/literalura/principal/Principal.java:88 | upper-casing an upper-cased text changes nothing |
| `Text.UpperKeepsPrefix` | src/main/java/com/example/literalura/principal/Principal.java:88 | a prefix stays a prefix after upper-casing both texts |
| `Text.Contains` | src/main/java/com/example/literalura/principal/Principal.java:88 | `String.contains`: the empty text is contained in every text, and a contained text is never longer than its container |
| `Text.ContainsIgnoreCase` | src/main/java/com/example/literalura/principal/Principal.java:88 | the matching rule of the API filter and of both `ContainsIgnoreCase` queries (Principal.java:88, 96, 112): every text matches itself and the empty text, and a match is never longer than the text it is found in |
| `Text.ContainsAt` | src/main/java/com/example/literalura/principal/Principal.java:88 | whenever `contains` holds, there is a position at which the needle occurs |
| `Text.OccursContains` | src/main/java/com/example/literalura/principal/Principal.java:88 | an occurrence at any position makes `contains` hold |
| `Text.ContainsIff` | src/main/java/com/example/literalura/principal/Principal.java:88 | `contains` holds exactly when the needle occurs at some position of the haystack |
| `Text.LexLe` | src/main/java/com/example/literalura/principal/Principal.java:141 | `compareTo(b) <= 0` as used by `Comparator.comparing` at Principal.java:141 and 151: a prefix comes no later, and a title comes no later only if its first character is no greater |
| `Text.LexLeIff` | src/main/java/com/example/literalura/principal/Principal.java:141 | the title order is `compareTo`'s: a prefix comes first, otherwise the first differing character decides |
| `Text.LexLeReflexive` | src/main/java/com/example/literalura/principal/Principal.java:141 | every title is at most itself |
| `Text.LexLeTotal` | src/main/java/com/example/literalura/principal/Principal.java:141 | any two titles are comparable |
| `Text.LexLeTransitive` | src/main/java/com/example/literalura/principal/Principal.java:141 | the order is transitive |
| `Text.LexLeAntisymmetric` | src/main/java/com/example/literalura/principal/Principal.java:141 | two titles each at most the other are equal |
| `Lists.FirstWhere` | src/main/java/com/example/literalura/principal/Principal.java:87-89 | `filter().findFirst()`: the index found satisfies the test and no earlier element does; none is found only when no element satisfies it |
| `Lists.Filter` | src/main/java/com/example/literalura/principal/Principal.java:188 | the language query, modelled as a filter over the stored books: it never returns more elements than it is given |
| `Lists.FilterMembers` | src/main/java/com/example/literalura/principal/Principal.java:188 | the filtered result holds only elements of the input that pass the test, holds every element that passes, and is empty exactly when none passes |
| `Lists.FilterConcat` | src/main/java/com/example/literalura/principal/Principal.java:188-193 | filtering distributes over concatenation, so the language query keeps store order |
| `Lists.InsertPermutes` | src/main/java/com/example/literalura/principal/Principal.java:140-142 | inserting adds exactly the inserted element to the sequence's contents |
| `Lists.InsertSorts` | src/main/java/com/example/literalura/principal/Principal.java:140-142 | inserting into a sorted sequence keeps it sorted |
| `Lists.SortBy` | src/main/java/com/example/literalura/principal/Principal.java:140-142 | `sorted(Comparator.comparing(key))` returns a sequence sorted by key that is a permutation of the input |
| `Lists.InsertWithKey` | src/main/java/com/example/literalura/principal/Principal.java:140-142 | an inserted element goes in front of every element that has its key |
| `Lists.SortStable` | src/main/java/com/example/literalura/principal/Principal.java:140-142 | the sort is stable: for each key, the elements with that key keep their relative order |
| `Lists.SortIsStable` | src/main/java/com/example/literalura/principal/Principal.java:150-152 | stability for all keys at once |
| `BookEntity.Show` | src/main/java/com/example/literalura/model/Libro.java:72-75 | string concatenation shows a non-null value as itself; the result is "null" exactly for null or the text "null" |
| `BookEntity.AuthorShown` | src/main/java/com/example/literalura/model/Libro.java:73 | the author's name, shown as itself when there is an author; the result is "Desconocido" exactly for no author or an author of that name |
| `BookEntity.LinesJoinLines` | src/main/java/com/example/literalura/model/Libro.java:70-77 | cutting newline-joined lines at the line breaks gives the lines back, when no line holds a break |
| `BookEntity.Book.constructor` | src/main/java/com/example/literalura/model/Libro.java:17 | the no-argument entity has every field null |
| `BookEntity.Book.FromRecord` | src/main/java/com/example/literalura/model/Libro.java:20-27 | title verbatim; language the first listed; author a new unsaved author named by the first author name, or null when there is none; id and genre null |
| `BookEntity.Book.SetId` | src/main/java/com/example/literalura/model/Libro.java:33-35 | sets the id; every other field is unchanged |
| `BookEntity.Book.SetTitle` | src/main/java/com/example/literalura/model/Libro.java:41-43 | sets the title; every other field is unchanged |
| `BookEntity.Book.SetAuthor` | src/main/java/com/example/literalura/model/Libro.java:49-51 | sets the author; every other field is unchanged |
| `BookEntity.Book.SetLanguage` | src/main/java/com/example/literalura/model/Libro.java:57-59 | sets the language; every other field is unchanged |
| `BookEntity.Book.SetGenre` | src/main/java/com/example/literalura/model/Libro.java:65-67 | sets the genre; every other field is unchanged |
| `BookEntity.Book.ToString` | src/main/java/com/example/literalura/model/Libro.java:69-77 | the rendering is a banner, then one labelled line each for the verbatim title, the author's name (or "Desconocido"), the language and the genre (null shown as "null"), then a rule; this is stated when none of the four shown values holds a line break, and nothing is stated otherwise |
| `Catalog.SelectRecord` | src/main/java/com/example/literalura/principal/Principal.java:87-91 | the chosen API result is the first whose upper-cased title contains the upper-cased query; none is chosen only when no title matches |
| `Catalog.EmptyQueryChoosesFirst` | src/main/java/com/example/literalura/principal/Principal.java:87-89 | with an empty query the first API result is chosen |
| `Catalog.FindTitle` | src/main/java/com/example/literalura/principal/Principal.java:96 | the first stored book whose title contains the argument, ignoring case; none only when no stored title does |
| `Catalog.FindName` | src/main/java/com/example/literalura/principal/Principal.java:112 | the first stored author whose name contains the argument, ignoring case; none only when no stored name does |
| `Catalog.DeduplicatedTitlesDiffer` | src/main/java/com/example/literalura/principal/Principal.java:96-101 | in a deduplicated store no two titles are equal, even ignoring case |
| `Catalog.SaveKeepsBooksConsistent` | src/main/java/com/example/literalura/principal/Principal.java:96-124 | appending a book that passed the duplicate check, whose author is stored, keeps the book store deduplicated and its author references intact |
| `Catalog.SaveKeepsAuthorsConsistent` | src/main/java/com/example/literalura/principal/Principal.java:112-120 | appending an author no stored name contains keeps the author store deduplicated |
| `Catalog.Store.constructor` | src/main/java/com/example/literalura/principal/Principal.java:28-31 | a fresh, empty database handed to the program: both stores empty, both id counters at 1, nothing written; a database with earlier contents is any other `Valid()` store |
| `Catalog.Store.FindBookByTitle` | src/main/java/com/example/literalura/principal/Principal.java:96 | `findByTituloContainsIgnoreCase` with the stored title as haystack: a stored book that matches with no earlier match, or none when no stored title matches |
| `Catalog.Store.FindAuthorByName` | src/main/java/com/example/literalura/principal/Principal.java:112 | `findByNombreContainsIgnoreCase` with the stored name as haystack: a stored author that matches with no earlier match, or none when no stored name matches |
| `Catalog.Store.FindByLanguage` | src/main/java/com/example/literalura/principal/Principal.java:188 | `findByIdioma`: only stored books in that language, every one of them, empty exactly when the store has none in it; the result is the store order filter, so `FilterConcat` and `FilterMembers` apply |
| `Catalog.Store.SaveAuthor` | src/main/java/com/example/literalura/principal/Principal.java:119 | the author gets the next id and is appended; books unchanged; one author write logged |
| `Catalog.Store.SaveBook` | src/main/java/com/example/literalura/principal/Principal.java:124 | the book gets the next id, written into the entity too, and its field values are appended; authors unchanged; one book write logged |
| `Catalog.Store.SaveRecord` | src/main/java/com/example/literalura/principal/Principal.java:107-124 | exactly one book appended, with the record's title, first language and no genre; no author added when the record has none or a stored name contains it (the book then refers to that stored author); otherwise exactly one author added, saved before the book, and referred to by it |
| `Catalog.Store.SearchAndSave` | src/main/java/com/example/literalura/principal/Principal.java:75-130 | not found in the API when no title matches; a duplicate exactly when a stored title contains the chosen record's title; on every outcome but a save both stores and the write log are unchanged; a save behaves as `SaveRecord`; keeps the store consistent |
| `Catalog.Store.ListBooks` | src/main/java/com/example/literalura/principal/Principal.java:132-144 | "no books yet" exactly on an empty store; otherwise every stored book, as a permutation, sorted by title, equal titles in store order |
| `Catalog.Store.ListAuthors` | src/main/java/com/example/literalura/principal/Principal.java:146-153 | every stored author, as a permutation, sorted by name, equal names in store order; no separate empty case |
| `Catalog.Store.ListBooksByLanguage` | src/main/java/com/example/literalura/principal/Principal.java:179-195 | "none found" exactly when no stored book has that language; otherwise the language query's result unchanged, in store order |
| `Scenarios.SubmitTwice` | src/main/java/com/example/literalura/principal/Principal.java:96-101 | after a search saved a book, the same search again is a duplicate; over both calls exactly that one book is added, and the author store only grows, by at most one author |
| `Scenarios.SameAuthorTwice` | src/main/java/com/example/literalura/principal/Principal.java:109-121 | two saved books whose records name the same first author refer to the same stored author, and at most one author was added |
| `Scenarios.EmmaScenario` | src/main/java/com/example/literalura/principal/Principal.java:75-130 | "Emma" (en, fr; Jane Austen) into an empty store gives book 1 in "en" by author 1; submitting it again is a duplicate and leaves one book and one author |
| `Scenarios.ShortAfterLongScenario` | src/main/java/com/example/literalura/principal/Principal.java:96-101 | once a book is stored, a record whose title the stored title contains (ignoring case) is rejected as a duplicate, although it differs from the stored title |
| `Scenarios.WarAndPeaceContainsWar` | src/main/java/com/example/literalura/principal/Principal.java:96 | "War and Peace" contains "War" ignoring case, so "War" after "War and Peace" is such a duplicate |

## Left out

- HTTP fetching and URL building (Principal.java:80), and JSON decoding into
  `Datos` (Principal.java:84): these are the network and a foreign library.
  `SearchAndSave` takes the decoded result list as a parameter.
- The menu loop, the `Scanner` input and every console message
  (Principal.java:33-73 and all `System.out` calls): these are the user
  interface. Printed messages are the returned `Outcome` and listing values.
- An uncaught exception (the index error at Libro.java:22) also ends the menu
  loop. The model returns `MalformedRecord`; program termination is not
  modelled.
- `listarAutoresVivosEnDeterminadoAnio` (Principal.java:158-177): it only
  hands the year to a repository query, `autoresVivosEnDeterminadoAnio`, that
  is not part of this model. The author entity has no years to filter on.
- The getters (Libro.java:29-67): a Dafny field is read directly, so
  `book.title` is `getTitulo()`.
- `Autor` and the repository interfaces are modelled from their use only:
  `Author` has only an id and a name, and `Store` has only the queries and
  saves the program calls. A repository query is modelled as the
  first stored match in store order. The real `Optional`-returning query
  fails when several rows match; that case is not modelled.
- `findAll` (Principal.java:134, 148) and `findByIdioma` (Principal.java:188)
  are assumed to return rows in insertion order. A query without `ORDER BY`
  promises no order. The "store order" claims rest on this assumption: the
  order of the language listing, and the order of equal titles or names in the
  sorted listings.
- Id generation is a counter starting at 1. The JPA `IDENTITY` strategy, the
  `cascade = MERGE` mapping (Libro.java:9,12) and Spring wiring are left out.
- Catalog.Store.SaveBook: it requires an entity with no id and with a title and a
  language, because that is the only kind of book the workflow saves.
  Updating an existing row and storing null titles are not modelled.
- `findByIdioma` is modelled as exact string equality on the language code.
  The database's collation, which could make the comparison ignore case, is
  not part of this model.
- A null title, author name or list in a decoded API record is not modelled.
  In Java it raises a `NullPointerException` at Principal.java:88 or
  Libro.java:22-24.
- Store failures and API failures (a database or network error in the middle
  of a save) are not modelled. No partial write can happen in the model.
- Locale-aware Unicode upper-casing is modelled as ASCII upper-casing. Java's
  UTF-16 `compareTo` is modelled as order on Dafny characters, which are
  Unicode scalar values. The two orders differ only between supplementary
  characters and code units from U+E000 up.
- In the JPA code the saved `Autor` object gets its id in place, and the book
  already refers to that object. The model writes the saved author value back
  into the book with `SetAuthor`, which has the same effect.
