/** The book entity (`Libro`) and the values it is built from: the decoded API
    record (`DatosLibro`) and the author entity (`Autor`). Java's `null` is
    `None`. */
module BookEntity {
  import opened Lists

  /** One decoded API search result: its title, its language codes and its
      author names, each list in the order the API gives. */
  datatype ApiRecord = ApiRecord(title: string, languages: seq<string>, authors: seq<string>)

  /** An author: its store id (`None` until the author store saves it) and its
      display name. */
  datatype Author = Author(id: Option<int>, name: string)

  /** How string concatenation shows a possibly-null string. A null and the
      text "null" show alike. */
  function Show(s: Option<string>): (r: string)
    ensures s.Some? ==> r == s.value
    ensures r == "null" <==> s.None? || s == Some("null")
  {
    if s.Some? then s.value else "null"
  }

  /** What the rendering of a book shows for its author: the name, or
      "Desconocido" for no author, which an author of that name shows alike. */
  function AuthorShown(a: Option<Author>): (r: string)
    ensures a.Some? ==> r == a.value.name
    ensures r == "Desconocido" <==> a.None? || a.value.name == "Desconocido"
  {
    if a.Some? then a.value.name else "Desconocido"
  }

  const Banner: string := "---------------- LIBRO ----------------"
  const Footer: string := "---------------------------------------"

  /** `ls` joined with a line break between consecutive elements. */
  function JoinLines(ls: seq<string>): string {
    if ls == [] then []
    else if |ls| == 1 then ls[0]
    else ls[0] + "\n" + JoinLines(ls[1..])
  }

  /** `s` cut at every line break. */
  function Lines(s: string): (r: seq<string>)
    ensures |r| >= 1
  {
    if s == [] then [[]]
    else
      var rest := Lines(s[1..]);
      if s[0] == '\n' then [[]] + rest else [[s[0]] + rest[0]] + rest[1..]
  }

  /** A front part without line breaks becomes the start of the first line. */
  lemma {:induction false} LinesOfPrefix(a: string, b: string)
    requires '\n' !in a
    ensures Lines(a + b) == [a + Lines(b)[0]] + Lines(b)[1..]
  {
    if a != [] {
      assert (a + b)[0] == a[0] && (a + b)[1..] == a[1..] + b;
      LinesOfPrefix(a[1..], b);
      assert [a[0]] + (a[1..] + Lines(b)[0]) == a + Lines(b)[0];
    } else {
      assert a + b == b && a + Lines(b)[0] == Lines(b)[0];
      assert Lines(b) == [Lines(b)[0]] + Lines(b)[1..];
    }
  }

  /** Cutting a joined text at its line breaks gives back the lines, as long as
      no line holds a line break of its own. */
  lemma {:induction false} LinesJoinLines(ls: seq<string>)
    requires ls != []
    requires forall i :: 0 <= i < |ls| ==> '\n' !in ls[i]
    ensures Lines(JoinLines(ls)) == ls
  {
    if |ls| == 1 {
      LinesOfPrefix(ls[0], []);
      assert ls[0] + [] == ls[0];
    } else {
      var rest := JoinLines(ls[1..]);
      LinesJoinLines(ls[1..]);
      assert ls[0] + "\n" + rest == ls[0] + ("\n" + rest);
      LinesOfPrefix(ls[0], "\n" + rest);
      assert ("\n" + rest)[0] == '\n' && ("\n" + rest)[1..] == rest;
      assert Lines("\n" + rest) == [[]] + Lines(rest);
      assert ls[0] + [] == ls[0];
      assert ls == [ls[0]] + ls[1..];
    }
  }

  /** `Libro`, the mutable book entity. */
  class Book {
    var id: Option<int>
    var title: Option<string>
    var author: Option<Author>
    var language: Option<string>
    var genre: Option<string>

    /** `Libro()`: the empty entity, every field null. */
    constructor ()
      ensures id == None && title == None && author == None && language == None && genre == None
    {
      id, title, author, language, genre := None, None, None, None, None;
    }

    /** `Libro(DatosLibro)`: the title verbatim, the first language only, and
        a new, unsaved author for the first author name if there is one. The
        id and the genre stay null. The first language is read unconditionally,
        so an empty language list is the caller's to exclude. */
    constructor FromRecord(d: ApiRecord)
      requires d.languages != []
      ensures title == Some(d.title)
      ensures language == Some(d.languages[0])
      ensures d.authors != [] ==> author == Some(Author(None, d.authors[0]))
      ensures d.authors == [] ==> author == None
      ensures id == None && genre == None
    {
      id, genre, author := None, None, None;
      title := Some(d.title);
      language := Some(d.languages[0]);
      if d.authors != [] {
        author := Some(Author(None, d.authors[0]));
      }
    }

    method SetId(v: Option<int>)
      modifies this
      ensures id == v
      ensures title == old(title) && author == old(author) && language == old(language) && genre == old(genre)
    {
      id := v;
    }

    method SetTitle(v: Option<string>)
      modifies this
      ensures title == v
      ensures id == old(id) && author == old(author) && language == old(language) && genre == old(genre)
    {
      title := v;
    }

    method SetAuthor(v: Option<Author>)
      modifies this
      ensures author == v
      ensures id == old(id) && title == old(title) && language == old(language) && genre == old(genre)
    {
      author := v;
    }

    method SetLanguage(v: Option<string>)
      modifies this
      ensures language == v
      ensures id == old(id) && title == old(title) && author == old(author) && genre == old(genre)
    {
      language := v;
    }

    method SetGenre(v: Option<string>)
      modifies this
      ensures genre == v
      ensures id == old(id) && title == old(title) && author == old(author) && language == old(language)
    {
      genre := v;
    }

    /** `toString()`: a banner, one labelled line per shown field and a closing
        rule. Whenever the shown values hold no line break, each of them can be
        read back from its own line. */
    function ToString(): (r: string)
      reads this
      ensures '\n' !in Show(title) && '\n' !in AuthorShown(author) &&
              '\n' !in Show(language) && '\n' !in Show(genre) ==>
              Lines(r) == [Banner,
                           " Título: " + Show(title),
                           " Autor: " + AuthorShown(author),
                           " Idioma: " + Show(language),
                           " Género: " + Show(genre),
                           Footer]
    {
      var ls := [Banner,
                 " Título: " + Show(title),
                 " Autor: " + AuthorShown(author),
                 " Idioma: " + Show(language),
                 " Género: " + Show(genre),
                 Footer];
      if '\n' !in Show(title) && '\n' !in AuthorShown(author) &&
         '\n' !in Show(language) && '\n' !in Show(genre)
      then
        LinesJoinLines(ls);
        JoinLines(ls)
      else
        JoinLines(ls)
    }
  }
}
