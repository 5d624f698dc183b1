/** The book record of livro.h and its truncating constructor from livro.c. */
module Livros {
  import opened Wrappers
  import opened CStrings

  /** Field capacities in bytes, each including the terminating NUL. */
  const TAM_TITULO: nat := 100
  const TAM_AUTOR: nat := 100
  const TAM_ISBN: nat := 14
  const TAM_GENERO: nat := 50

  /** Range of the C `int` that holds the year (32 bits on the platforms the binary format targets). */
  const INT_MIN: int := -0x8000_0000
  const INT_MAX: int := 0x7fff_ffff

  /**
   * `Livro`: the five fields in declaration order. Each string field holds
   * the characters before the terminator of its fixed-size array.
   */
  datatype Livro = Livro(
    titulo: string,
    autor: string,
    anoPublicacao: int,
    isbn: string,
    genero: string)

  /**
   * A record as `criar_livro` or the loaders can produce it from C strings:
   * every field a C string that fits its array with room for the terminator,
   * and the year a C `int`.
   */
  predicate BemFormado(l: Livro) {
    && CString(l.titulo) && |l.titulo| <= TAM_TITULO - 1
    && CString(l.autor) && |l.autor| <= TAM_AUTOR - 1
    && INT_MIN <= l.anoPublicacao <= INT_MAX
    && CString(l.isbn) && |l.isbn| <= TAM_ISBN - 1
    && CString(l.genero) && |l.genero| <= TAM_GENERO - 1
  }

  /**
   * `criar_livro`: `alocou` is whether `malloc` succeeded. The string
   * arguments are C strings (the C code does not test them for NULL).
   * Each string is cut to its capacity minus one; the year is copied.
   */
  function CriarLivro(titulo: string, autor: string, ano: int, isbn: string, genero: string,
                      alocou: bool): (r: Option<Livro>)
    requires CString(titulo) && CString(autor) && CString(isbn) && CString(genero)
    requires INT_MIN <= ano <= INT_MAX
    ensures r.Some? <==> alocou
    ensures r.Some? ==> BemFormado(r.value)
    ensures r.Some? ==> r.value.titulo == titulo[..Min(|titulo|, TAM_TITULO - 1)]
    ensures r.Some? ==> r.value.autor == autor[..Min(|autor|, TAM_AUTOR - 1)]
    ensures r.Some? ==> r.value.anoPublicacao == ano
    ensures r.Some? ==> r.value.isbn == isbn[..Min(|isbn|, TAM_ISBN - 1)]
    ensures r.Some? ==> r.value.genero == genero[..Min(|genero|, TAM_GENERO - 1)]
  {
    if !alocou then None
    else Some(Livro(
      Truncar(titulo, TAM_TITULO - 1),
      Truncar(autor, TAM_AUTOR - 1),
      ano,
      Truncar(isbn, TAM_ISBN - 1),
      Truncar(genero, TAM_GENERO - 1)))
  }

  function Min(a: int, b: int): int {
    if a <= b then a else b
  }

  /** Arguments that already fit are stored unchanged, so the record keeps them exactly. */
  lemma CriarLivroSemPerda(titulo: string, autor: string, ano: int, isbn: string, genero: string)
    requires CString(titulo) && CString(autor) && CString(isbn) && CString(genero)
    requires INT_MIN <= ano <= INT_MAX
    requires |titulo| < TAM_TITULO && |autor| < TAM_AUTOR && |isbn| < TAM_ISBN && |genero| < TAM_GENERO
    ensures CriarLivro(titulo, autor, ano, isbn, genero, true) == Some(Livro(titulo, autor, ano, isbn, genero))
  {
  }

  /** Building a record from the fields of a well-formed record gives that record back. */
  lemma CriarLivroDeCampos(l: Livro)
    requires BemFormado(l)
    ensures CriarLivro(l.titulo, l.autor, l.anoPublicacao, l.isbn, l.genero, true) == Some(l)
  {
  }
}
