/**
 * The book collection of lista_livros.h / lista_livros.c: a singly linked
 * list of record copies, new records at the head, with a node counter.
 */
module ListaLivros {
  import opened Wrappers
  import opened CStrings
  import opened Livros
  import opened Nos

  type NoLista = No<Livro>


  // ---------------------------------------------------------------------
  // The list as a value: the specification the methods are proved against

  /** Position of the first record, in list order, whose ISBN equals `isbn`. */
  function IndiceIsbn(ls: seq<Livro>, isbn: string): (r: Option<nat>)
    ensures r.Some? ==> r.value < |ls| && ls[r.value].isbn == isbn
    ensures r.Some? ==> forall j :: 0 <= j < r.value ==> ls[j].isbn != isbn
    ensures r.None? <==> forall j :: 0 <= j < |ls| ==> ls[j].isbn != isbn
  {
    if ls == [] then None
    else if ls[0].isbn == isbn then Some(0)
    else
      var r := IndiceIsbn(ls[1..], isbn);
      if r.Some? then Some(r.value + 1) else None
  }

  /**
   * The list without its first record whose ISBN equals `isbn` (unchanged
   * if there is none): the records before it keep their positions, those
   * after it move up by one.
   */
  function SemPrimeiroIsbn(ls: seq<Livro>, isbn: string): (r: seq<Livro>)
    ensures |r| == if IndiceIsbn(ls, isbn).Some? then |ls| - 1 else |ls|
    ensures forall j :: 0 <= j < |r| ==>
      r[j] == if IndiceIsbn(ls, isbn).Some? && j >= IndiceIsbn(ls, isbn).value then ls[j + 1] else ls[j]
  {
    match IndiceIsbn(ls, isbn)
    case None => ls
    case Some(k) => ls[..k] + ls[k + 1..]
  }

  /** The ISBNs of a list, in list order. */
  function Isbns(ls: seq<Livro>): (r: seq<string>)
    ensures |r| == |ls|
  {
    seq(|ls|, i requires 0 <= i < |ls| => ls[i].isbn)
  }

  /** No ISBN occurs twice: the uniqueness the menu driver keeps (the collection does not). */
  ghost predicate IsbnsDistintos(ls: seq<Livro>) {
    forall i, j :: 0 <= i < j < |ls| ==> ls[i].isbn != ls[j].isbn
  }

  /**
   * Removing by ISBN takes out exactly one copy of the first matching record
   * when there is one, keeps every other record (and the order of the rest,
   * by construction), and changes nothing otherwise.
   */
  lemma {:induction false} SemPrimeiroIsbnRemoveUm(ls: seq<Livro>, isbn: string)
    ensures IndiceIsbn(ls, isbn).None? ==> SemPrimeiroIsbn(ls, isbn) == ls
    ensures IndiceIsbn(ls, isbn).Some? ==>
      |SemPrimeiroIsbn(ls, isbn)| == |ls| - 1 &&
      multiset(SemPrimeiroIsbn(ls, isbn)) + multiset{ls[IndiceIsbn(ls, isbn).value]} == multiset(ls)
  {
    match IndiceIsbn(ls, isbn)
    case None =>
    case Some(k) =>
      assert ls == ls[..k] + [ls[k]] + ls[k + 1..];
  }

  /** After inserting a record, lookup by its ISBN finds it, even when an older record has the same ISBN. */
  lemma InseridoEncontrado(ls: seq<Livro>, l: Livro)
    ensures IndiceIsbn([l] + ls, l.isbn) == Some(0)
  {
  }

  /** Inserting at the head and then removing by a fresh ISBN gives back the original list. */
  lemma {:induction false} InserirRemoverIsbnNovo(ls: seq<Livro>, l: Livro)
    requires IndiceIsbn(ls, l.isbn).None?
    ensures SemPrimeiroIsbn([l] + ls, l.isbn) == ls
  {
    assert ([l] + ls)[1..] == ls;
  }

  /** The ISBNs left after removing position `k`. */
  lemma {:induction false} IsbnsSemPosicao(ls: seq<Livro>, k: nat)
    requires k < |ls|
    ensures Isbns(ls[..k] + ls[k + 1..]) == Isbns(ls)[..k] + Isbns(ls)[k + 1..]
    ensures multiset(Isbns(ls[..k] + ls[k + 1..])) == multiset(Isbns(ls)) - multiset{ls[k].isbn}
  {
    var r := ls[..k] + ls[k + 1..];
    var ids := Isbns(ls);
    assert Isbns(r) == ids[..k] + ids[k + 1..];
    assert ids == ids[..k] + [ls[k].isbn] + ids[k + 1..];
  }

  /** An ISBN no record carries is not among the ISBNs. */
  lemma IsbnAusente(ls: seq<Livro>, isbn: string)
    requires IndiceIsbn(ls, isbn).None?
    ensures isbn !in multiset(Isbns(ls))
  {
  }

  /** Removing by ISBN from a list with distinct ISBNs removes that ISBN and keeps the others distinct. */
  lemma {:induction false} SemPrimeiroIsbnDistintos(ls: seq<Livro>, isbn: string)
    requires IsbnsDistintos(ls)
    ensures IsbnsDistintos(SemPrimeiroIsbn(ls, isbn))
    ensures multiset(Isbns(SemPrimeiroIsbn(ls, isbn))) == multiset(Isbns(ls)) - multiset{isbn}
  {
    match IndiceIsbn(ls, isbn)
    case None =>
      IsbnAusente(ls, isbn);
    case Some(k) =>
      IsbnsSemPosicao(ls, k);
      var r := ls[..k] + ls[k + 1..];
      forall a, b | 0 <= a < b < |r|
        ensures r[a].isbn != r[b].isbn
      {
        var a', b' := if a < k then a else a + 1, if b < k then b else b + 1;
        assert r[a] == ls[a'] && r[b] == ls[b'];
      }
  }

  /**
   * Inserting records with distinct ISBNs and then removing each ISBN once,
   * in any order, leaves the list empty, so every lookup fails.
   */
  lemma {:induction false} RemoverTodosEsvazia(ls: seq<Livro>, ordem: seq<string>)
    requires IsbnsDistintos(ls)
    requires multiset(ordem) == multiset(Isbns(ls))
    ensures RemoverEmOrdem(ls, ordem) == []
    decreases |ordem|
  {
    if ordem == [] {
      assert |Isbns(ls)| == |multiset(Isbns(ls))| == 0;
    } else {
      var resto := SemPrimeiroIsbn(ls, ordem[0]);
      SemPrimeiroIsbnDistintos(ls, ordem[0]);
      MultisetCauda(ordem);
      RemoverTodosEsvazia(resto, ordem[1..]);
    }
  }

  /** A non-empty sequence is its head followed by its tail. */
  lemma CabecaCauda<T>(s: seq<T>)
    requires s != []
    ensures s == [s[0]] + s[1..]
  {
  }

  /** Dropping the first element of a sequence drops one occurrence of it from its multiset. */
  lemma MultisetCauda<T>(s: seq<T>)
    requires s != []
    ensures multiset(s[1..]) == multiset(s) - multiset{s[0]}
  {
    assert s == [s[0]] + s[1..];
  }

  /** Removing the ISBNs of `ordem` one after another. */
  function RemoverEmOrdem(ls: seq<Livro>, ordem: seq<string>): seq<Livro>
    decreases |ordem|
  {
    if ordem == [] then ls else RemoverEmOrdem(SemPrimeiroIsbn(ls, ordem[0]), ordem[1..])
  }

  /** The list a sequence of head insertions builds: the inserted records, last one first. */
  function Inverter<T>(s: seq<T>): (r: seq<T>)
    ensures |r| == |s|
    ensures forall i :: 0 <= i < |s| ==> r[i] == s[|s| - 1 - i]
  {
    if s == [] then [] else Inverter(s[1..]) + [s[0]]
  }

  /** `base` is what `r` ends with: head insertions in front of it left it intact. */
  ghost predicate TerminaCom<T>(r: seq<T>, base: seq<T>) {
    |base| <= |r| && r[|r| - |base|..] == base
  }

  /** What ends with `[x] + base` ends with `base`. */
  lemma TerminaComCauda<T>(r: seq<T>, x: T, base: seq<T>)
    requires TerminaCom(r, [x] + base)
    ensures TerminaCom(r, base)
  {
    assert r[|r| - |base|..] == r[|r| - |base| - 1..][1..];
  }

  /** Inserting `x` at the head of `base`, then the records of `xs`, puts `x` just in front of `base`. */
  lemma InserirAntes<T>(x: T, xs: seq<T>, base: seq<T>)
    ensures Inverter(xs) + ([x] + base) == Inverter([x] + xs) + base
  {
    assert ([x] + xs)[1..] == xs;
  }

  /** Building a list by head insertion twice restores the original order. */
  lemma InverterInvolutivo<T>(s: seq<T>)
    ensures Inverter(Inverter(s)) == s
  {
    assert forall i :: 0 <= i < |s| ==> Inverter(Inverter(s))[i] == s[i];
  }

  /** One more element of a sequence extends its prefix by that element. */
  lemma PrefixoPasso<T>(s: seq<T>, i: nat)
    requires i < |s|
    ensures s[..i + 1] == s[..i] + [s[i]]
  {
  }

  // ---------------------------------------------------------------------
  // The linked list in the heap

  /** `ColecaoLivros`: the head pointer and the counter. */
  class ColecaoLivros {
    var inicio: No?<Livro>
    var quantidade: int
    /** The nodes reachable from `inicio`, and the records they hold, in list order. */
    ghost var nos: seq<NoLista>
    ghost var livros: seq<Livro>

    /** `quantidade` counts the nodes reachable from `inicio`. */
    ghost predicate Valid()
      reads this, nos
    {
      Cadeia(nos, livros) && inicio == Primeiro(nos) && quantidade == |livros|
    }

    constructor ()
      ensures Valid() && livros == [] && nos == []
    {
      inicio := null;
      quantidade := 0;
      nos := [];
      livros := [];
    }
  }

  /** `criar_colecao`: an empty collection, or NULL when `malloc` fails. */
  method CriarColecao(alocou: bool) returns (c: ColecaoLivros?)
    ensures c != null <==> alocou
    ensures c != null ==> fresh(c) && c.Valid() && c.livros == [] && c.inicio == null && c.quantidade == 0
  {
    if !alocou {
      return null;
    }
    c := new ColecaoLivros();
  }

  /**
   * `adicionar_livro_colecao`: a copy of `l` becomes the new head, the old
   * list its tail, and the counter grows by one. A NULL collection or a
   * failed node allocation changes nothing. The C function returns nothing.
   */
  method AdicionarLivroColecao(c: ColecaoLivros?, l: Livro, alocou: bool)
    requires c != null ==> c.Valid()
    modifies c
    ensures c != null ==> c.Valid()
    ensures c != null ==> c.livros == if alocou then [l] + old(c.livros) else old(c.livros)
    ensures c != null && alocou ==> fresh(c.nos[0]) && c.nos[1..] == old(c.nos)
    ensures c != null && !alocou ==> c.nos == old(c.nos)
  {
    if c == null || !alocou {
      return;
    }
    var novo := new No(l, c.inicio);
    c.inicio := novo;
    c.quantidade := c.quantidade + 1;
    c.nos := [novo] + c.nos;
    c.livros := [l] + c.livros;
  }

  /**
   * `remover_livro_colecao`: unlinks the first node whose ISBN is equal to
   * `isbn` and returns 1; returns 0 and changes nothing when the collection
   * is NULL or empty, `isbn` is NULL, or no node matches.
   */
  method RemoverLivroColecao(c: ColecaoLivros?, isbn: Option<string>) returns (r: int)
    requires c != null ==> c.Valid()
    requires isbn.Some? ==> CString(isbn.value)
    modifies c, if c != null then c.nos else []
    ensures c != null ==> c.Valid()
    ensures c == null || isbn.None? ==> r == 0
    ensures c != null && isbn.None? ==> c.livros == old(c.livros) && c.nos == old(c.nos)
    ensures c != null && isbn.Some? ==>
      (r == 1 <==> IndiceIsbn(old(c.livros), isbn.value).Some?) &&
      (r == 0 || r == 1) &&
      c.livros == SemPrimeiroIsbn(old(c.livros), isbn.value)
    ensures c != null && isbn.Some? ==>
      c.nos == match IndiceIsbn(old(c.livros), isbn.value)
               case None => old(c.nos)
               case Some(k) => old(c.nos)[..k] + old(c.nos)[k + 1..]
  {
    if c == null || isbn.None? {
      return 0;
    }
    if c.inicio == null {
      assert c.livros == [];
      return 0;
    }
    var anterior, atual, i := LocalizarIsbn(c, isbn.value);
    if atual == null {
      return 0;
    }
    Desligar(c, anterior, atual, i);
    return 1;
  }

  /**
   * The search loop of `remover_livro_colecao`: walks the list keeping the
   * previous node, and stops at the first node whose ISBN equals `isbn`.
   */
  method LocalizarIsbn(c: ColecaoLivros, isbn: string) returns (anterior: No?<Livro>, atual: No?<Livro>, ghost i: nat)
    requires c.Valid()
    ensures atual == null <==> IndiceIsbn(c.livros, isbn).None?
    ensures atual != null ==> IndiceIsbn(c.livros, isbn) == Some(i) && i < |c.nos| && atual == c.nos[i]
    ensures i <= |c.nos| && anterior == (if i == 0 then null else c.nos[i - 1])
  {
    atual := c.inicio;
    anterior := null;
    i := 0;
    while atual != null && Strcmp(atual.dado.isbn, isbn) != 0
      invariant 0 <= i <= |c.nos|
      invariant atual == (if i < |c.nos| then c.nos[i] else null)
      invariant anterior == (if i == 0 then null else c.nos[i - 1])
      invariant forall k :: 0 <= k < i ==> c.livros[k].isbn != isbn
      decreases |c.nos| - i
    {
      anterior := atual;
      atual := atual.proximo;
      i := i + 1;
    }
    if atual != null {
      assert IndiceIsbn(c.livros, isbn) == Some(i);
    }
  }

  /**
   * The unlinking step of `remover_livro_colecao`: node `i`, whose
   * predecessor is `anterior` (NULL for the head), leaves the list.
   */
  method Desligar(c: ColecaoLivros, anterior: No?<Livro>, atual: No<Livro>, ghost i: nat)
    requires c.Valid() && i < |c.nos| && atual == c.nos[i]
    requires anterior == (if i == 0 then null else c.nos[i - 1])
    modifies c, c.nos
    ensures c.Valid()
    ensures c.nos == old(c.nos[..i] + c.nos[i + 1..])
    ensures c.livros == old(c.livros[..i] + c.livros[i + 1..])
  {
    ghost var antes := c.nos;
    if anterior == null {
      c.inicio := atual.proximo;
    } else {
      anterior.proximo := atual.proximo;
    }
    c.quantidade := c.quantidade - 1;
    CadeiaSemNo(antes, c.livros, i);
    c.nos := antes[..i] + antes[i + 1..];
    c.livros := c.livros[..i] + c.livros[i + 1..];
  }

  /**
   * `buscar_livro_por_isbn_na_colecao`: the node holding the first record,
   * in list order, whose ISBN equals `isbn` (C returns the address of its
   * record), or NULL when there is none or an argument is NULL.
   */
  method BuscarLivroPorIsbnNaColecao(c: ColecaoLivros?, isbn: Option<string>) returns (r: No?<Livro>)
    requires c != null ==> c.Valid()
    requires isbn.Some? ==> CString(isbn.value)
    ensures c == null || isbn.None? ==> r == null
    ensures c != null && isbn.Some? ==>
      match IndiceIsbn(c.livros, isbn.value)
      case None => r == null
      case Some(k) => r == c.nos[k] && r.dado == c.livros[k]
  {
    if c == null || isbn.None? {
      return null;
    }
    var atual := c.inicio;
    ghost var i := 0;
    while atual != null
      invariant 0 <= i <= |c.nos|
      invariant atual == (if i < |c.nos| then c.nos[i] else null)
      invariant forall k :: 0 <= k < i ==> c.livros[k].isbn != isbn.value
      decreases |c.nos| - i
    {
      if Strcmp(atual.dado.isbn, isbn.value) == 0 {
        return atual;
      }
      atual := atual.proximo;
      i := i + 1;
    }
    return null;
  }

  /**
   * `listar_todos_livros`: the records it displays, head to tail; nothing
   * for a NULL or empty collection. The collection is not modified.
   */
  method ListarTodosLivros(c: ColecaoLivros?) returns (exibidos: seq<Livro>)
    requires c != null ==> c.Valid()
    ensures c == null ==> exibidos == []
    ensures c != null ==> exibidos == c.livros
  {
    exibidos := [];
    if c == null || c.inicio == null {
      return;
    }
    var atual := c.inicio;
    ghost var i := 0;
    while atual != null
      invariant 0 <= i <= |c.nos|
      invariant atual == (if i < |c.nos| then c.nos[i] else null)
      invariant exibidos == c.livros[..i]
      decreases |c.nos| - i
    {
      exibidos := exibidos + [atual.dado];
      atual := atual.proximo;
      i := i + 1;
    }
  }

  /**
   * `tamanho_colecao`, declared in lista_livros.h (lista_livros.c has no
   * definition): the number of records, 0 for NULL.
   */
  function TamanhoColecao(c: ColecaoLivros?): (r: int)
    reads c, if c != null then c.nos else []
    requires c != null ==> c.Valid()
    ensures c == null ==> r == 0
    ensures c != null ==> r == |c.livros|
  {
    if c == null then 0 else c.quantidade
  }

  /**
   * `destruir_colecao`: walks the list releasing every node, then releases
   * the collection. Releasing a node is modelled by the collection no
   * longer owning it: each iteration drops the head of the nodes still
   * owned, which stay a well-formed chain from `atual`. Releasing the
   * collection itself is modelled by leaving it empty.
   */
  method DestruirColecao(c: ColecaoLivros?)
    requires c != null ==> c.Valid()
    modifies c
    ensures c != null ==> c.Valid() && c.livros == [] && c.nos == []
  {
    if c == null {
      return;
    }
    ghost var todos := c.nos;
    ghost var registros := c.livros;
    var atual := c.inicio;
    ghost var i := 0;
    while atual != null
      invariant 0 <= i <= |todos| && |todos| == |registros|
      invariant c.nos == todos[i..] && c.livros == registros[i..]
      invariant Cadeia(c.nos, c.livros) && atual == Primeiro(c.nos)
      decreases |c.nos|
    {
      var proximoNo := atual.proximo;
      CadeiaCauda(c.nos, c.livros);
      c.nos := c.nos[1..];
      c.livros := c.livros[1..];
      atual := proximoNo;
      i := i + 1;
    }
    c.inicio := null;
    c.quantidade := 0;
  }
}
