/**
 * Title search and the two sorted displays of pesquisa_ordenacao.c. The sorts
 * copy the records, in list order, into an array, sort that array with
 * `qsort` and display it; the list itself is left as it was.
 */
module PesquisaOrdenacao {
  import opened Wrappers
  import opened CStrings
  import opened Livros
  import opened Nos
  import opened ListaLivros

  // ---------------------------------------------------------------------
  // Search

  /** Position of the first record, in list order, whose title contains `agulha`. */
  function IndiceTitulo(ls: seq<Livro>, agulha: string): (r: Option<nat>)
    ensures r.Some? ==> r.value < |ls| && Strstr(ls[r.value].titulo, agulha).Some?
    ensures r.Some? ==> forall j :: 0 <= j < r.value ==> Strstr(ls[j].titulo, agulha).None?
    ensures r.None? <==> forall j :: 0 <= j < |ls| ==> Strstr(ls[j].titulo, agulha).None?
  {
    if ls == [] then None
    else if Strstr(ls[0].titulo, agulha).Some? then Some(0)
    else
      var r := IndiceTitulo(ls[1..], agulha);
      if r.Some? then Some(r.value + 1) else None
  }

  /** An empty search string matches the head record, since `strstr` finds it at position 0. */
  lemma BuscaVaziaEncontraPrimeiro(ls: seq<Livro>)
    requires ls != []
    ensures IndiceTitulo(ls, "") == Some(0)
  {
    StrstrAgulhaVazia(ls[0].titulo);
  }

  /**
   * `pesquisar_livro_por_titulo`: the first node, in list order, whose title
   * contains `busca` as a case-sensitive substring, or NULL when none does
   * or an argument is NULL.
   */
  method PesquisarLivroPorTitulo(c: ColecaoLivros?, busca: Option<string>) returns (r: No?<Livro>)
    requires c != null ==> c.Valid()
    requires busca.Some? ==> CString(busca.value)
    ensures c == null || busca.None? ==> r == null
    ensures c != null && busca.Some? ==>
      match IndiceTitulo(c.livros, busca.value)
      case None => r == null
      case Some(k) => r == c.nos[k] && r.dado == c.livros[k]
  {
    if c == null || busca.None? {
      return null;
    }
    var atual := c.inicio;
    ghost var i := 0;
    while atual != null
      invariant 0 <= i <= |c.nos|
      invariant atual == (if i < |c.nos| then c.nos[i] else null)
      invariant forall k :: 0 <= k < i ==> Strstr(c.livros[k].titulo, busca.value).None?
      decreases |c.nos| - i
    {
      if Strstr(atual.dado.titulo, busca.value).Some? {
        return atual;
      }
      atual := atual.proximo;
      i := i + 1;
    }
    return null;
  }

  // ---------------------------------------------------------------------
  // Comparators

  /** `comparar_livros_por_titulo`: the sign of `strcmp` on the titles. */
  function CompararLivrosPorTitulo(a: Livro, b: Livro): (r: int)
    ensures r == -1 || r == 0 || r == 1
    ensures r == 0 <==> a.titulo == b.titulo
    ensures r < 0 <==> LexMenor(a.titulo, b.titulo)
    ensures r > 0 <==> LexMenor(b.titulo, a.titulo)
  {
    StrcmpNegativoSeLexMenor(a.titulo, b.titulo);
    StrcmpNegativoSeLexMenor(b.titulo, a.titulo);
    StrcmpAntissimetrico(a.titulo, b.titulo);
    Strcmp(a.titulo, b.titulo)
  }

  /** `comparar_livros_por_ano`: -1, 0 or 1 as the first year is smaller, equal or larger. */
  function CompararLivrosPorAno(a: Livro, b: Livro): (r: int)
    ensures r == -1 || r == 0 || r == 1
    ensures r < 0 <==> a.anoPublicacao < b.anoPublicacao
    ensures r == 0 <==> a.anoPublicacao == b.anoPublicacao
  {
    if a.anoPublicacao < b.anoPublicacao then -1
    else if a.anoPublicacao > b.anoPublicacao then 1
    else 0
  }

  /** The key a sort orders by: title (`ordenar_colecao_por_titulo`) or year (`ordenar_colecao_por_ano`). */
  datatype Criterio = PorTitulo | PorAno

  /** The comparator `qsort` is given: -1, 0 or 1, and 0 exactly when the two keys are equal. */
  function Comparar(k: Criterio, a: Livro, b: Livro): (r: int)
    ensures r == -1 || r == 0 || r == 1
    ensures r == 0 <==> match k
      case PorTitulo => a.titulo == b.titulo
      case PorAno => a.anoPublicacao == b.anoPublicacao
  {
    match k
    case PorTitulo => CompararLivrosPorTitulo(a, b)
    case PorAno => CompararLivrosPorAno(a, b)
  }

  /** Both comparators are antisymmetric and transitive: total preorders, as `qsort` requires. */
  lemma CompararAntissimetrico(k: Criterio, a: Livro, b: Livro)
    ensures Comparar(k, a, b) == -Comparar(k, b, a)
  {
    if k == PorTitulo {
      StrcmpAntissimetrico(a.titulo, b.titulo);
    }
  }

  lemma CompararTransitivo(k: Criterio, a: Livro, b: Livro, c: Livro)
    requires Comparar(k, a, b) <= 0 && Comparar(k, b, c) <= 0
    ensures Comparar(k, a, c) <= 0
  {
    if k == PorTitulo {
      StrcmpTransitivo(a.titulo, b.titulo, c.titulo);
    }
  }

  /** Non-decreasing under the comparator of `k`. */
  ghost predicate Ordenada(k: Criterio, s: seq<Livro>) {
    forall i, j :: 0 <= i < j < |s| ==> Comparar(k, s[i], s[j]) <= 0
  }

  // ---------------------------------------------------------------------
  // The sort the model uses for `qsort` (any sorted permutation would do)

  function Inserir(k: Criterio, x: Livro, s: seq<Livro>): seq<Livro> {
    if s == [] then [x]
    else if Comparar(k, x, s[0]) <= 0 then [x] + s
    else [s[0]] + Inserir(k, x, s[1..])
  }

  /** The model's `qsort` result: a permutation of its input that is sorted by `k`. */
  function OrdenarPor(k: Criterio, s: seq<Livro>): (r: seq<Livro>)
    ensures Ordenada(k, r)
    ensures multiset(r) == multiset(s)
  {
    if s == [] then []
    else
      var t := OrdenarPor(k, s[1..]);
      InserirOrdena(k, s[0], t);
      InserirPermuta(k, s[0], t);
      assert s == [s[0]] + s[1..];
      Inserir(k, s[0], t)
  }

  lemma {:induction false} InserirPermuta(k: Criterio, x: Livro, s: seq<Livro>)
    ensures multiset(Inserir(k, x, s)) == multiset(s) + multiset{x}
  {
    if s != [] && Comparar(k, x, s[0]) > 0 {
      InserirPermuta(k, x, s[1..]);
      CabecaCauda(s);
    }
  }

  lemma {:induction false} InserirOrdena(k: Criterio, x: Livro, s: seq<Livro>)
    requires Ordenada(k, s)
    ensures Ordenada(k, Inserir(k, x, s))
  {
    if s == [] {
    } else if Comparar(k, x, s[0]) <= 0 {
      forall j | 0 <= j < |s|
        ensures Comparar(k, x, s[j]) <= 0
      {
        if j > 0 {
          CompararTransitivo(k, x, s[0], s[j]);
        }
      }
      CabecaOrdenada(k, x, s);
    } else {
      var t := Inserir(k, x, s[1..]);
      InserirOrdena(k, x, s[1..]);
      InserirPermuta(k, x, s[1..]);
      CompararAntissimetrico(k, x, s[0]);
      forall j | 0 <= j < |t|
        ensures Comparar(k, s[0], t[j]) <= 0
      {
        assert t[j] in multiset(s[1..]) + multiset{x};
        if t[j] != x {
          assert t[j] in s[1..];
          var m :| 0 <= m < |s[1..]| && s[1..][m] == t[j];
          assert s[m + 1] == t[j];
        }
      }
      CabecaOrdenada(k, s[0], t);
    }
  }

  /** A sorted sequence stays sorted behind a record that precedes all of it. */
  lemma CabecaOrdenada(k: Criterio, h: Livro, t: seq<Livro>)
    requires Ordenada(k, t)
    requires forall j :: 0 <= j < |t| ==> Comparar(k, h, t[j]) <= 0
    ensures Ordenada(k, [h] + t)
  {
    var r := [h] + t;
    forall i, j | 0 <= i < j < |r|
      ensures Comparar(k, r[i], r[j]) <= 0
    {
      assert r[j] == t[j - 1];
      if i == 0 {
        assert r[i] == h;
      } else {
        assert r[i] == t[i - 1];
      }
    }
  }

  // ---------------------------------------------------------------------
  // The sorted displays

  /** Fills an array of `quantidade` records with the list's records, in list order. */
  method VetorDeLivros(c: ColecaoLivros) returns (v: array<Livro>)
    requires c.Valid()
    ensures fresh(v) && v[..] == c.livros
  {
    v := new Livro[c.quantidade](_ => Livro("", "", 0, "", ""));
    var atual := c.inicio;
    var i := 0;
    while atual != null && i < c.quantidade
      invariant 0 <= i <= |c.nos|
      invariant atual == (if i < |c.nos| then c.nos[i] else null)
      invariant v[..i] == c.livros[..i]
      decreases |c.nos| - i
    {
      v[i] := atual.dado;
      i := i + 1;
      atual := atual.proximo;
    }
  }

  /**
   * The body shared by both sorts: nothing is displayed for a NULL
   * collection, one with fewer than 2 records, or when the array cannot be
   * allocated; otherwise the displayed records are the collection's records
   * sorted by `k`. The collection is only read.
   */
  method OrdenarColecao(k: Criterio, c: ColecaoLivros?, alocou: bool) returns (exibidos: seq<Livro>)
    requires c != null ==> c.Valid()
    ensures c == null || |c.livros| < 2 || !alocou ==> exibidos == []
    ensures c != null && |c.livros| >= 2 && alocou ==>
      Ordenada(k, exibidos) && multiset(exibidos) == multiset(c.livros)
  {
    if c == null || c.quantidade < 2 {
      return [];
    }
    if !alocou {
      return [];
    }
    var v := VetorDeLivros(c);
    exibidos := OrdenarPor(k, v[..]);
  }

  /** `ordenar_colecao_por_titulo`: the records displayed, in non-decreasing `strcmp` order of titles. */
  method OrdenarColecaoPorTitulo(c: ColecaoLivros?, alocou: bool) returns (exibidos: seq<Livro>)
    requires c != null ==> c.Valid()
    ensures c == null || |c.livros| < 2 || !alocou ==> exibidos == []
    ensures c != null && |c.livros| >= 2 && alocou ==>
      multiset(exibidos) == multiset(c.livros) &&
      forall i, j :: 0 <= i < j < |exibidos| ==> Strcmp(exibidos[i].titulo, exibidos[j].titulo) <= 0
  {
    exibidos := OrdenarColecao(PorTitulo, c, alocou);
  }

  /** `ordenar_colecao_por_ano`: the records displayed, in non-decreasing order of year. */
  method OrdenarColecaoPorAno(c: ColecaoLivros?, alocou: bool) returns (exibidos: seq<Livro>)
    requires c != null ==> c.Valid()
    ensures c == null || |c.livros| < 2 || !alocou ==> exibidos == []
    ensures c != null && |c.livros| >= 2 && alocou ==>
      multiset(exibidos) == multiset(c.livros) &&
      forall i, j :: 0 <= i < j < |exibidos| ==> exibidos[i].anoPublicacao <= exibidos[j].anoPublicacao
  {
    exibidos := OrdenarColecao(PorAno, c, alocou);
  }

  /**
   * With two records of different years, sorting by year has only one
   * possible result, older first, whatever order `qsort` leaves ties in:
   * a collection holding "Dune" (1965) and "Foundation" (1951) is displayed
   * with Foundation first.
   */
  lemma OrdenadoPorAnoDois(antigo: Livro, novo: Livro, s: seq<Livro>)
    requires antigo.anoPublicacao < novo.anoPublicacao
    requires Ordenada(PorAno, s) && multiset(s) == multiset{novo, antigo}
    ensures s == [antigo, novo]
  {
    assert |s| == |multiset(s)| == 2;
    assert s == [s[0], s[1]];
    assert multiset{s[0], s[1]} == multiset{novo, antigo};
    assert Comparar(PorAno, s[0], s[1]) <= 0;
    assert s[0].anoPublicacao <= s[1].anoPublicacao;
  }
}
