/**
 * The four persistence functions of arquivos.c. A file is its contents:
 * `abriu` is whether `fopen` succeeds for writing, and a file to read is
 * `None` when `fopen` fails for reading (it does not exist, say). The
 * file name is only tested for NULL.
 */
module Arquivos {
  import opened Wrappers
  import opened Livros
  import opened Nos
  import opened ListaLivros
  import opened FormatoTexto
  import opened FormatoBinario

  /**
   * `salvar_colecao_texto`: 0 and nothing written for a NULL collection or
   * name or when the file cannot be opened; otherwise 1 and one line per
   * record, in list order. The results of `fprintf` are not checked. The
   * collection is only read.
   */
  method SalvarColecaoTexto(c: ColecaoLivros?, nome: Option<string>, abriu: bool)
    returns (r: int, escrito: Option<string>)
    requires c != null ==> c.Valid()
    ensures c == null || nome.None? || !abriu ==> r == 0 && escrito.None?
    ensures c != null && nome.Some? && abriu ==> r == 1 && escrito == Some(TextoColecao(c.livros))
  {
    if c == null || nome.None? {
      return 0, None;
    }
    if !abriu {
      return 0, None;
    }
    var texto := "";
    var atual := c.inicio;
    ghost var i := 0;
    while atual != null
      invariant 0 <= i <= |c.nos|
      invariant atual == (if i < |c.nos| then c.nos[i] else null)
      invariant texto == TextoColecao(c.livros[..i])
      decreases |c.nos| - i
    {
      TextoColecaoPasso(c.livros, i);
      texto := texto + FormatarLinha(atual.dado);
      atual := atual.proximo;
      i := i + 1;
    }
    assert c.livros[..i] == c.livros;
    return 1, Some(texto);
  }

  /**
   * `carregar_colecao_texto`: 0 and no change for a NULL collection or name
   * or a file that cannot be opened; otherwise 1, and every line `sscanf`
   * accepts is inserted at the head, so the accepted records end up in
   * front of the old ones in reverse file order. Nothing is cleared first.
   */
  method CarregarColecaoTexto(c: ColecaoLivros?, nome: Option<string>, arquivo: Option<string>)
    returns (r: int)
    requires c != null ==> c.Valid()
    modifies c
    ensures c != null ==> c.Valid()
    ensures c == null || nome.None? || arquivo.None? ==> r == 0
    ensures c != null && (nome.None? || arquivo.None?) ==> c.livros == old(c.livros)
    ensures c != null && nome.Some? && arquivo.Some? ==>
      r == 1 &&
      c.livros == CarregarLinhas(old(c.livros), Linhas(arquivo.value)) &&
      c.livros == Inverter(Aceitas(Linhas(arquivo.value))) + old(c.livros)
  {
    if c == null || nome.None? || arquivo.None? {
      return 0;
    }
    ghost var base := c.livros;
    var resto := arquivo.value;
    while resto != []
      invariant c.Valid()
      invariant CarregarLinhas(c.livros, Linhas(resto)) == CarregarLinhas(base, Linhas(arquivo.value))
      decreases |resto|
    {
      var n := TamanhoFgets(resto, TAM_LINHA - 1);
      var linha := resto[..n];
      resto := resto[n..];
      var l := AnalisarLinha(linha);
      if l.Some? {
        AdicionarLivroColecao(c, l.value, true);
      }
    }
    CarregarLinhasInverte(base, Linhas(arquivo.value));
    return 1;
  }

  /**
   * `salvar_colecao_binario`: 0 and nothing written for a NULL collection or
   * name or when the file cannot be opened. Otherwise one block per record
   * in list order; `falha` is the position of the first record whose
   * `fwrite` fails, if any: the save then stops there and returns 0, leaving
   * the blocks written before it. The collection is only read.
   */
  method SalvarColecaoBinario(c: ColecaoLivros?, nome: Option<string>, abriu: bool, falha: Option<nat>)
    returns (r: int, escrito: Option<seq<Byte>>)
    requires c != null ==> c.Valid()
    ensures c == null || nome.None? || !abriu ==> r == 0 && escrito.None?
    ensures c != null && nome.Some? && abriu && falha.Some? && falha.value < |c.livros| ==>
      r == 0 && escrito == Some(ArquivoBinario(c.livros[..falha.value]))
    ensures c != null && nome.Some? && abriu && !(falha.Some? && falha.value < |c.livros|) ==>
      r == 1 && escrito == Some(ArquivoBinario(c.livros))
  {
    if c == null || nome.None? {
      return 0, None;
    }
    if !abriu {
      return 0, None;
    }
    var completo, bytes := EscreverRegistros(c, falha);
    r := if completo then 1 else 0;
    escrito := Some(bytes);
  }

  /**
   * The write loop of `salvar_colecao_binario`: one `fwrite` per record, in
   * list order, stopping at the first that fails.
   */
  method EscreverRegistros(c: ColecaoLivros, falha: Option<nat>) returns (completo: bool, bytes: seq<Byte>)
    requires c.Valid()
    ensures completo <==> !(falha.Some? && falha.value < |c.livros|)
    ensures completo ==> bytes == ArquivoBinario(c.livros)
    ensures !completo ==> bytes == ArquivoBinario(c.livros[..falha.value])
  {
    bytes := [];
    var atual := c.inicio;
    var i := 0;
    while atual != null
      invariant 0 <= i <= |c.nos|
      invariant atual == (if i < |c.nos| then c.nos[i] else null)
      invariant falha.Some? ==> i <= falha.value
      invariant bytes == ArquivoBinario(c.livros[..i])
      decreases |c.nos| - i
    {
      if falha.Some? && falha.value == i {
        return false, bytes;
      }
      Avancar(c.nos, c.livros, i);
      bytes := EscreverBloco(bytes, atual.dado, c.livros, i);
      atual := atual.proximo;
      i := i + 1;
    }
    assert c.livros[..i] == c.livros;
    return true, bytes;
  }

  /**
   * One successful `fwrite` of record `i`: its block is appended to the
   * blocks of the records before it.
   */
  method EscreverBloco(bytes: seq<Byte>, l: Livro, ghost ls: seq<Livro>, ghost i: nat) returns (r: seq<Byte>)
    requires i < |ls| && ls[i] == l && bytes == ArquivoBinario(ls[..i])
    ensures r == ArquivoBinario(ls[..i + 1])
    ensures |r| == |bytes| + TAM_BLOCO
  {
    ArquivoBinarioPasso(ls, i);
    r := bytes + CodificarLivro(l);
  }

  /**
   * `carregar_colecao_binario`: 0 and no change for a NULL collection or
   * name or a file that cannot be opened; otherwise 1, and the record of
   * every whole block is inserted at the head, so they end up in front of
   * the old ones in reverse file order. Nothing is cleared first.
   */
  method CarregarColecaoBinario(c: ColecaoLivros?, nome: Option<string>, arquivo: Option<seq<Byte>>)
    returns (r: int)
    requires c != null ==> c.Valid()
    modifies c
    ensures c != null ==> c.Valid()
    ensures c == null || nome.None? || arquivo.None? ==> r == 0
    ensures c != null && (nome.None? || arquivo.None?) ==> c.livros == old(c.livros)
    ensures c != null && nome.Some? && arquivo.Some? ==>
      r == 1 &&
      c.livros == CarregarBlocos(old(c.livros), Blocos(arquivo.value)) &&
      c.livros == Inverter(LivrosDeBlocos(Blocos(arquivo.value))) + old(c.livros)
  {
    if c == null || nome.None? || arquivo.None? {
      return 0;
    }
    ghost var base := c.livros;
    var resto := arquivo.value;
    while |resto| >= TAM_BLOCO
      invariant c.Valid()
      invariant CarregarBlocos(c.livros, Blocos(resto)) == CarregarBlocos(base, Blocos(arquivo.value))
      decreases |resto|
    {
      var bloco := resto[..TAM_BLOCO];
      resto := resto[TAM_BLOCO..];
      AdicionarLivroColecao(c, DecodificarLivro(bloco), true);
    }
    CarregarBlocosInverte(base, Blocos(arquivo.value));
    return 1;
  }

  /**
   * Loading never clears the collection: loading the same text twice adds
   * its accepted records twice, each time in reverse file order.
   */
  lemma CarregarTextoDuasVezes(base: seq<Livro>, arquivo: string)
    ensures CarregarLinhas(CarregarLinhas(base, Linhas(arquivo)), Linhas(arquivo))
      == Inverter(Aceitas(Linhas(arquivo))) + Inverter(Aceitas(Linhas(arquivo))) + base
    ensures |CarregarLinhas(CarregarLinhas(base, Linhas(arquivo)), Linhas(arquivo))|
      == |base| + 2 * |Aceitas(Linhas(arquivo))|
  {
    CarregarLinhasDuasVezes(base, Linhas(arquivo));
  }

  /** The loading loop run twice over the same lines. */
  lemma CarregarLinhasDuasVezes(base: seq<Livro>, linhas: seq<string>)
    ensures CarregarLinhas(CarregarLinhas(base, linhas), linhas)
      == Inverter(Aceitas(linhas)) + Inverter(Aceitas(linhas)) + base
  {
    var um := CarregarLinhas(base, linhas);
    var lidos := Inverter(Aceitas(linhas));
    CarregarLinhasInverte(base, linhas);
    CarregarLinhasInverte(um, linhas);
    assert lidos + (lidos + base) == lidos + lidos + base;
  }

  /** The same for the binary format: every whole block is loaded again. */
  lemma CarregarBinarioDuasVezes(base: seq<Livro>, arquivo: seq<Byte>)
    ensures CarregarBlocos(CarregarBlocos(base, Blocos(arquivo)), Blocos(arquivo))
      == Inverter(LivrosDeBlocos(Blocos(arquivo))) + Inverter(LivrosDeBlocos(Blocos(arquivo))) + base
    ensures |CarregarBlocos(CarregarBlocos(base, Blocos(arquivo)), Blocos(arquivo))|
      == |base| + 2 * (|arquivo| / TAM_BLOCO)
  {
    var blocos := Blocos(arquivo);
    CarregarBlocosInverte(base, blocos);
    CarregarBlocosInverte(CarregarBlocos(base, blocos), blocos);
    QuantosBlocos(arquivo);
  }
}
