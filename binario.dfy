/**
 * The binary format of arquivos.c: `salvar_colecao_binario` writes the raw
 * bytes of each `Livro` struct with `fwrite(&dados, sizeof(Livro), 1, ...)`
 * and `carregar_colecao_binario` reads them back with `fread` until it
 * cannot read a whole struct. The layout is the one a C compiler gives
 * the struct of livro.h on a platform with a 4-byte, little-endian,
 * two's-complement `int` (the usual x86-64 and AArch64 ABIs): the five
 * fields in declaration order, with no padding, 268 bytes in all.
 */
module FormatoBinario {
  import opened CStrings
  import opened Livros
  import opened ListaLivros

  type Byte = b: int | 0 <= b < 256

  const TAM_INT: nat := 4
  const TAM_BLOCO: nat := TAM_TITULO + TAM_AUTOR + TAM_INT + TAM_ISBN + TAM_GENERO

  // Offsets of the fields in a block.
  const INICIO_AUTOR: nat := TAM_TITULO
  const INICIO_ANO: nat := INICIO_AUTOR + TAM_AUTOR
  const INICIO_ISBN: nat := INICIO_ANO + TAM_INT
  const INICIO_GENERO: nat := INICIO_ISBN + TAM_ISBN

  // ---------------------------------------------------------------------
  // Fields

  /**
   * A `char[n]` field: the string's bytes, then NUL bytes to the end of the
   * array (what `strncpy` leaves). A string longer than the array cannot be
   * held by the C struct; only its first `n` characters are kept.
   */
  function CodificarTexto(s: string, n: nat): (r: seq<Byte>)
    ensures |r| == n
    ensures forall i {:trigger s[i]} :: 0 <= i < |s| && i < n ==> r[i] == s[i] as int % 256
    ensures |s| < n ==> r[|s|..] == Zeros(n - |s|)
  {
    var t := Truncar(s, n);
    seq(|t|, i requires 0 <= i < |t| => (t[i] as int % 256) as Byte) + seq(n - |t|, _ => 0 as Byte)
  }

  /** `n` zero bytes. */
  function Zeros(n: nat): (r: seq<Byte>)
    ensures |r| == n
  {
    seq(n, _ => 0 as Byte)
  }

  /** What C reads from a `char[n]` field: the bytes before the first NUL. */
  function DecodificarTexto(b: seq<Byte>): (r: string)
    ensures |r| <= |b|
    ensures CString(r)
    ensures forall i {:trigger r[i]} :: 0 <= i < |r| ==> r[i] as int == b[i]
    ensures |r| == |b| || b[|r|] == 0
  {
    if b == [] || b[0] == 0 then [] else [b[0] as char] + DecodificarTexto(b[1..])
  }

  /** The unsigned value of four bytes, least significant first. */
  function ValorSemSinal(b: seq<Byte>): int
    requires |b| == TAM_INT
  {
    b[0] as int + 0x100 * (b[1] as int + 0x100 * (b[2] as int + 0x100 * b[3] as int))
  }

  /** An `int` in four bytes, least significant first, negative values in two's complement. */
  function CodificarInt32(y: int): (r: seq<Byte>)
    ensures |r| == TAM_INT
    ensures ValorSemSinal(r) == y % 0x1_0000_0000
  {
    var v := y % 0x1_0000_0000;
    var q1 := v / 0x100;
    var q2 := q1 / 0x100;
    var q3 := q2 / 0x100;
    QuocienteResto(v, 0x100_0000);
    QuocienteResto(q1, 0x1_0000);
    QuocienteResto(q2, 0x100);
    [v % 0x100, q1 % 0x100, q2 % 0x100, q3 % 0x100]
  }

  /** Four bytes, least significant first, as a two's-complement `int`: the value congruent to them modulo 2^32. */
  function DecodificarInt32(b: seq<Byte>): (y: int)
    requires |b| == TAM_INT
    ensures INT_MIN <= y <= INT_MAX
    ensures y % 0x1_0000_0000 == ValorSemSinal(b)
  {
    var v := ValorSemSinal(b);
    if v <= INT_MAX then v else v - 0x1_0000_0000
  }

  // ---------------------------------------------------------------------
  // Blocks

  /** The bytes `fwrite` writes for one record. */
  function CodificarLivro(l: Livro): (r: seq<Byte>)
    ensures |r| == TAM_BLOCO
  {
    CodificarTexto(l.titulo, TAM_TITULO) + CodificarTexto(l.autor, TAM_AUTOR) + CodificarInt32(l.anoPublicacao)
      + CodificarTexto(l.isbn, TAM_ISBN) + CodificarTexto(l.genero, TAM_GENERO)
  }

  /**
   * The record `fread` fills from one block, as C then reads it: each
   * string field up to its first NUL. A field with no NUL in its array is
   * read to the end of the array.
   */
  function DecodificarLivro(b: seq<Byte>): (l: Livro)
    requires |b| == TAM_BLOCO
    ensures CString(l.titulo) && |l.titulo| <= TAM_TITULO
    ensures CString(l.autor) && |l.autor| <= TAM_AUTOR
    ensures INT_MIN <= l.anoPublicacao <= INT_MAX
    ensures CString(l.isbn) && |l.isbn| <= TAM_ISBN
    ensures CString(l.genero) && |l.genero| <= TAM_GENERO
  {
    Livro(
      DecodificarTexto(b[..INICIO_AUTOR]),
      DecodificarTexto(b[INICIO_AUTOR..INICIO_ANO]),
      DecodificarInt32(b[INICIO_ANO..INICIO_ISBN]),
      DecodificarTexto(b[INICIO_ISBN..INICIO_GENERO]),
      DecodificarTexto(b[INICIO_GENERO..]))
  }

  /** The whole file `salvar_colecao_binario` writes: one block per record, in list order, no header. */
  function ArquivoBinario(ls: seq<Livro>): (r: seq<Byte>)
    ensures |r| == TAM_BLOCO * |ls|
  {
    if ls == [] then [] else CodificarLivro(ls[0]) + ArquivoBinario(ls[1..])
  }

  /** Concatenating lists concatenates their files: the format has no header and no separator. */
  lemma {:induction false} ArquivoBinarioConcat(a: seq<Livro>, b: seq<Livro>)
    ensures ArquivoBinario(a + b) == ArquivoBinario(a) + ArquivoBinario(b)
  {
    if a == [] {
      assert a + b == b;
    } else {
      assert (a + b)[1..] == a[1..] + b;
      ArquivoBinarioConcat(a[1..], b);
    }
  }

  lemma ArquivoBinarioPasso(ls: seq<Livro>, i: nat)
    requires i < |ls|
    ensures ArquivoBinario(ls[..i + 1]) == ArquivoBinario(ls[..i]) + CodificarLivro(ls[i])
  {
    PrefixoPasso(ls, i);
    ArquivoBinarioConcat(ls[..i], [ls[i]]);
    ArquivoBinarioUm(ls[i]);
  }

  lemma ArquivoBinarioUm(l: Livro)
    ensures ArquivoBinario([l]) == CodificarLivro(l)
  {
    assert [l][1..] == [];
    assert ArquivoBinario([]) == [];
  }

  /** The blocks successive `fread` calls return; a trailing partial block makes `fread` return 0. */
  function Blocos(b: seq<Byte>): (r: seq<seq<Byte>>)
    ensures forall k :: 0 <= k < |r| ==> |r[k]| == TAM_BLOCO
    decreases |b|
  {
    if |b| < TAM_BLOCO then [] else [b[..TAM_BLOCO]] + Blocos(b[TAM_BLOCO..])
  }

  /** What any block reads back as: C strings that fit their arrays, and a year in the range of `int`. */
  predicate CabeNoBloco(l: Livro) {
    && CString(l.titulo) && |l.titulo| <= TAM_TITULO
    && CString(l.autor) && |l.autor| <= TAM_AUTOR
    && INT_MIN <= l.anoPublicacao <= INT_MAX
    && CString(l.isbn) && |l.isbn| <= TAM_ISBN
    && CString(l.genero) && |l.genero| <= TAM_GENERO
  }

  /** The records of a sequence of blocks, in order, one per block. */
  function LivrosDeBlocos(blocos: seq<seq<Byte>>): (r: seq<Livro>)
    requires forall k :: 0 <= k < |blocos| ==> |blocos[k]| == TAM_BLOCO
    ensures |r| == |blocos|
    ensures forall k :: 0 <= k < |r| ==> CabeNoBloco(r[k])
  {
    if blocos == [] then [] else [DecodificarLivro(blocos[0])] + LivrosDeBlocos(blocos[1..])
  }

  /** The read loop of `carregar_colecao_binario`: each block's record is inserted at the head of `base`. */
  function CarregarBlocos(base: seq<Livro>, blocos: seq<seq<Byte>>): (r: seq<Livro>)
    requires forall k :: 0 <= k < |blocos| ==> |blocos[k]| == TAM_BLOCO
    ensures |r| == |base| + |blocos|
    ensures TerminaCom(r, base)
    decreases |blocos|
  {
    if blocos == [] then base
    else
      var l := DecodificarLivro(blocos[0]);
      var r := CarregarBlocos([l] + base, blocos[1..]);
      TerminaComCauda(r, l, base);
      r
  }

  // ---------------------------------------------------------------------
  // Round trips

  /** A string field that fits its array is read back unchanged. */
  lemma TextoIda(s: string, n: nat)
    requires CString(s) && |s| < n
    ensures DecodificarTexto(CodificarTexto(s, n)) == s
  {
    CampoTerminado(s, n);
    DecodificarPrefixo(CodificarTexto(s, n), s);
  }

  /** The bytes of a C string that fits its array are its (non-zero) codes, followed by a zero. */
  lemma CampoTerminado(s: string, n: nat)
    requires CString(s) && |s| < n
    ensures var b := CodificarTexto(s, n);
      b[|s|] == 0 && forall i :: 0 <= i < |s| ==> b[i] != 0 && b[i] == s[i] as int
  {
    var b := CodificarTexto(s, n);
    forall i | 0 <= i < |s|
      ensures b[i] != 0 && b[i] == s[i] as int
    {
      assert CChar(s[i]);
    }
    assert b[|s|] == Zeros(n - |s|)[0];
  }

  /** Reading a field whose first zero byte follows the codes of `s` gives `s`. */
  lemma {:induction false} DecodificarPrefixo(b: seq<Byte>, s: string)
    requires |s| < |b| && b[|s|] == 0
    requires forall i :: 0 <= i < |s| ==> b[i] != 0 && b[i] == s[i] as int
    ensures DecodificarTexto(b) == s
  {
    if s != [] {
      assert b[1..][|s| - 1] == b[|s|];
      assert forall i :: 0 <= i < |s| - 1 ==> b[1..][i] == b[i + 1] && s[1..][i] == s[i + 1];
      DecodificarPrefixo(b[1..], s[1..]);
      assert s == [s[0]] + s[1..];
    }
  }

  lemma Int32Ida(y: int)
    requires INT_MIN <= y <= INT_MAX
    ensures DecodificarInt32(CodificarInt32(y)) == y
  {
    var v := y % 0x1_0000_0000;
    assert v == (if y < 0 then y + 0x1_0000_0000 else y);
    var q1 := v / 0x100;
    var q2 := q1 / 0x100;
    var q3 := q2 / 0x100;
    QuocienteResto(v, 0x100_0000);
    QuocienteResto(q1, 0x1_0000);
    QuocienteResto(q2, 0x100);
    assert q3 % 0x100 == q3;
  }

  /** One step of the decomposition: a number below `256 * limite` is its low byte plus 256 times a number below `limite`. */
  lemma QuocienteResto(v: int, limite: nat)
    requires 0 <= v < 0x100 * limite
    ensures v == v % 0x100 + 0x100 * (v / 0x100)
    ensures 0 <= v / 0x100 < limite
  {
  }

  /** Reading a block back gives the record that was written. */
  lemma LivroIda(l: Livro)
    requires BemFormado(l)
    ensures DecodificarLivro(CodificarLivro(l)) == l
  {
    Campos(CodificarTexto(l.titulo, TAM_TITULO), CodificarTexto(l.autor, TAM_AUTOR), CodificarInt32(l.anoPublicacao),
      CodificarTexto(l.isbn, TAM_ISBN), CodificarTexto(l.genero, TAM_GENERO));
    TextoIda(l.titulo, TAM_TITULO);
    TextoIda(l.autor, TAM_AUTOR);
    Int32Ida(l.anoPublicacao);
    TextoIda(l.isbn, TAM_ISBN);
    TextoIda(l.genero, TAM_GENERO);
  }

  /** The field offsets cut a block back into the five fields it was made of. */
  lemma Campos(t: seq<Byte>, a: seq<Byte>, y: seq<Byte>, i: seq<Byte>, g: seq<Byte>)
    requires |t| == TAM_TITULO && |a| == TAM_AUTOR && |y| == TAM_INT && |i| == TAM_ISBN && |g| == TAM_GENERO
    ensures var b := t + a + y + i + g;
      && b[..INICIO_AUTOR] == t && b[INICIO_AUTOR..INICIO_ANO] == a && b[INICIO_ANO..INICIO_ISBN] == y
      && b[INICIO_ISBN..INICIO_GENERO] == i && b[INICIO_GENERO..] == g
  {
  }

  /**
   * The records of a written file come back one block each, in list order;
   * bytes after the last whole block are never read.
   */
  lemma {:induction false} BlocosArquivo(ls: seq<Livro>, parcial: seq<Byte>)
    requires |parcial| < TAM_BLOCO
    ensures Blocos(ArquivoBinario(ls) + parcial) == Codificados(ls)
  {
    if ls != [] {
      var bloco := CodificarLivro(ls[0]);
      var resto := ArquivoBinario(ls[1..]) + parcial;
      assert ArquivoBinario(ls) + parcial == bloco + resto;
      BlocosPasso(bloco, resto);
      BlocosArquivo(ls[1..], parcial);
    } else {
      assert ArquivoBinario(ls) + parcial == parcial;
    }
  }

  /** The blocks of a list's records, in list order. */
  function Codificados(ls: seq<Livro>): (r: seq<seq<Byte>>)
    ensures |r| == |ls|
    ensures forall k :: 0 <= k < |r| ==> |r[k]| == TAM_BLOCO
  {
    if ls == [] then [] else [CodificarLivro(ls[0])] + Codificados(ls[1..])
  }

  /** Decoding the blocks of well-formed records gives the records back, in order. */
  lemma {:induction false} DecodificarCodificados(ls: seq<Livro>)
    requires forall k :: 0 <= k < |ls| ==> BemFormado(ls[k])
    ensures LivrosDeBlocos(Codificados(ls)) == ls
  {
    if ls != [] {
      DecodificarCabeca(ls);
      LivroIda(ls[0]);
      DecodificarCodificados(ls[1..]);
      CabecaCauda(ls);
    }
  }

  /** The first record's block decodes first. */
  lemma DecodificarCabeca(ls: seq<Livro>)
    requires ls != []
    ensures LivrosDeBlocos(Codificados(ls)) == [DecodificarLivro(CodificarLivro(ls[0]))] + LivrosDeBlocos(Codificados(ls[1..]))
  {
    var blocos := Codificados(ls);
    assert blocos[1..] == Codificados(ls[1..]);
  }

  /** A whole block in front is read as one block. */
  lemma BlocosPasso(bloco: seq<Byte>, resto: seq<Byte>)
    requires |bloco| == TAM_BLOCO
    ensures Blocos(bloco + resto) == [bloco] + Blocos(resto)
  {
    var b := bloco + resto;
    assert b[..TAM_BLOCO] == bloco;
    assert b[TAM_BLOCO..] == resto;
  }

  /** Loading inserts block by block at the head, so the loaded records end up in reverse file order. */
  lemma {:induction false} CarregarBlocosInverte(base: seq<Livro>, blocos: seq<seq<Byte>>)
    requires forall k :: 0 <= k < |blocos| ==> |blocos[k]| == TAM_BLOCO
    ensures CarregarBlocos(base, blocos) == Inverter(LivrosDeBlocos(blocos)) + base
    decreases |blocos|
  {
    if blocos != [] {
      var l := DecodificarLivro(blocos[0]);
      var resto := LivrosDeBlocos(blocos[1..]);
      CarregarBlocosInverte([l] + base, blocos[1..]);
      InserirAntes(l, resto, base);
    }
  }

  /**
   * Round trip: loading the file a save wrote for `ls` (followed by fewer
   * bytes than a block) into a list `base` puts the records of `ls`, in
   * reverse order and unchanged, in front of `base`.
   */
  lemma RecarregarBinario(ls: seq<Livro>, parcial: seq<Byte>, base: seq<Livro>)
    requires forall k :: 0 <= k < |ls| ==> BemFormado(ls[k])
    requires |parcial| < TAM_BLOCO
    ensures CarregarBlocos(base, Blocos(ArquivoBinario(ls) + parcial)) == Inverter(ls) + base
  {
    var blocos := Blocos(ArquivoBinario(ls) + parcial);
    BlocosArquivo(ls, parcial);
    CarregarBlocosInverte(base, blocos);
    DecodificarCodificados(ls);
  }

  /** Reloading a saved file into an empty collection gives the records in reverse order. */
  lemma RecarregarBinarioVazio(ls: seq<Livro>)
    requires forall k :: 0 <= k < |ls| ==> BemFormado(ls[k])
    ensures CarregarBlocos([], Blocos(ArquivoBinario(ls))) == Inverter(ls)
  {
    assert ArquivoBinario(ls) + [] == ArquivoBinario(ls);
    RecarregarBinario(ls, [], []);
    assert Inverter(ls) + [] == Inverter(ls);
  }

  /** Two binary save-and-reload cycles into empty collections give back the original list. */
  lemma DoisCiclosBinario(ls: seq<Livro>)
    requires forall k :: 0 <= k < |ls| ==> BemFormado(ls[k])
    ensures CarregarBlocos([], Blocos(ArquivoBinario(CarregarBlocos([], Blocos(ArquivoBinario(ls)))))) == ls
  {
    RecarregarBinarioVazio(ls);
    var um := Inverter(ls);
    assert forall k :: 0 <= k < |um| ==> BemFormado(um[k]) by {
      forall k | 0 <= k < |um|
        ensures BemFormado(um[k])
      {
        assert um[k] == ls[|ls| - 1 - k];
      }
    }
    RecarregarBinarioVazio(um);
    InverterInvolutivo(ls);
  }

  /** `fread` returns one whole block per `TAM_BLOCO` bytes; a partial block at the end is not counted. */
  lemma {:induction false} QuantosBlocos(b: seq<Byte>)
    ensures |Blocos(b)| == |b| / TAM_BLOCO
    decreases |b|
  {
    if |b| >= TAM_BLOCO {
      QuantosBlocos(b[TAM_BLOCO..]);
      assert |b[TAM_BLOCO..]| == |b| - TAM_BLOCO;
    }
  }
}
