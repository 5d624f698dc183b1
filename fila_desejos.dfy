/**
 * The wish queue of fila_desejos.c (the revision with a counter and status
 * results): a linked FIFO list of record copies with head and tail pointers.
 */
module FilaDesejos {
  import opened Wrappers
  import opened Livros
  import opened Nos

  /** `FilaDesejos`: head and tail pointers and the element counter. */
  class FilaDesejos {
    var inicio: No?<Livro>
    var fim: No?<Livro>
    var quantidade: int
    /** The nodes from `inicio` to `fim`, and the records they hold, front first. */
    ghost var nos: seq<No<Livro>>
    ghost var livros: seq<Livro>

    ghost predicate Valid()
      reads this, nos
    {
      && Cadeia(nos, livros)
      && inicio == Primeiro(nos) && fim == Ultimo(nos)
      && quantidade == |livros|
    }

    constructor ()
      ensures Valid() && livros == [] && nos == []
      ensures inicio == null && fim == null && quantidade == 0
    {
      inicio := null;
      fim := null;
      quantidade := 0;
      nos := [];
      livros := [];
    }
  }

  /** In a valid queue the head pointer is NULL exactly when the tail pointer is. */
  lemma ExtremosNulosJuntos(f: FilaDesejos)
    requires f.Valid()
    ensures f.inicio == null <==> f.fim == null
    ensures f.inicio == null <==> f.quantidade == 0
  {
  }

  /** `criar_fila_desejos`: an empty queue, or NULL when `malloc` fails. */
  method CriarFilaDesejos(alocou: bool) returns (f: FilaDesejos?)
    ensures f != null <==> alocou
    ensures f != null ==> fresh(f) && f.Valid() && f.livros == []
    ensures f != null ==> f.inicio == null && f.fim == null && f.quantidade == 0
  {
    if !alocou {
      return null;
    }
    f := new FilaDesejos();
  }

  /** `fila_desejos_vazia`: 1 exactly when the queue is NULL or has no head node. */
  method FilaDesejosVazia(f: FilaDesejos?) returns (r: int)
    requires f != null ==> f.Valid()
    ensures r == 0 || r == 1
    ensures r == 1 <==> f == null || f.livros == []
  {
    if f == null || f.inicio == null {
      return 1;
    }
    return 0;
  }

  /**
   * `enqueue_desejo`: a copy of `l` is appended at the tail (becoming both
   * head and tail of an empty queue) and the counter grows by one. A NULL
   * queue or a failed node allocation changes nothing.
   */
  method EnqueueDesejo(f: FilaDesejos?, l: Livro, alocou: bool)
    requires f != null ==> f.Valid()
    modifies f, if f != null then f.nos else []
    ensures f != null ==> f.Valid()
    ensures f != null ==> f.livros == (if alocou then old(f.livros) + [l] else old(f.livros))
    ensures f != null && alocou ==> f.nos[..|f.nos| - 1] == old(f.nos) && fresh(f.nos[|f.nos| - 1])
    ensures f != null && !alocou ==> f.nos == old(f.nos)
  {
    if f == null {
      return;
    }
    if !alocou {
      return;
    }
    var novo := new No(l, null);
    var vazia := FilaDesejosVazia(f);
    ghost var nos0 := f.nos;
    ghost var livros0 := f.livros;
    var ultimo := f.fim;
    if vazia == 1 {
      f.inicio := novo;
    }
    f.fim := novo;
    f.quantidade := f.quantidade + 1;
    f.nos := nos0 + [novo];
    f.livros := livros0 + [l];
    Anexar(nos0, livros0, ultimo, novo, l);
  }

  /**
   * `dequeue_desejo(fila, livro_removido)`. `destino` is the record the
   * out-pointer designates (None for NULL) and `saida` what it holds
   * afterwards. On a non-empty queue: returns 1, the old head is written to
   * the destination if there is one (and removed even if there is none),
   * the rest stays in order, the tail becomes NULL exactly when the queue
   * empties, and the counter drops by one. On an empty or NULL queue:
   * returns 0, changes nothing, and empties the destination's title.
   */
  method DequeueDesejo(f: FilaDesejos?, destino: Option<Livro>) returns (r: int, saida: Option<Livro>)
    requires f != null ==> f.Valid()
    modifies f
    ensures f != null ==> f.Valid()
    ensures r == 0 || r == 1
    ensures r == 1 <==> f != null && old(f.livros) != []
    ensures r == 0 ==> saida == (if destino.Some? then Some(destino.value.(titulo := "")) else None)
    ensures r == 0 && f != null ==> f.livros == old(f.livros) && f.nos == old(f.nos)
    ensures r == 1 ==> saida == (if destino.Some? then Some(old(f.livros)[0]) else None)
    ensures r == 1 ==> f.livros == old(f.livros)[1..] && f.nos == old(f.nos)[1..]
    ensures r == 1 ==> (f.fim == null <==> f.livros == [])
  {
    var vazia := FilaDesejosVazia(f);
    if vazia == 1 {
      saida := destino;
      if destino.Some? {
        saida := Some(destino.value.(titulo := ""));
      }
      return 0, saida;
    }
    var removido := f.inicio;
    saida := None;
    if destino.Some? {
      saida := Some(removido.dado);
    }
    CadeiaCauda(f.nos, f.livros);
    f.inicio := removido.proximo;
    if f.inicio == null {
      f.fim := null;
    }
    f.quantidade := f.quantidade - 1;
    f.nos := f.nos[1..];
    f.livros := f.livros[1..];
    return 1, saida;
  }

  /**
   * `front_desejo(fila, livro_frente)`: returns 1 and copies the head to the
   * destination, leaving the queue unchanged. A NULL destination gives 0
   * (checked first); an empty or NULL queue gives 0 and empties the
   * destination's title.
   */
  method FrontDesejo(f: FilaDesejos?, destino: Option<Livro>) returns (r: int, saida: Option<Livro>)
    requires f != null ==> f.Valid()
    ensures r == 0 || r == 1
    ensures r == 1 <==> destino.Some? && f != null && f.livros != []
    ensures destino.None? ==> saida.None?
    ensures destino.Some? && r == 0 ==> saida == Some(destino.value.(titulo := ""))
    ensures r == 1 ==> saida == Some(f.livros[0])
  {
    if destino.None? {
      return 0, None;
    }
    var vazia := FilaDesejosVazia(f);
    if vazia == 1 {
      return 0, Some(destino.value.(titulo := ""));
    }
    return 1, Some(f.inicio.dado);
  }

  /** `destruir_fila_desejos`: dequeues into a scratch record until the queue is empty. */
  method DestruirFilaDesejos(f: FilaDesejos?)
    requires f != null ==> f.Valid()
    modifies f
    ensures f != null ==> f.Valid() && f.livros == [] && f.inicio == null && f.fim == null
  {
    if f == null {
      return;
    }
    // The scratch record's initial contents are never read.
    var temporario := Livro("", "", 0, "", "");
    var vazia := FilaDesejosVazia(f);
    while vazia == 0
      invariant f.Valid()
      invariant vazia == 0 || vazia == 1
      invariant vazia == 1 <==> f.livros == []
      decreases |f.livros|
    {
      var r, saida := DequeueDesejo(f, Some(temporario));
      temporario := saida.value;
      vazia := FilaDesejosVazia(f);
    }
  }

  /** `tamanho_fila_desejos`: the number of queued records, 0 for NULL. */
  function TamanhoFilaDesejos(f: FilaDesejos?): (r: int)
    reads f, if f != null then f.nos else []
    requires f != null ==> f.Valid()
    ensures f == null ==> r == 0
    ensures f != null ==> r == |f.livros|
  {
    if f == null then 0 else f.quantidade
  }

  /** FIFO: enqueueing R1, R2, R3 and dequeuing three times yields R1, R2, R3. */
  method DesejosFifo(r1: Livro, r2: Livro, r3: Livro, destino: Livro)
    returns (x: Option<Livro>, y: Option<Livro>, z: Option<Livro>, restantes: int)
    ensures x == Some(r1) && y == Some(r2) && z == Some(r3) && restantes == 0
  {
    var f := new FilaDesejos();
    EnqueueDesejo(f, r1, true);
    EnqueueDesejo(f, r2, true);
    EnqueueDesejo(f, r3, true);
    var ok: int;
    ok, x := DequeueDesejo(f, Some(destino));
    ok, y := DequeueDesejo(f, Some(destino));
    ok, z := DequeueDesejo(f, Some(destino));
    restantes := TamanhoFilaDesejos(f);
  }
}
