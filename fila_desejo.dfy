/**
 * The older wish queue of fila_desejo.c: the same linked FIFO list with head
 * and tail pointers, but no counter, and records returned by value with an
 * ISBN of "VAZIO" signalling an empty queue.
 */
module FilaDesejo {
  import opened Livros
  import opened Nos

  /** The ISBN of the record returned when there is nothing to return. */
  const ISBN_VAZIO: string := "VAZIO"

  /** `FilaDesejos` of this revision: head and tail pointers only. */
  class FilaDesejos {
    var inicio: No?<Livro>
    var fim: No?<Livro>
    /** The nodes from `inicio` to `fim`, and the records they hold, front first. */
    ghost var nos: seq<No<Livro>>
    ghost var livros: seq<Livro>

    ghost predicate Valid()
      reads this, nos
    {
      Cadeia(nos, livros) && inicio == Primeiro(nos) && fim == Ultimo(nos)
    }

    constructor ()
      ensures Valid() && livros == [] && nos == [] && inicio == null && fim == null
    {
      inicio := null;
      fim := null;
      nos := [];
      livros := [];
    }
  }

  /**
   * The record `dequeue_desejo` and `front_desejo` return for an empty or
   * NULL queue: `lixo` stands for the uninitialised local, of which only the
   * ISBN ("VAZIO") and the title (empty) are set.
   */
  function Sentinela(lixo: Livro): (r: Livro)
    ensures r.isbn == ISBN_VAZIO && r.titulo == ""
    ensures r.autor == lixo.autor && r.anoPublicacao == lixo.anoPublicacao && r.genero == lixo.genero
  {
    lixo.(isbn := ISBN_VAZIO, titulo := "")
  }

  /** `criar_fila_desejos`: an empty queue (both ends NULL), or NULL when `malloc` fails. */
  method CriarFilaDesejos(alocou: bool) returns (f: FilaDesejos?)
    ensures f != null <==> alocou
    ensures f != null ==> fresh(f) && f.Valid() && f.livros == [] && f.inicio == null && f.fim == null
  {
    if !alocou {
      return null;
    }
    f := new FilaDesejos();
  }

  /** `fila_desejos_vazia`: 1 exactly when the queue is NULL or has no head node. */
  method FilaDesejosVazia(f: FilaDesejos?) returns (r: int)
    requires f != null ==> f.Valid()
    ensures r == 0 || r == 1
    ensures r == 1 <==> f == null || f.livros == []
  {
    if f == null || f.inicio == null {
      return 1;
    }
    return 0;
  }

  /**
   * `enqueue_desejo`: a copy of `l` is appended at the tail (becoming both
   * ends of an empty queue). A NULL queue or a failed allocation changes
   * nothing.
   */
  method EnqueueDesejo(f: FilaDesejos?, l: Livro, alocou: bool)
    requires f != null ==> f.Valid()
    modifies f, if f != null then f.nos else []
    ensures f != null ==> f.Valid()
    ensures f != null ==> f.livros == (if alocou then old(f.livros) + [l] else old(f.livros))
    ensures f != null && alocou ==> f.nos[..|f.nos| - 1] == old(f.nos) && fresh(f.nos[|f.nos| - 1])
    ensures f != null && !alocou ==> f.nos == old(f.nos)
  {
    if f == null {
      return;
    }
    if !alocou {
      return;
    }
    var novo := new No(l, null);
    var vazia := FilaDesejosVazia(f);
    ghost var nos0 := f.nos;
    ghost var livros0 := f.livros;
    var ultimo := f.fim;
    if vazia == 1 {
      f.inicio := novo;
    }
    f.fim := novo;
    f.nos := nos0 + [novo];
    f.livros := livros0 + [l];
    Anexar(nos0, livros0, ultimo, novo, l);
  }

  /**
   * `dequeue_desejo(fila)`: on a non-empty queue, the old head, and the
   * queue advances (its tail becomes NULL when it empties). On an empty or
   * NULL queue, the sentinel, with the queue unchanged.
   */
  method DequeueDesejo(f: FilaDesejos?, lixo: Livro) returns (l: Livro)
    requires f != null ==> f.Valid()
    modifies f
    ensures f != null ==> f.Valid()
    ensures f == null || old(f.livros) == [] ==> l == Sentinela(lixo)
    ensures f != null && old(f.livros) == [] ==> f.livros == old(f.livros) && f.nos == old(f.nos)
    ensures f != null && old(f.livros) != [] ==>
      l == old(f.livros)[0] && f.livros == old(f.livros)[1..] && f.nos == old(f.nos)[1..]
    ensures f != null && old(f.livros) != [] ==> (f.fim == null <==> f.livros == [])
  {
    l := Sentinela(lixo);
    var vazia := FilaDesejosVazia(f);
    if vazia == 1 {
      return l;
    }
    var removido := f.inicio;
    l := removido.dado;
    CadeiaCauda(f.nos, f.livros);
    f.inicio := removido.proximo;
    if f.inicio == null {
      f.fim := null;
    }
    f.nos := f.nos[1..];
    f.livros := f.livros[1..];
  }

  /** `front_desejo(fila)`: a copy of the head without removing it, or the sentinel when empty or NULL. */
  method FrontDesejo(f: FilaDesejos?, lixo: Livro) returns (l: Livro)
    requires f != null ==> f.Valid()
    ensures f == null || f.livros == [] ==> l == Sentinela(lixo)
    ensures f != null && f.livros != [] ==> l == f.livros[0]
  {
    l := Sentinela(lixo);
    var vazia := FilaDesejosVazia(f);
    if vazia == 1 {
      return l;
    }
    return f.inicio.dado;
  }

  /** `destruir_fila_desejos`: dequeues until the queue is empty. */
  method DestruirFilaDesejos(f: FilaDesejos?)
    requires f != null ==> f.Valid()
    modifies f
    ensures f != null ==> f.Valid() && f.livros == [] && f.inicio == null && f.fim == null
  {
    if f == null {
      return;
    }
    var vazia := FilaDesejosVazia(f);
    while vazia == 0
      invariant f.Valid()
      invariant vazia == 0 || vazia == 1
      invariant vazia == 1 <==> f.livros == []
      decreases |f.livros|
    {
      // The returned record is discarded, so the uninitialised local does not matter.
      var descartado := DequeueDesejo(f, Livro("", "", 0, "", ""));
      vazia := FilaDesejosVazia(f);
    }
  }

  /** FIFO: enqueueing R1, R2, R3 and dequeuing three times yields R1, R2, R3, then the sentinel. */
  method DesejosFifo(r1: Livro, r2: Livro, r3: Livro, lixo: Livro)
    returns (x: Livro, y: Livro, z: Livro, w: Livro)
    ensures x == r1 && y == r2 && z == r3
    ensures w.isbn == ISBN_VAZIO && w.titulo == ""
  {
    var f := new FilaDesejos();
    EnqueueDesejo(f, r1, true);
    EnqueueDesejo(f, r2, true);
    EnqueueDesejo(f, r3, true);
    x := DequeueDesejo(f, lixo);
    y := DequeueDesejo(f, lixo);
    z := DequeueDesejo(f, lixo);
    w := DequeueDesejo(f, lixo);
  }

  /**
   * The sentinel is ambiguous: dequeuing from a queue whose head has ISBN
   * "VAZIO" and dequeuing from an empty queue give records with the same
   * ISBN, so a caller testing the ISBN cannot tell them apart.
   */
  method SentinelaAmbigua(outro: Livro, lixo: Livro) returns (deCheia: Livro, deVazia: Livro)
    ensures deCheia.isbn == ISBN_VAZIO && deVazia.isbn == ISBN_VAZIO
    ensures deCheia.titulo == outro.titulo
  {
    var f := new FilaDesejos();
    EnqueueDesejo(f, outro.(isbn := ISBN_VAZIO), true);
    deCheia := DequeueDesejo(f, lixo);
    deVazia := DequeueDesejo(f, lixo);
  }
}
