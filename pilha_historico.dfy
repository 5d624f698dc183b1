/**
 * The history stack of pilha_historico.c: a linked LIFO list of ISBN strings,
 * each copied into a node of `TAM_ISBN` bytes.
 */
module PilhaHistorico {
  import opened Wrappers
  import opened CStrings
  import opened Livros
  import opened Nos

  /** `PilhaHistorico`: only the top pointer; there is no counter. */
  class PilhaHistorico {
    var topo: No?<string>
    /** The nodes from `topo` down, and the ISBNs they hold (top first). */
    ghost var nos: seq<No<string>>
    ghost var isbns: seq<string>

    /** A NULL-terminated chain from `topo` whose entries fit `TAM_ISBN` with the terminator. */
    ghost predicate Valid()
      reads this, nos
    {
      && Cadeia(nos, isbns) && topo == Primeiro(nos)
      && forall i :: 0 <= i < |isbns| ==> |isbns[i]| <= TAM_ISBN - 1
    }

    constructor ()
      ensures Valid() && isbns == [] && nos == []
    {
      topo := null;
      nos := [];
      isbns := [];
    }
  }

  /** `criar_pilha_historico`: an empty stack, or NULL when `malloc` fails. */
  method CriarPilhaHistorico(alocou: bool) returns (p: PilhaHistorico?)
    ensures p != null <==> alocou
    ensures p != null ==> fresh(p) && p.Valid() && p.isbns == [] && p.topo == null
  {
    if !alocou {
      return null;
    }
    p := new PilhaHistorico();
  }

  /** `pilha_historico_vazia`: 1 exactly when the stack is NULL or has no top node. */
  method PilhaHistoricoVazia(p: PilhaHistorico?) returns (r: int)
    requires p != null ==> p.Valid()
    ensures r == 0 || r == 1
    ensures r == 1 <==> p == null || p.isbns == []
  {
    if p == null || p.topo == null {
      return 1;
    }
    return 0;
  }

  /**
   * `push_historico`: the ISBN, cut to 13 characters, becomes the new top;
   * the rest of the stack is unchanged. A NULL stack or ISBN, or a failed
   * node allocation, changes nothing.
   */
  method PushHistorico(p: PilhaHistorico?, isbn: Option<string>, alocou: bool)
    requires p != null ==> p.Valid()
    requires isbn.Some? ==> CString(isbn.value)
    modifies p
    ensures p != null ==> p.Valid()
    ensures p != null ==>
      p.isbns == (if isbn.Some? && alocou then [Truncar(isbn.value, TAM_ISBN - 1)] + old(p.isbns) else old(p.isbns))
    ensures p != null ==> p.nos == old(p.nos) || (fresh(p.nos[0]) && p.nos[1..] == old(p.nos))
  {
    if p == null || isbn.None? {
      return;
    }
    if !alocou {
      return;
    }
    var copia := Truncar(isbn.value, TAM_ISBN - 1);
    var novo := new No(copia, p.topo);
    p.topo := novo;
    p.nos := [novo] + p.nos;
    p.isbns := [copia] + p.isbns;
  }

  /**
   * `pop_historico`: on a non-empty stack, a copy of the top ISBN, and the
   * stack becomes its former tail. An empty or NULL stack, or a failed
   * allocation of the returned copy, gives NULL and changes nothing.
   */
  method PopHistorico(p: PilhaHistorico?, alocou: bool) returns (r: Option<string>)
    requires p != null ==> p.Valid()
    modifies p
    ensures p != null ==> p.Valid()
    ensures p == null ==> r.None?
    ensures p != null && (old(p.isbns) == [] || !alocou) ==>
      r.None? && p.isbns == old(p.isbns) && p.nos == old(p.nos)
    ensures p != null && old(p.isbns) != [] && alocou ==>
      r == Some(old(p.isbns)[0]) && p.isbns == old(p.isbns)[1..] && p.nos == old(p.nos)[1..]
  {
    var vazia := PilhaHistoricoVazia(p);
    if vazia == 1 {
      return None;
    }
    var removido := p.topo;
    if !alocou {
      return None;
    }
    var copia := Truncar(removido.dado, TAM_ISBN - 1);
    CadeiaCauda(p.nos, p.isbns);
    p.topo := removido.proximo;
    p.nos := p.nos[1..];
    p.isbns := p.isbns[1..];
    return Some(copia);
  }

  /** `peek_historico`: the top ISBN without removing it, or NULL when the stack is empty or NULL. */
  method PeekHistorico(p: PilhaHistorico?) returns (r: Option<string>)
    requires p != null ==> p.Valid()
    ensures p == null || p.isbns == [] ==> r.None?
    ensures p != null && p.isbns != [] ==> r == Some(p.isbns[0])
  {
    var vazia := PilhaHistoricoVazia(p);
    if vazia == 1 {
      return None;
    }
    return Some(p.topo.dado);
  }

  /**
   * `destruir_pilha_historico`: pops until the stack is empty (each pop's
   * copy allocated successfully), discarding the popped ISBNs.
   */
  method DestruirPilhaHistorico(p: PilhaHistorico?)
    requires p != null ==> p.Valid()
    modifies p
    ensures p != null ==> p.Valid() && p.isbns == []
  {
    if p == null {
      return;
    }
    var vazia := PilhaHistoricoVazia(p);
    while vazia == 0
      invariant p.Valid()
      invariant vazia == 0 || vazia == 1
      invariant vazia == 1 <==> p.isbns == []
      decreases |p.isbns|
    {
      var descartado := PopHistorico(p, true);
      vazia := PilhaHistoricoVazia(p);
    }
  }

  /** LIFO: pushing A, B, C and popping three times yields C, B, A. */
  method HistoricoLifo(a: string, b: string, c: string) returns (x: Option<string>, y: Option<string>, z: Option<string>)
    requires CString(a) && CString(b) && CString(c)
    requires |a| < TAM_ISBN && |b| < TAM_ISBN && |c| < TAM_ISBN
    ensures x == Some(c) && y == Some(b) && z == Some(a)
  {
    var p := new PilhaHistorico();
    PushHistorico(p, Some(a), true);
    assert p.isbns == [a];
    PushHistorico(p, Some(b), true);
    assert p.isbns == [b, a];
    PushHistorico(p, Some(c), true);
    assert p.isbns == [c, b, a];
    x := PopHistorico(p, true);
    assert p.isbns == [b, a];
    y := PopHistorico(p, true);
    assert p.isbns == [a];
    z := PopHistorico(p, true);
  }
}
