/**
 * The singly linked nodes shared by the collection (`NoLista`), the history
 * stack (`NoPilha`) and the wish queue (`NoFila`): a payload and a `proximo`
 * pointer. A structure's nodes are tracked by a ghost sequence, from the head.
 */
module Nos {

  class No<T> {
    var dado: T
    var proximo: No?<T>

    constructor (dado: T, proximo: No?<T>)
      ensures this.dado == dado && this.proximo == proximo
    {
      this.dado := dado;
      this.proximo := proximo;
    }
  }

  /**
   * `nos` is a NULL-terminated chain holding `dados`: the nodes are
   * distinct, each `proximo` points at the next one and the last is NULL.
   */
  ghost predicate Cadeia<T>(nos: seq<No<T>>, dados: seq<T>)
    reads nos
  {
    && |nos| == |dados|
    && (forall i, j :: 0 <= i < j < |nos| ==> nos[i] != nos[j])
    && (forall i :: 0 <= i < |nos| ==> nos[i].dado == dados[i])
    && (forall i :: 0 <= i < |nos| - 1 ==> nos[i].proximo == nos[i + 1])
    && (|nos| > 0 ==> nos[|nos| - 1].proximo == null)
  }

  /** The head pointer of a chain: its first node, or NULL when it is empty. */
  function Primeiro<T>(nos: seq<No<T>>): No?<T> {
    if nos == [] then null else nos[0]
  }

  /** The tail pointer of a chain: its last node, or NULL when it is empty. */
  function Ultimo<T>(nos: seq<No<T>>): No?<T> {
    if nos == [] then null else nos[|nos| - 1]
  }

  /** The node after position `i`, as following `proximo` from `nos[i]` gives it. */
  function Seguinte<T>(nos: seq<No<T>>, i: nat): No?<T> {
    if i + 1 < |nos| then nos[i + 1] else null
  }

  /** Following `proximo` from node `i` of a chain reaches node `i + 1`, or NULL after the last. */
  lemma Avancar<T>(nos: seq<No<T>>, dados: seq<T>, i: nat)
    requires Cadeia(nos, dados) && i < |nos|
    ensures nos[i].proximo == Seguinte(nos, i) && nos[i].dado == dados[i]
  {
  }

  /**
   * Unlinking node `i` of a chain, by pointing its predecessor (or the head
   * when `i` is 0) at its successor, leaves a chain of the other nodes.
   * The heap facts required are those of the chain `nos` except at the
   * predecessor, whose `proximo` has been redirected.
   */
  lemma CadeiaSemNo<T>(nos: seq<No<T>>, dados: seq<T>, i: nat)
    requires i < |nos| && |nos| == |dados|
    requires forall a, b :: 0 <= a < b < |nos| ==> nos[a] != nos[b]
    requires forall k :: 0 <= k < |nos| ==> nos[k].dado == dados[k]
    requires forall k :: 0 <= k < |nos| - 1 && k + 1 != i ==> nos[k].proximo == nos[k + 1]
    requires i + 1 < |nos| ==> nos[|nos| - 1].proximo == null
    requires i > 0 ==> nos[i - 1].proximo == Seguinte(nos, i)
    ensures Cadeia(nos[..i] + nos[i + 1..], dados[..i] + dados[i + 1..])
  {
    var r := nos[..i] + nos[i + 1..];
    assert forall k :: 0 <= k < |r| ==> r[k] == (if k < i then nos[k] else nos[k + 1]);
    forall k | 0 <= k < |r| - 1
      ensures r[k].proximo == r[k + 1]
    {
      if k + 1 == i {
        assert r[k] == nos[i - 1] && r[k + 1] == nos[i + 1];
      } else if k + 1 < i {
        assert r[k] == nos[k] && r[k + 1] == nos[k + 1];
      } else {
        assert r[k] == nos[k + 1] && r[k + 1] == nos[k + 2];
      }
    }
  }

  /**
   * Appending a node that is not yet in the chain, by pointing the old last
   * node (if any) at it, gives a chain one longer. The heap facts required
   * are those of the chain `nos` except at its last node, now redirected.
   */
  lemma CadeiaAnexar<T>(nos: seq<No<T>>, dados: seq<T>, novo: No<T>)
    requires |nos| == |dados| && novo !in nos
    requires forall a, b :: 0 <= a < b < |nos| ==> nos[a] != nos[b]
    requires forall k :: 0 <= k < |nos| ==> nos[k].dado == dados[k]
    requires forall k :: 0 <= k < |nos| - 1 ==> nos[k].proximo == nos[k + 1]
    requires nos != [] ==> nos[|nos| - 1].proximo == novo
    requires novo.proximo == null
    ensures Cadeia(nos + [novo], dados + [novo.dado])
  {
  }

  /**
   * The relinking step of an append at the tail: the old last node, if
   * there is one, is pointed at `novo`, which then ends a chain one longer.
   */
  method Anexar<T>(ghost nos: seq<No<T>>, ghost dados: seq<T>, ultimo: No?<T>, novo: No<T>, ghost dado: T)
    requires Cadeia(nos, dados) && ultimo == Ultimo(nos)
    requires novo !in nos && novo.proximo == null && novo.dado == dado
    modifies if ultimo != null then {ultimo} else {}
    ensures Cadeia(nos + [novo], dados + [dado])
  {
    if ultimo != null {
      ultimo.proximo := novo;
    }
    CadeiaAnexar(nos, dados, novo);
  }

  /** Dropping the head node of a chain leaves a chain. */
  lemma CadeiaCauda<T>(nos: seq<No<T>>, dados: seq<T>)
    requires Cadeia(nos, dados) && nos != []
    ensures Cadeia(nos[1..], dados[1..])
    ensures nos[0].proximo == Primeiro(nos[1..])
  {
  }
}
