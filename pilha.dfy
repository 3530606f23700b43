/** The reserve stack Pilha: an array and topo, the number of pieces held
    (tetris.c:39-43, 97-124). */
module PilhaReserva {
  import opened Pecas

  /** Pilha: dados[0] is the base, dados[topo - 1] the top. */
  class Pilha {
    const dados: array<Peca>
    var topo: int

    /** The bounds every stack operation keeps. */
    ghost predicate Valid()
      reads this
    {
      dados.Length == STACK_CAP && 0 <= topo <= STACK_CAP
    }

    /** The stack base to top, in push order. */
    ghost function Contents(): seq<Peca>
      reads this, dados
      requires Valid()
    {
      dados[..topo]
    }

    /** A fresh stack set up as initPilha leaves it: empty. */
    constructor ()
      ensures Valid() && fresh(dados) && Contents() == []
    {
      dados := new Peca[STACK_CAP];
      topo := 0;
    }

    /** pilhaCheia */
    predicate Cheia()
      reads this, dados
      requires Valid()
      ensures Cheia() <==> |Contents()| == STACK_CAP
    {
      topo == STACK_CAP
    }

    /** pilhaVazia */
    predicate Vazia()
      reads this, dados
      requires Valid()
      ensures Vazia() <==> Contents() == []
    {
      topo == 0
    }

    /** empilhar: a full stack is left as it was and the call fails; otherwise
        x goes on top. */
    method Empilhar(x: Peca) returns (ok: bool)
      requires Valid()
      modifies this, dados
      ensures Valid()
      ensures ok <==> |old(Contents())| < STACK_CAP
      ensures Contents() == if ok then old(Contents()) + [x] else old(Contents())
      ensures !ok ==> dados[..] == old(dados[..]) && topo == old(topo)
    {
      if Cheia() {
        return false;
      }
      dados[topo] := x;
      topo := topo + 1;
      ok := true;
    }

    /** desempilhar: an empty stack is left as it was and nothing comes out;
        otherwise the piece pushed last comes out and the rest stays. */
    method Desempilhar() returns (out: Option<Peca>)
      requires Valid()
      modifies this
      ensures Valid()
      ensures out.None? <==> old(Contents()) == []
      ensures out.None? ==> topo == old(topo)
      ensures out.Some? ==> Contents() + [out.value] == old(Contents())
    {
      if Vazia() {
        return None;
      }
      topo := topo - 1;
      out := Some(dados[topo]);
    }

    /** The display loop of mostrarEstado: the pieces from top to base, which
        is the order they would be popped in. */
    method TopoBase() returns (vista: seq<Peca>)
      requires Valid()
      ensures |vista| == |Contents()|
      ensures forall k :: 0 <= k < |vista| ==> vista[k] == Contents()[|Contents()| - 1 - k]
    {
      vista := [];
      var i := topo - 1;
      while i >= 0
        invariant -1 <= i < topo
        invariant |vista| == topo - 1 - i
        invariant forall k :: 0 <= k < |vista| ==> vista[k] == dados[topo - 1 - k]
      {
        vista := vista + [dados[i]];
        i := i - 1;
      }
    }
  }
}
