/** Pieces, the two capacities and the piece factory with its id counter
    (tetris.c:22-61). */
module Pecas {

  /** Fixed capacity of the circular queue of upcoming pieces (tetris.c:23). */
  const QUEUE_CAP: nat := 5

  /** Maximum size of the reserve stack (tetris.c:24). */
  const STACK_CAP: nat := 3

  /** The kinds gerarPeca chooses from, in the order of its table. */
  const TIPOS: seq<char> := ['I', 'O', 'T', 'L']

  /** A piece: its kind and its creation-order id. */
  datatype Peca = Peca(nome: char, id: nat)

  /** A value that may be absent: what a removal from an empty container gives. */
  datatype Option<T> = None | Some(value: T)

  /** The kind gerarPeca picks when rand() returned r (r is never negative,
      so Dafny's % agrees with C's here). */
  function TipoSorteado(r: nat): (c: char)
    ensures c in TIPOS
  {
    TIPOS[r % |TIPOS|]
  }

  /** Every kind of the table can come out of the draw. */
  lemma TipoSorteadoCobre(c: char)
    requires c in TIPOS
    ensures exists r: nat :: TipoSorteado(r) == c
  {
    var k :| 0 <= k < |TIPOS| && TIPOS[k] == c;
    assert TipoSorteado(k) == c;
  }

  /** The piece gerarPeca builds from the counter's value and the draw. */
  function PecaGerada(contador: nat, r: nat): Peca
  {
    Peca(TipoSorteado(r), contador)
  }

  /** The piece factory: the counter proximoId, which only gerarPeca advances. */
  class Fabrica {
    var proximoId: nat

    /** The counter starts at 0 (tetris.c:46). */
    constructor ()
      ensures proximoId == 0
    {
      proximoId := 0;
    }

    /** gerarPeca: the new piece takes the counter's prior value as its id and
        the counter goes up by exactly one. */
    method GerarPeca(r: nat) returns (p: Peca)
      modifies this
      ensures p == PecaGerada(old(proximoId), r)
      ensures p.nome in TIPOS && p.id == old(proximoId)
      ensures proximoId == old(proximoId) + 1
    {
      p := Peca(TipoSorteado(r), proximoId);
      proximoId := proximoId + 1;
    }
  }
}
