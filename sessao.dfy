/** A game session: the queue, the reserve stack and the piece factory, with
    the three actions, the replenish step, one round of the menu and the fill
    loop that starts the session (tetris.c:154-215, 239-256). */
module Sessao {
  import opened Pecas
  import opened FilaCircular
  import opened PilhaReserva
  import opened Acoes

  /** The fill loop of main: one gerarPeca and one enfileirar per draw in rs,
      starting from an empty queue and a counter at 0. */
  method EncherFila(f: Fila, fab: Fabrica, rs: seq<nat>)
    requires f.Valid() && f.Contents() == [] && fab.proximoId == 0 && |rs| == QUEUE_CAP
    modifies f, f.dados, fab
    ensures f.Valid() && fab.proximoId == QUEUE_CAP
    ensures f.Contents() == Preencher(rs).fila
  {
    var i := 0;
    while i < QUEUE_CAP
      invariant 0 <= i <= QUEUE_CAP
      invariant f.Valid() && fab.proximoId == i
      invariant |f.Contents()| == i
      invariant forall k :: 0 <= k < i ==> f.Contents()[k] == PecaGerada(k, rs[k])
    {
      var nova := fab.GerarPeca(rs[i]);
      var _ := f.Enfileirar(nova);
      i := i + 1;
    }
    PreencherConteudo(rs);
  }

  class Jogo {
    const fila: Fila
    const pilha: Pilha
    const fabrica: Fabrica

    /** Both containers within their bounds, on separate arrays, and the
        session's abstract state satisfying the invariant of reachable states. */
    ghost predicate Valid()
      reads this, fila, fila.dados, pilha, pilha.dados, fabrica
    {
      fila.Valid() && pilha.Valid() && fila.dados != pilha.dados && Invariante(Abstrato())
    }

    /** The queue head to tail, the stack base to top and the id counter. */
    ghost function Abstrato(): Estado
      reads this, fila, fila.dados, pilha, pilha.dados, fabrica
      requires fila.Valid() && pilha.Valid()
    {
      Estado(fila.Contents(), pilha.Contents(), fabrica.proximoId)
    }

    /** The start of main: an empty stack, and a queue filled with QUEUE_CAP
        fresh pieces, one per draw in rs. */
    constructor (rs: seq<nat>)
      requires |rs| == QUEUE_CAP
      ensures Valid() && fresh(fila) && fresh(fila.dados) && fresh(pilha) && fresh(pilha.dados) && fresh(fabrica)
      ensures Abstrato() == Preencher(rs)
      ensures |fila.Contents()| == QUEUE_CAP && Ids(fila.Contents()) == [0, 1, 2, 3, 4]
    {
      var f := new Fila();
      var p := new Pilha();
      var fab := new Fabrica();
      EncherFila(f, fab, rs);
      PreencherConteudo(rs);
      PreencherCheia(rs);
      assert p.Contents() == [];
      fila, pilha, fabrica := f, p, fab;
    }

    /** jogarPeca */
    method JogarPeca() returns (res: Resultado)
      requires Valid()
      modifies fila
      ensures Valid()
      ensures Saida(Abstrato(), res) == Jogar(old(Abstrato()))
    {
      JogarPreservaInvariante(Abstrato());
      var out := fila.Desenfileirar();
      match out
      case Some(jogada) => res := Jogou(jogada);
      case None => res := NadaParaJogar;
    }

    /** reservarPeca */
    method ReservarPeca() returns (res: Resultado)
      requires Valid()
      modifies fila, pilha, pilha.dados
      ensures Valid()
      ensures Saida(Abstrato(), res) == Reservar(old(Abstrato()))
    {
      ReservarPreservaInvariante(Abstrato());
      if pilha.Cheia() {
        return ReservaCheia;
      }
      var out := fila.Desenfileirar();
      match out
      case None => res := NadaParaReservar;
      case Some(frente) =>
        var ok := pilha.Empilhar(frente);
        if ok {
          res := Reservou(frente);
        } else {
          res := ReservaDescartou(frente);
        }
    }

    /** usarPecaReservada */
    method UsarPecaReservada() returns (res: Resultado)
      requires Valid()
      modifies pilha
      ensures Valid()
      ensures Saida(Abstrato(), res) == Usar(old(Abstrato()))
    {
      UsarPreservaInvariante(Abstrato());
      var out := pilha.Desempilhar();
      match out
      case Some(usada) => res := Usou(usada);
      case None => res := NadaParaUsar;
    }

    /** reporFilaComNovaPeca, with r the value rand() returned inside gerarPeca. */
    method ReporFilaComNovaPeca(r: nat) returns (rep: Reposicao)
      requires Valid()
      modifies fila, fila.dados, fabrica
      ensures Valid()
      ensures Saida(Abstrato(), rep) == Repor(old(Abstrato()), r)
    {
      ReporPreservaInvariante(Abstrato(), r);
      var nova := fabrica.GerarPeca(r);
      var ok := fila.Enfileirar(nova);
      rep := if ok then Adicionada(nova) else Descartada(nova);
    }

    /** Menu options 1, 2 and 3 of main: the action, then always the replenish
        step; a full queue is full again afterwards. */
    method ExecutarOpcao(op: Opcao, r: nat) returns (res: Resultado, rep: Reposicao)
      requires Valid()
      modifies fila, fila.dados, pilha, pilha.dados, fabrica
      ensures Valid()
      ensures Rodada(Abstrato(), res, rep) == Passo(old(Abstrato()), op, r)
      ensures |old(fila.Contents())| == QUEUE_CAP ==> |fila.Contents()| == QUEUE_CAP
    {
      ghost var antes := Abstrato();
      ghost var acao: Saida<Resultado>;
      match op {
        case OpJogar =>
          res := JogarPeca();
          acao := Jogar(antes);
        case OpReservar =>
          res := ReservarPeca();
          acao := Reservar(antes);
        case OpUsar =>
          res := UsarPecaReservada();
          acao := Usar(antes);
      }
      assert Saida(Abstrato(), res) == acao;
      rep := ReporFilaComNovaPeca(r);
      assert Passo(antes, op, r) == Rodada(Repor(acao.depois, r).depois, res, rep);
      if |antes.fila| == QUEUE_CAP {
        PassoMantemFilaCheia(antes, op, r);
      }
    }
  }
}
