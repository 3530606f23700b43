/** The three actions and the replenish step as transitions over the abstract
    state: the queue head to tail, the stack base to top and the id counter
    (tetris.c:154-200, and the switch of main at tetris.c:239-256). */
module Acoes {
  import opened Pecas

  datatype Estado = Estado(fila: seq<Peca>, pilha: seq<Peca>, proximoId: nat)

  /** What an action reports: one constructor per message of tetris.c:155-190. */
  datatype Resultado =
    | Jogou(peca: Peca)
    | NadaParaJogar
    | ReservaCheia
    | Reservou(peca: Peca)
    | ReservaDescartou(peca: Peca)
    | NadaParaReservar
    | Usou(peca: Peca)
    | NadaParaUsar

  /** What the replenish step reports (tetris.c:195-199). */
  datatype Reposicao = Adicionada(peca: Peca) | Descartada(peca: Peca)

  /** The state after one step and what the step reported. */
  datatype Saida<R> = Saida(depois: Estado, resultado: R)

  /** The menu options that act on the game: 1, 2 and 3. */
  datatype Opcao = OpJogar | OpReservar | OpUsar

  /** One menu round: an action, then the replenish step. */
  datatype Rodada = Rodada(depois: Estado, resultado: Resultado, reposicao: Reposicao)

  /** Every piece held: the stack base to top, then the queue head to tail. */
  function Todas(e: Estado): seq<Peca>
  {
    e.pilha + e.fila
  }

  /** Ids strictly increase along s. */
  predicate Crescente(s: seq<Peca>)
  {
    forall i, j :: 0 <= i < j < |s| ==> s[i].id < s[j].id
  }

  /** What every reachable state satisfies: both containers within their
      capacity, every piece held older than the counter, and the ids in
      creation order from the stack base through to the queue tail. */
  predicate Invariante(e: Estado)
  {
    |e.fila| <= QUEUE_CAP && |e.pilha| <= STACK_CAP
    && Crescente(Todas(e))
    && forall i :: 0 <= i < |Todas(e)| ==> Todas(e)[i].id < e.proximoId
  }

  /** jogarPeca: the head of the queue is played and gone; an empty queue is
      reported and nothing changes. */
  function Jogar(e: Estado): (t: Saida<Resultado>)
    ensures t.depois.pilha == e.pilha && t.depois.proximoId == e.proximoId
    ensures t.resultado.Jogou? <==> e.fila != []
    ensures t.resultado.Jogou? ==> [t.resultado.peca] + t.depois.fila == e.fila
    ensures !t.resultado.Jogou? ==> t == Saida(e, NadaParaJogar)
  {
    if e.fila == [] then Saida(e, NadaParaJogar)
    else Saida(e.(fila := e.fila[1..]), Jogou(e.fila[0]))
  }

  /** reservarPeca: with room on the stack, the head of the queue moves to
      the top of the stack; a full stack or an empty queue is reported and
      nothing changes. The push after the fullness check cannot fail, so the
      discard branch is never taken, and no piece is ever lost. */
  function Reservar(e: Estado): (t: Saida<Resultado>)
    ensures t.depois.proximoId == e.proximoId
    ensures !t.resultado.ReservaDescartou?
    ensures t.resultado.ReservaCheia? <==> |e.pilha| == STACK_CAP
    ensures t.resultado.Reservou? <==> |e.pilha| != STACK_CAP && e.fila != []
    ensures t.resultado.Reservou? ==>
      t.depois.pilha == e.pilha + [t.resultado.peca] && [t.resultado.peca] + t.depois.fila == e.fila
    ensures !t.resultado.Reservou? ==> t.depois == e
    ensures Todas(t.depois) == Todas(e)
  {
    if |e.pilha| == STACK_CAP then Saida(e, ReservaCheia)
    else if e.fila == [] then Saida(e, NadaParaReservar)
    else
      var frente := e.fila[0];
      var semFrente := e.(fila := e.fila[1..]);
      if |semFrente.pilha| != STACK_CAP then
        Saida(semFrente.(pilha := semFrente.pilha + [frente]), Reservou(frente))
      else
        Saida(semFrente, ReservaDescartou(frente))
  }

  /** usarPecaReservada: the top of the stack is used and gone; an empty
      stack is reported and nothing changes. */
  function Usar(e: Estado): (t: Saida<Resultado>)
    ensures t.depois.fila == e.fila && t.depois.proximoId == e.proximoId
    ensures t.resultado.Usou? <==> e.pilha != []
    ensures t.resultado.Usou? ==> t.depois.pilha + [t.resultado.peca] == e.pilha
    ensures !t.resultado.Usou? ==> t == Saida(e, NadaParaUsar)
  {
    if e.pilha == [] then Saida(e, NadaParaUsar)
    else Saida(e.(pilha := e.pilha[..|e.pilha| - 1]), Usou(e.pilha[|e.pilha| - 1]))
  }

  /** reporFilaComNovaPeca: exactly one piece is created, taking the counter's
      value as its id; it joins the tail unless the queue is full, in which case
      it is dropped and its id is never reused. */
  function Repor(e: Estado, r: nat): (t: Saida<Reposicao>)
    ensures t.depois.pilha == e.pilha && t.depois.proximoId == e.proximoId + 1
    ensures t.resultado.peca == PecaGerada(e.proximoId, r)
    ensures t.resultado.Adicionada? <==> |e.fila| != QUEUE_CAP
    ensures t.resultado.Adicionada? ==> t.depois.fila == e.fila + [t.resultado.peca]
    ensures t.resultado.Descartada? ==> t.depois.fila == e.fila
  {
    var nova := PecaGerada(e.proximoId, r);
    var contado := e.(proximoId := e.proximoId + 1);
    if |e.fila| != QUEUE_CAP then Saida(contado.(fila := e.fila + [nova]), Adicionada(nova))
    else Saida(contado, Descartada(nova))
  }

  /** One menu round: the chosen action, then always the replenish step. */
  function Passo(e: Estado, op: Opcao, r: nat): (p: Rodada)
    ensures p.depois.proximoId == e.proximoId + 1
    ensures p.reposicao.peca.id == e.proximoId
  {
    var t := match op
      case OpJogar => Jogar(e)
      case OpReservar => Reservar(e)
      case OpUsar => Usar(e);
    var u := Repor(t.depois, r);
    Rodada(u.depois, t.resultado, u.resultado)
  }

  /** The state reached from the empty session by the fill loop of main, one
      gerarPeca and one enfileirar per draw in rs. */
  function Preencher(rs: seq<nat>): Estado
    decreases |rs|
  {
    if rs == [] then Estado([], [], 0)
    else Repor(Preencher(rs[..|rs| - 1]), rs[|rs| - 1]).depois
  }

  /** The state reached after a run of menu rounds. */
  function Rodar(e: Estado, passos: seq<(Opcao, nat)>): Estado
    decreases |passos|
  {
    if passos == [] then e
    else Rodar(Passo(e, passos[0].0, passos[0].1).depois, passos[1..])
  }

  /** The pieces created during a run of menu rounds, kept or dropped, in
      creation order. */
  function Criadas(e: Estado, passos: seq<(Opcao, nat)>): seq<Peca>
    decreases |passos|
  {
    if passos == [] then []
    else
      var p := Passo(e, passos[0].0, passos[0].1);
      [p.reposicao.peca] + Criadas(p.depois, passos[1..])
  }

  /** The ids of a sequence of pieces. */
  function Ids(s: seq<Peca>): seq<nat>
  {
    seq(|s|, i requires 0 <= i < |s| => s[i].id)
  }

  // ---------------------------------------------------------------------
  // The invariant is established by the fill loop and kept by every step.

  /** Removing one element keeps ids increasing. */
  lemma CrescenteSemUm(s: seq<Peca>, k: nat)
    requires Crescente(s) && k < |s|
    ensures Crescente(s[..k] + s[k + 1..])
  {
    var t := s[..k] + s[k + 1..];
    forall i, j | 0 <= i < j < |t|
      ensures t[i].id < t[j].id
    {
      var i' := if i < k then i else i + 1;
      var j' := if j < k then j else j + 1;
      assert t[i] == s[i'] && t[j] == s[j'];
    }
  }

  /** After the fill loop of main, the queue holds one piece per draw, with ids
      0, 1, 2, ... in order, and the stack is empty. */
  lemma {:induction false} PreencherConteudo(rs: seq<nat>)
    requires |rs| <= QUEUE_CAP
    ensures Preencher(rs).pilha == [] && Preencher(rs).proximoId == |rs|
    ensures |Preencher(rs).fila| == |rs|
    ensures forall k :: 0 <= k < |rs| ==> Preencher(rs).fila[k] == PecaGerada(k, rs[k])
    decreases |rs|
  {
    if rs != [] {
      var init := rs[..|rs| - 1];
      PreencherConteudo(init);
      var e := Preencher(init);
      var t := Repor(e, rs[|rs| - 1]);
      assert Preencher(rs) == t.depois;
      assert t.resultado.Adicionada?;
      forall k | 0 <= k < |rs|
        ensures t.depois.fila[k] == PecaGerada(k, rs[k])
      {
        if k < |init| {
          assert rs[k] == init[k];
        }
      }
    }
  }

  /** A queue numbered 0, 1, 2, ... in order over an empty stack satisfies
      the invariant. */
  lemma NumeradaInvariante(e: Estado)
    requires |e.fila| <= QUEUE_CAP && e.pilha == [] && e.proximoId == |e.fila|
    requires forall k :: 0 <= k < |e.fila| ==> e.fila[k].id == k
    ensures Invariante(e)
  {
    assert Todas(e) == e.fila;
  }

  /** The queue of main's fill loop is full once QUEUE_CAP pieces are in, with
      ids 0 to 4 in order; the stack is empty and the invariant holds. */
  lemma PreencherCheia(rs: seq<nat>)
    requires |rs| == QUEUE_CAP
    ensures |Preencher(rs).fila| == QUEUE_CAP && Preencher(rs).pilha == []
    ensures Ids(Preencher(rs).fila) == [0, 1, 2, 3, 4]
    ensures Invariante(Preencher(rs))
  {
    PreencherConteudo(rs);
    var e := Preencher(rs);
    assert forall k :: 0 <= k < |e.fila| ==> e.fila[k].id == k by {
      forall k | 0 <= k < |e.fila| ensures e.fila[k].id == k {
        assert e.fila[k] == PecaGerada(k, rs[k]);
      }
    }
    NumeradaInvariante(e);
    IdsNumerada(e.fila);
  }

  lemma IdsNumerada(s: seq<Peca>)
    requires |s| == 5 && forall k :: 0 <= k < |s| ==> s[k].id == k
    ensures Ids(s) == [0, 1, 2, 3, 4]
  {
  }

  lemma JogarPreservaInvariante(e: Estado)
    requires Invariante(e)
    ensures Invariante(Jogar(e).depois)
  {
    if e.fila != [] {
      var k := |e.pilha|;
      CrescenteSemUm(Todas(e), k);
      assert Todas(Jogar(e).depois) == Todas(e)[..k] + Todas(e)[k + 1..];
    }
  }

  lemma UsarPreservaInvariante(e: Estado)
    requires Invariante(e)
    ensures Invariante(Usar(e).depois)
  {
    if e.pilha != [] {
      var k := |e.pilha| - 1;
      CrescenteSemUm(Todas(e), k);
      assert Todas(Usar(e).depois) == Todas(e)[..k] + Todas(e)[k + 1..];
    }
  }

  lemma ReservarPreservaInvariante(e: Estado)
    requires Invariante(e)
    ensures Invariante(Reservar(e).depois)
  {
  }

  lemma ReporPreservaInvariante(e: Estado, r: nat)
    requires Invariante(e)
    ensures Invariante(Repor(e, r).depois)
  {
    var t := Repor(e, r);
    if t.resultado.Adicionada? {
      assert Todas(t.depois) == Todas(e) + [t.resultado.peca];
    }
  }

  /** Every menu round keeps the invariant. */
  lemma PassoPreservaInvariante(e: Estado, op: Opcao, r: nat)
    requires Invariante(e)
    ensures Invariante(Passo(e, op, r).depois)
  {
    match op
    case OpJogar =>
      JogarPreservaInvariante(e);
      ReporPreservaInvariante(Jogar(e).depois, r);
    case OpReservar =>
      ReservarPreservaInvariante(e);
      ReporPreservaInvariante(Reservar(e).depois, r);
    case OpUsar =>
      UsarPreservaInvariante(e);
      ReporPreservaInvariante(Usar(e).depois, r);
  }

  /** "para manter a fila cheia": a full queue is full again after any action
      followed by the replenish step. */
  lemma PassoMantemFilaCheia(e: Estado, op: Opcao, r: nat)
    requires |e.fila| == QUEUE_CAP
    ensures |Passo(e, op, r).depois.fila| == QUEUE_CAP
  {
  }

  /** Under the invariant no piece is in the queue and the stack at once. */
  lemma FilaPilhaDisjuntas(e: Estado)
    requires Invariante(e)
    ensures forall p :: p in e.fila ==> p !in e.pilha
  {
    forall i, j | 0 <= i < |e.fila| && 0 <= j < |e.pilha|
      ensures e.fila[i].id > e.pilha[j].id
    {
      assert Todas(e)[|e.pilha| + i] == e.fila[i];
      assert Todas(e)[j] == e.pilha[j];
    }
  }

  // ---------------------------------------------------------------------
  // Runs of several rounds.

  lemma {:induction false} RodarPreservaInvariante(e: Estado, passos: seq<(Opcao, nat)>)
    requires Invariante(e)
    ensures Invariante(Rodar(e, passos))
    decreases |passos|
  {
    if passos != [] {
      PassoPreservaInvariante(e, passos[0].0, passos[0].1);
      RodarPreservaInvariante(Passo(e, passos[0].0, passos[0].1).depois, passos[1..]);
    }
  }

  /** Once full, the queue stays full for the rest of the session. */
  lemma {:induction false} RodarMantemFilaCheia(e: Estado, passos: seq<(Opcao, nat)>)
    requires |e.fila| == QUEUE_CAP
    ensures |Rodar(e, passos).fila| == QUEUE_CAP
    decreases |passos|
  {
    if passos != [] {
      PassoMantemFilaCheia(e, passos[0].0, passos[0].1);
      RodarMantemFilaCheia(Passo(e, passos[0].0, passos[0].1).depois, passos[1..]);
    }
  }

  /** The k-th piece created in a run takes id proximoId + k, kept or dropped:
      the ids of created pieces strictly increase and never repeat. */
  lemma {:induction false} CriadasIds(e: Estado, passos: seq<(Opcao, nat)>)
    ensures |Criadas(e, passos)| == |passos|
    ensures forall k :: 0 <= k < |passos| ==> Criadas(e, passos)[k].id == e.proximoId + k
    ensures Rodar(e, passos).proximoId == e.proximoId + |passos|
    decreases |passos|
  {
    if passos != [] {
      var p := Passo(e, passos[0].0, passos[0].1);
      CriadasIds(p.depois, passos[1..]);
    }
  }

  /** A round only brings in the piece it creates. */
  lemma PassoSoTrazNova(e: Estado, op: Opcao, r: nat)
    ensures forall q :: q in Todas(Passo(e, op, r).depois) ==> q in Todas(e) || q.id == e.proximoId
  {
    var t := match op
      case OpJogar => Jogar(e)
      case OpReservar => Reservar(e)
      case OpUsar => Usar(e);
    assert forall q :: q in Todas(t.depois) ==> q in Todas(e) by {
      if t.resultado.Jogou? {
        assert Todas(e) == e.pilha + [t.resultado.peca] + t.depois.fila;
      } else if t.resultado.Usou? {
        assert Todas(e) == t.depois.pilha + [t.resultado.peca] + e.fila;
      }
    }
    var u := Repor(t.depois, r);
    if u.resultado.Adicionada? {
      assert Todas(u.depois) == Todas(t.depois) + [u.resultado.peca];
    }
  }

  /** After a run, every piece held was already held or is newer than the
      counter at the start. */
  lemma {:induction false} RodarSoTrazNovas(e: Estado, passos: seq<(Opcao, nat)>)
    ensures forall q :: q in Todas(Rodar(e, passos)) ==> q in Todas(e) || q.id >= e.proximoId
    decreases |passos|
  {
    if passos != [] {
      var p := Passo(e, passos[0].0, passos[0].1);
      PassoSoTrazNova(e, passos[0].0, passos[0].1);
      RodarSoTrazNovas(p.depois, passos[1..]);
    }
  }

  /** Removed pieces never come back: a piece that a round removed from the
      queue or the stack is in neither container after any later rounds. */
  lemma SemRessurreicao(e: Estado, op: Opcao, r: nat, passos: seq<(Opcao, nat)>, q: Peca)
    requires Invariante(e)
    requires q in Todas(e) && q !in Todas(Passo(e, op, r).depois)
    ensures q !in Todas(Rodar(Passo(e, op, r).depois, passos))
  {
    RodarSoTrazNovas(Passo(e, op, r).depois, passos);
  }

  // ---------------------------------------------------------------------
  // A session with QUEUE_CAP = 5 and STACK_CAP = 3, round by round.

  lemma IdsConcat(a: seq<Peca>, b: seq<Peca>)
    ensures Ids(a + b) == Ids(a) + Ids(b)
  {
  }

  /** A play on a full queue: its head comes out, the new piece joins. */
  lemma JogarCheia(e: Estado, r: nat)
    requires |e.fila| == QUEUE_CAP
    ensures Passo(e, OpJogar, r).resultado == Jogou(e.fila[0])
    ensures Ids(Passo(e, OpJogar, r).depois.fila) == Ids(e.fila)[1..] + [e.proximoId]
    ensures Passo(e, OpJogar, r).depois.pilha == e.pilha
  {
    IdsConcat(e.fila[1..], [PecaGerada(e.proximoId, r)]);
  }

  /** A reservation on a full queue with room on the stack: the head moves to
      the stack top, the new piece joins the queue. */
  lemma ReservarComEspaco(e: Estado, r: nat)
    requires |e.fila| == QUEUE_CAP && |e.pilha| < STACK_CAP
    ensures Ids(Passo(e, OpReservar, r).depois.pilha) == Ids(e.pilha) + [e.fila[0].id]
    ensures Ids(Passo(e, OpReservar, r).depois.fila) == Ids(e.fila)[1..] + [e.proximoId]
  {
    IdsConcat(e.pilha, [e.fila[0]]);
    IdsConcat(e.fila[1..], [PecaGerada(e.proximoId, r)]);
  }

  /** A reservation with the stack full: reported, nothing moves, and the new
      piece is dropped because the queue is still full. */
  lemma ReservarSemEspaco(e: Estado, r: nat)
    requires |e.fila| == QUEUE_CAP && |e.pilha| == STACK_CAP
    ensures Passo(e, OpReservar, r).resultado == ReservaCheia
    ensures Passo(e, OpReservar, r).reposicao == Descartada(PecaGerada(e.proximoId, r))
    ensures Passo(e, OpReservar, r).depois == e.(proximoId := e.proximoId + 1)
  {
  }

  /** Using the reserve with a full queue: the top comes out, the new piece is
      dropped. */
  lemma UsarCheia(e: Estado, r: nat)
    requires |e.fila| == QUEUE_CAP && e.pilha != []
    ensures Passo(e, OpUsar, r).resultado == Usou(e.pilha[|e.pilha| - 1])
    ensures Passo(e, OpUsar, r).depois.fila == e.fila
    ensures Ids(Passo(e, OpUsar, r).depois.pilha) == Ids(e.pilha)[..|e.pilha| - 1]
  {
  }

  // The three lemmas below follow one session with QUEUE_CAP = 5 and
  // STACK_CAP = 3: play, reserve four times, use the reserve.

  /** From the filled queue (ids 0 to 4), a play gives piece 0 and the queue
      becomes ids 1 to 5. */
  lemma CenarioJogar(rs: seq<nat>, r: nat)
    requires |rs| == QUEUE_CAP
    ensures var e0 := Preencher(rs);
      var p1 := Passo(e0, OpJogar, r);
      && p1.resultado == Jogou(e0.fila[0]) && e0.fila[0].id == 0
      && |p1.depois.fila| == QUEUE_CAP && Ids(p1.depois.fila) == [1, 2, 3, 4, 5]
      && p1.depois.pilha == [] && p1.depois.proximoId == 6
  {
    PreencherCheia(rs);
    PreencherConteudo(rs);
    var e0 := Preencher(rs);
    assert e0.fila[0].id == Ids(e0.fila)[0];
    JogarCheia(e0, r);
    PassoMantemFilaCheia(e0, OpJogar, r);
  }

  /** Then three reservations move the heads 1, 2 and 3 to the stack while
      the queue is refilled to ids 4 to 8. */
  lemma CenarioReservar(e: Estado, r1: nat, r2: nat, r3: nat)
    requires |e.fila| == QUEUE_CAP && Ids(e.fila) == [1, 2, 3, 4, 5]
    requires e.pilha == [] && e.proximoId == 6
    ensures var p2 := Passo(e, OpReservar, r1);
      var p3 := Passo(p2.depois, OpReservar, r2);
      var p4 := Passo(p3.depois, OpReservar, r3);
      && |p4.depois.pilha| == STACK_CAP && Ids(p4.depois.pilha) == [1, 2, 3]
      && |p4.depois.fila| == QUEUE_CAP && Ids(p4.depois.fila) == [4, 5, 6, 7, 8]
      && p4.depois.proximoId == 9
  {
    var p2 := Passo(e, OpReservar, r1);
    ReservarComEspaco(e, r1);
    PassoMantemFilaCheia(e, OpReservar, r1);
    assert e.fila[0].id == Ids(e.fila)[0];
    var p3 := Passo(p2.depois, OpReservar, r2);
    ReservarComEspaco(p2.depois, r2);
    PassoMantemFilaCheia(p2.depois, OpReservar, r2);
    assert p2.depois.fila[0].id == Ids(p2.depois.fila)[0];
    var p4 := Passo(p3.depois, OpReservar, r3);
    ReservarComEspaco(p3.depois, r3);
    PassoMantemFilaCheia(p3.depois, OpReservar, r3);
    assert p3.depois.fila[0].id == Ids(p3.depois.fila)[0];
    assert |p4.depois.pilha| == |Ids(p4.depois.pilha)|;
  }

  /** Then a fourth reservation is refused with both containers untouched and
      the piece it created (id 9) dropped, and using the reserve gives piece
      3, the last one reserved. */
  lemma CenarioReservaCheia(e: Estado, r4: nat, r5: nat)
    requires |e.fila| == QUEUE_CAP && Ids(e.fila) == [4, 5, 6, 7, 8]
    requires |e.pilha| == STACK_CAP && Ids(e.pilha) == [1, 2, 3] && e.proximoId == 9
    ensures var p5 := Passo(e, OpReservar, r4);
      var p6 := Passo(p5.depois, OpUsar, r5);
      && p5.resultado == ReservaCheia && p5.reposicao == Descartada(PecaGerada(9, r4))
      && p5.depois.fila == e.fila && p5.depois.pilha == e.pilha
      && p6.resultado.Usou? && p6.resultado.peca.id == 3
      && Ids(p6.depois.pilha) == [1, 2] && Ids(p6.depois.fila) == [4, 5, 6, 7, 8]
  {
    var p5 := Passo(e, OpReservar, r4);
    ReservarSemEspaco(e, r4);
    var p6 := Passo(p5.depois, OpUsar, r5);
    UsarCheia(p5.depois, r5);
    assert p6.resultado.peca.id == Ids(e.pilha)[2];
  }

  /** On a fresh session, using the reserve is reported as nothing to use,
      and its replenish step still creates piece 5 and drops it. */
  lemma CenarioUsarSemReserva(rs: seq<nat>, r: nat)
    requires |rs| == QUEUE_CAP
    ensures Passo(Preencher(rs), OpUsar, r).resultado == NadaParaUsar
    ensures Passo(Preencher(rs), OpUsar, r).reposicao == Descartada(PecaGerada(5, r))
    ensures Passo(Preencher(rs), OpUsar, r).depois.fila == Preencher(rs).fila
  {
    PreencherCheia(rs);
    PreencherConteudo(rs);
  }
}
