/** The circular queue Fila: a ring buffer over an array, a head index and a
    count (tetris.c:32-37, 63-95). */
module FilaCircular {
  import opened Pecas

  /** The logical contents of a ring buffer over s: the n cells that follow
      start, wrapping around at |s|, head first. */
  function RingView<T>(s: seq<T>, start: nat, n: nat): (r: seq<T>)
    requires |s| > 0
    ensures |r| == n
    decreases n
  {
    if n == 0 then [] else RingView(s, start, n - 1) + [s[(start + n - 1) % |s|]]
  }

  /** Below twice the modulus, % subtracts the modulus at most once. */
  lemma ModBelowTwice(x: int, m: int)
    requires 0 < m && 0 <= x < 2 * m
    ensures x % m == if x < m then x else x - m
  {
    if x >= m {
      assert x == m + (x - m);
    }
  }

  /** The i-th element of the logical view is the cell (start + i) % |s|. */
  lemma {:induction false} RingViewAt<T>(s: seq<T>, start: nat, n: nat, i: nat)
    requires |s| > 0 && i < n
    ensures RingView(s, start, n)[i] == s[(start + i) % |s|]
  {
    if i < n - 1 {
      RingViewAt(s, start, n - 1, i);
    }
  }

  /** Writing x at the tail cell (start + n) % |s| appends x to the view and
      leaves the n elements already there untouched. */
  lemma RingViewWrite<T>(s: seq<T>, start: nat, n: nat, x: T)
    requires start < |s| && n < |s|
    ensures RingView(s[(start + n) % |s| := x], start, n + 1) == RingView(s, start, n) + [x]
  {
    var t := s[(start + n) % |s| := x];
    ModBelowTwice(start + n, |s|);
    forall i | 0 <= i < n
      ensures RingView(t, start, n)[i] == RingView(s, start, n)[i]
    {
      RingViewAt(t, start, n, i);
      RingViewAt(s, start, n, i);
      ModBelowTwice(start + i, |s|);
    }
    assert RingView(t, start, n) == RingView(s, start, n);
  }

  /** Advancing the head by one cell, modulo |s|, drops the first element. */
  lemma RingViewAdvance<T>(s: seq<T>, start: nat, n: nat)
    requires start < |s| && 0 < n <= |s|
    ensures RingView(s, (start + 1) % |s|, n - 1) == RingView(s, start, n)[1..]
  {
    var next := (start + 1) % |s|;
    ModBelowTwice(start + 1, |s|);
    forall i | 0 <= i < n - 1
      ensures RingView(s, next, n - 1)[i] == RingView(s, start, n)[1..][i]
    {
      RingViewAt(s, next, n - 1, i);
      RingViewAt(s, start, n, i + 1);
      ModBelowTwice(next + i, |s|);
      ModBelowTwice(start + i + 1, |s|);
    }
  }

  /** RingViewAdvance and RingViewAt for the queue's own array, stated with
      QUEUE_CAP as the modulus. */
  lemma AvancarFrente(s: seq<Peca>, f: int, n: int)
    requires |s| == QUEUE_CAP && 0 <= f < QUEUE_CAP && 0 < n <= QUEUE_CAP
    ensures 0 <= (f + 1) % QUEUE_CAP < QUEUE_CAP
    ensures RingView(s, f, n)[0] == s[f]
    ensures RingView(s, (f + 1) % QUEUE_CAP, n - 1) == RingView(s, f, n)[1..]
  {
    ModBelowTwice(f + 1, QUEUE_CAP);
    assert (f + 1) % QUEUE_CAP == (f + 1) % |s|;
    RingViewAt(s, f, n, 0);
    RingViewAdvance(s, f, n);
  }

  /** RingViewWrite for the queue's own array, stated with QUEUE_CAP as the
      modulus. */
  lemma EscreverFim(s: seq<Peca>, f: int, n: int, p: Peca)
    requires |s| == QUEUE_CAP && 0 <= f < QUEUE_CAP && 0 <= n < QUEUE_CAP
    ensures 0 <= (f + n) % QUEUE_CAP < QUEUE_CAP
    ensures RingView(s[(f + n) % QUEUE_CAP := p], f, n + 1) == RingView(s, f, n) + [p]
  {
    ModBelowTwice(f + n, QUEUE_CAP);
    assert (f + n) % QUEUE_CAP == (f + n) % |s|;
    RingViewWrite(s, f, n, p);
  }

  /** Fila: the upcoming pieces, dados[(frente + i) % QUEUE_CAP] for i below tamanho. */
  class Fila {
    const dados: array<Peca>
    var frente: int
    var tamanho: int

    /** The bounds every queue operation keeps. */
    ghost predicate Valid()
      reads this
    {
      dados.Length == QUEUE_CAP && 0 <= frente < QUEUE_CAP && 0 <= tamanho <= QUEUE_CAP
    }

    /** The queue head to tail, in play order. */
    ghost function Contents(): seq<Peca>
      reads this, dados
      requires Valid()
    {
      RingView(dados[..], frente, tamanho)
    }

    /** A fresh buffer set up as initFila leaves it: head 0, count 0. */
    constructor ()
      ensures Valid() && fresh(dados)
      ensures frente == 0 && Contents() == []
    {
      dados := new Peca[QUEUE_CAP];
      frente := 0;
      tamanho := 0;
    }

    /** filaCheia */
    predicate Cheia()
      reads this, dados
      requires Valid()
      ensures Cheia() <==> |Contents()| == QUEUE_CAP
    {
      tamanho == QUEUE_CAP
    }

    /** filaVazia */
    predicate Vazia()
      reads this, dados
      requires Valid()
      ensures Vazia() <==> Contents() == []
    {
      tamanho == 0
    }

    /** enfileirar: a full queue is left as it was and the call fails; otherwise
        p is written at the tail cell and becomes the last element. */
    method Enfileirar(p: Peca) returns (ok: bool)
      requires Valid()
      modifies this, dados
      ensures Valid()
      ensures ok <==> |old(Contents())| < QUEUE_CAP
      ensures Contents() == if ok then old(Contents()) + [p] else old(Contents())
      ensures frente == old(frente)
      ensures !ok ==> dados[..] == old(dados[..]) && tamanho == old(tamanho)
    {
      if Cheia() {
        return false;
      }
      var pos := (frente + tamanho) % QUEUE_CAP;
      EscreverFim(dados[..], frente, tamanho, p);
      dados[pos] := p;
      tamanho := tamanho + 1;
      ok := true;
    }

    /** desenfileirar: an empty queue is left as it was and nothing comes out;
        otherwise the head comes out, frente advances modulo QUEUE_CAP and the
        rest keeps its order. */
    method Desenfileirar() returns (out: Option<Peca>)
      requires Valid()
      modifies this
      ensures Valid()
      ensures out.None? <==> old(Contents()) == []
      ensures out.None? ==> frente == old(frente) && tamanho == old(tamanho)
      ensures out.Some? ==> out.value == old(Contents())[0] && Contents() == old(Contents())[1..]
      ensures out.Some? ==> frente == (old(frente) + 1) % QUEUE_CAP
    {
      if Vazia() {
        return None;
      }
      AvancarFrente(dados[..], frente, tamanho);
      out := Some(dados[frente]);
      frente := (frente + 1) % QUEUE_CAP;
      tamanho := tamanho - 1;
    }

    /** The display loop of mostrarEstado: the pieces from head to tail. */
    method Vista() returns (vista: seq<Peca>)
      requires Valid()
      ensures vista == Contents()
    {
      vista := [];
      var i := 0;
      while i < tamanho
        invariant 0 <= i <= tamanho
        invariant vista == RingView(dados[..], frente, i)
      {
        var pos := (frente + i) % QUEUE_CAP;
        vista := vista + [dados[pos]];
        i := i + 1;
      }
    }
  }
}
