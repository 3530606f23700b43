# Piece queue and reserve stack (tetris.c), modelled in Dafny

`tetris.c` keeps the upcoming pieces of a Tetris-like game in a circular
queue `Fila` of capacity `QUEUE_CAP` = 5. It keeps a reserve in an array
stack `Pilha` of capacity `STACK_CAP` = 3. A counter `proximoId` gives every
new piece its id. The program has three actions:

- play the head of the queue (`jogarPeca`);
- move the head of the queue to the top of the stack (`reservarPeca`);
- use the top of the stack (`usarPecaReservada`).

After each action, `reporFilaComNovaPeca` creates one new piece and tries to
append it to the queue. At start-up, `main` fills the queue with `QUEUE_CAP`
pieces.

The model has five modules:

- `Pecas` (`pecas.dfy`): the capacities, the piece kinds `TIPOS`, the value
  type `Peca`, the draw of a kind (`TipoSorteado`) and the piece factory
  `Fabrica`. `Fabrica` is a class whose field `proximoId` is the id counter,
  and `GerarPeca` is its one mutating method.
- `FilaCircular` (`fila.dfy`): `RingView`, the logical view of a ring buffer
  over a sequence, with its lemmas. It also holds the class `Fila` over an
  `array<Peca>` with the fields `frente` and `tamanho`. Its methods write the
  array and the fields in place, as the C functions do. `Contents()` is the
  queue from head to tail, `RingView(dados[..], frente, tamanho)`.
- `PilhaReserva` (`pilha.dfy`): the class `Pilha` over an `array<Peca>` with
  the field `topo`. `Contents()` is `dados[..topo]`, base to top.
- `Acoes` (`acoes.dfy`): the actions and the replenish step as pure
  transitions over an abstract `Estado`. `Estado` holds the queue head to
  tail, the stack base to top and the counter. The module also holds the
  invariant of reachable states and the lemmas about one round and about
  runs of rounds.
- `Sessao` (`sessao.dfy`): the class `Jogo`. It owns one `Fila`, one `Pilha`
  and one `Fabrica`. Its methods are the C actions and call the container
  methods. Each method's `ensures` ties the new abstract state and the
  reported outcome to the matching `Acoes` function of the old state.

The messages that the C actions print become values. Each action returns a
`Resultado` constructor in place of its message, and the replenish step
returns a `Reposicao`. The value `r: nat` stands for what `rand()` returned.
The kind drawn is `TIPOS[r % 4]`; `r` is never negative, so Dafny's `%`
agrees with C's there. `frente + tamanho` and `frente + 1` are never negative
either, so the ring-buffer `%` also agrees with C.

## Model

| member | source | states |
|---|---|---|
| `Pecas.TipoSorteado` | tetris.c:55-58 | the kind drawn is always one of 'I', 'O', 'T', 'L' |
| `Pecas.TipoSorteadoCobre` | tetris.c:55-58 | every one of the four kinds is produced by some value of `rand()` |
| `Pecas.Fabrica.constructor` | tetris.c:46 | the id counter starts at 0 |
| `Pecas.Fabrica.GerarPeca` | tetris.c:54-61 | the new piece's id is the counter's prior value, its kind is the drawn one, and the counter goes up by exactly 1 |
| `FilaCircular.RingView` | tetris.c:135-137 | the logical view of `n` cells from a head index has exactly `n` elements |
| `FilaCircular.RingViewAt` | tetris.c:135-137 | element `i` of the logical view is the cell `(frente + i) % QUEUE_CAP`, as the display loop reads it |
| `FilaCircular.RingViewWrite` | tetris.c:82-84 | writing at `(frente + tamanho) % cap` appends to the view and leaves the existing elements untouched |
| `FilaCircular.RingViewAdvance` | tetris.c:91-93 | advancing `frente` by one modulo the capacity and decrementing the count drops exactly the head |
| `FilaCircular.AvancarFrente` | tetris.c:91-93 | for the queue's own array, the advanced head stays in `0..QUEUE_CAP-1`, the old head is the cell at `frente`, and the rest of the view is the old view without its head |
| `FilaCircular.EscreverFim` | tetris.c:82-84 | for the queue's own array, the tail cell is in range and writing there appends the piece to the view |
| `FilaCircular.Fila.constructor` | tetris.c:64-67 | a new queue has head 0, is empty and satisfies the bounds |
| `FilaCircular.Fila.Cheia` | tetris.c:70-72 | true exactly when the queue holds `QUEUE_CAP` pieces |
| `FilaCircular.Fila.Vazia` | tetris.c:75-77 | true exactly when the queue holds no piece |
| `FilaCircular.Fila.Enfileirar` | tetris.c:80-86 | fails with array, head and count unchanged exactly when full; otherwise the contents become old contents plus `p` at the tail and `frente` is unchanged; the bounds are preserved |
| `FilaCircular.Fila.Desenfileirar` | tetris.c:89-95 | fails with nothing changed exactly when empty; otherwise returns the old head, the contents become the old contents without their head, and `frente` advances modulo `QUEUE_CAP`; the bounds are preserved |
| `FilaCircular.Fila.Vista` | tetris.c:130-139 | the display loop yields exactly the queue from head to tail |
| `PilhaReserva.Pilha.constructor` | tetris.c:98-100 | a new stack is empty and satisfies `0 <= topo <= STACK_CAP` |
| `PilhaReserva.Pilha.Cheia` | tetris.c:102-104 | true exactly when the stack holds `STACK_CAP` pieces |
| `PilhaReserva.Pilha.Vazia` | tetris.c:106-108 | true exactly when the stack holds no piece |
| `PilhaReserva.Pilha.Empilhar` | tetris.c:111-116 | fails with nothing changed exactly when full; otherwise the contents become old contents plus `x` on top; the bounds are preserved |
| `PilhaReserva.Pilha.Desempilhar` | tetris.c:119-124 | fails with nothing changed exactly when empty; otherwise returns the piece pushed last, and the remaining contents plus that piece are the old contents (LIFO) |
| `PilhaReserva.Pilha.TopoBase` | tetris.c:142-150 | the display loop yields the stack reversed, top first, which is the order of successive pops |
| `Acoes.Jogar` | tetris.c:155-162 | a play succeeds exactly when the queue is non-empty; the reported piece followed by the new queue is the old queue; the stack and counter are untouched; an empty queue is reported and nothing changes |
| `Acoes.Reservar` | tetris.c:164-181 | a full stack is reported and nothing changes; an empty queue is reported and nothing changes; otherwise the queue head moves to the stack top; the discard branch is never taken; stack-then-queue holds the same pieces in the same order before and after |
| `Acoes.Usar` | tetris.c:183-190 | a use succeeds exactly when the stack is non-empty; the new stack plus the reported piece is the old stack; the queue and counter are untouched |
| `Acoes.Repor` | tetris.c:193-200 | exactly one piece is created, with the counter's value as id, and the counter goes up by 1; it is appended exactly when the queue is not full, otherwise it is dropped and the queue is unchanged |
| `Acoes.Passo` | tetris.c:239-256 | every menu round creates exactly one piece, with the counter's value before the round as its id, whether the action succeeded or not |
| `Acoes.PreencherConteudo` | tetris.c:212-215 | after the fill loop over `k` draws, the queue holds piece `k` with id `k` and kind of draw `k`, in order; the stack is empty and the counter is `k` |
| `Acoes.PreencherCheia` | tetris.c:209-215 | after the fill loop the queue is full with ids 0 to 4 in order, the stack is empty and the invariant holds |
| `Acoes.JogarPreservaInvariante` | tetris.c:155-162 | a play keeps both bounds, the id order and ids below the counter |
| `Acoes.ReservarPreservaInvariante` | tetris.c:164-181 | a reservation keeps the invariant |
| `Acoes.UsarPreservaInvariante` | tetris.c:183-190 | a use keeps the invariant |
| `Acoes.ReporPreservaInvariante` | tetris.c:193-200 | the replenish step keeps the invariant: the new piece is newer than every piece held |
| `Acoes.PassoPreservaInvariante` | tetris.c:239-256 | every menu round keeps the queue length within `QUEUE_CAP`, the stack length within `STACK_CAP`, strictly increasing ids from the stack base to the queue tail, and every id below the counter |
| `Acoes.PassoMantemFilaCheia` | tetris.c:192 | a full queue is full again after any action followed by the replenish step |
| `Acoes.FilaPilhaDisjuntas` | tetris.c:164-181 | in a reachable state no piece is in both the queue and the stack |
| `Acoes.RodarPreservaInvariante` | tetris.c:221-270 | the invariant holds after any number of menu rounds |
| `Acoes.RodarMantemFilaCheia` | tetris.c:192 | once full, the queue is full after any number of menu rounds |
| `Acoes.CriadasIds` | tetris.c:54-61 | the k-th piece created in a run has id counter + k, whether kept or dropped, so created ids strictly increase and never repeat; after n rounds the counter has gone up by n |
| `Acoes.PassoSoTrazNova` | tetris.c:193-200 | a round brings in no piece other than the one it creates |
| `Acoes.RodarSoTrazNovas` | tetris.c:193-200 | after any run, every piece held was held at the start or has an id at least the starting counter |
| `Acoes.SemRessurreicao` | tetris.c:10 | a piece removed by a round is in neither container after any later rounds |
| `Acoes.JogarCheia` | tetris.c:242-243 | on a full queue a round of option 1 plays the head and appends the new piece's id |
| `Acoes.ReservarComEspaco` | tetris.c:248-249 | on a full queue with room on the stack, a round of option 2 moves the head's id to the stack top and appends the new id to the queue |
| `Acoes.ReservarSemEspaco` | tetris.c:165-167 | with the stack full, a round of option 2 is refused, changes neither container and drops the new piece |
| `Acoes.UsarCheia` | tetris.c:254-255 | on a full queue a round of option 3 uses the stack top, leaves the queue as it was and drops the new piece |
| `Acoes.CenarioJogar` | tetris.c:242-243 | from the filled queue (ids 0-4) a play returns piece 0 and the queue becomes ids 1-5 |
| `Acoes.CenarioReservar` | tetris.c:248-249 | then three reservations leave the stack with ids 1, 2, 3 and the queue with ids 4-8 |
| `Acoes.CenarioReservaCheia` | tetris.c:164-168 | then a fourth reservation is refused with both containers untouched and new piece 9 dropped; a use then returns piece 3 |
| `Acoes.CenarioUsarSemReserva` | tetris.c:183-190 | on a fresh session a use reports an empty reserve, leaves the queue unchanged and drops new piece 5 |
| `Sessao.EncherFila` | tetris.c:212-215 | the fill loop leaves the queue with the `Preencher` contents and the counter at `QUEUE_CAP` |
| `Sessao.Jogo.constructor` | tetris.c:207-215 | a new session is the abstract state `Preencher(rs)`: the queue full with ids 0-4 and the stack empty; the invariant holds |
| `Sessao.Jogo.JogarPeca` | tetris.c:155-162 | the new abstract state and the outcome are `Jogar` of the old state; the invariant is kept |
| `Sessao.Jogo.ReservarPeca` | tetris.c:164-181 | the new abstract state and the outcome are `Reservar` of the old state; the invariant is kept |
| `Sessao.Jogo.UsarPecaReservada` | tetris.c:183-190 | the new abstract state and the outcome are `Usar` of the old state; the invariant is kept |
| `Sessao.Jogo.ReporFilaComNovaPeca` | tetris.c:193-200 | the new abstract state and the outcome are `Repor` of the old state; the invariant is kept |
| `Sessao.Jogo.ExecutarOpcao` | tetris.c:239-256 | options 1-3 of the menu: the state and both outcomes are `Passo` of the old state, and a full queue stays full |

## Left out

- The menu loop, `scanf`, `limparEntrada`, and options 0 and default (tetris.c:48-51, 217-237, 258-270) are interactive input and output. `ExecutarOpcao` models one round of options 1-3.
- The `printf` output of `mostrarEstado` and of the actions is text output. The two display loops are kept as `Fila.Vista` and `Pilha.TopoBase`, and the messages are kept as `Resultado` and `Reposicao` values.
- `srand(time(NULL))` and `rand()` are a clock and a foreign random source. Each draw is a parameter `r`, and the fill loop takes one draw per piece in `rs`.
- C `int` overflow of `proximoId`, `frente`, `tamanho` and `topo` is not modelled. `proximoId` is a `nat`, and the other three stay within their small bounds.
- `initFila` and `initPilha` reset a struct that already exists. Here they are constructors that also allocate the array. The C array cells start uninitialised, while Dafny gives them a default piece that the logical view never shows.
- `desenfileirar` and `desempilhar` return 1 or 0 and write through an `out` pointer. The model returns `Option<Peca>` (`Some` for 1, `None` for 0). On failure the C caller's variable keeps its old contents, which the model does not represent.
- `Sessao.Jogo.JogarPeca` and the other `Jogo` methods take the whole session rather than only the container they touch. The `modifies` clauses still name only the objects each C function changes.
