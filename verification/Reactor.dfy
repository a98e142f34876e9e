/**
 * The per-connection actor protocol: the reactor thread (src/net/EpollReactor.cpp), the worker pool
 * (src/ThreadPool.hpp), the two queues between them and the wakeup pipe, as one transition system.
 *
 * A label is one atomic action of one thread; a run is any interleaving of enabled labels. Each action
 * is the code between two points where another thread can look: a critical section, a pipe operation,
 * or a stretch of reactor code that touches only reactor-owned state.
 *
 * Generations are numbered from 0, so that generation g is `conns[g]`; the code numbers them from 1.
 * A connection keeps its record after it is closed, as history.
 */
module Reactor {
  import opened ByteStrings
  import opened RespParser
  import opened Framing
  import opened Sequences

  type Fd = int

  const MAX_RECV_BYTES: nat := 65536

  datatype Answer = Answer(args: Command, reply: bytes)

  datatype Conn = Conn(
    fd: Fd,
    open: bool,
    buf: bytes,              // recv_buf_
    queue: seq<Command>,     // command_queue_
    processing: bool,        // processing_
    unsent: bytes,           // send_buf_ from send_offset_ on
    armed: bool,             // EPOLLOUT is in the interest set
    received: seq<bytes>,    // history: what each read event brought in
    accepted: seq<Command>,  // history: commands pushed on the queue
    done: seq<Answer>,       // history: commands executed, each with the reply dispatch produced
    sent: bytes              // history: bytes the kernel took
  )

  datatype Task = Task(fd: Fd, gen: nat, args: Command)
  datatype Write = Write(fd: Fd, gen: nat, data: bytes)
  datatype Completion = Completion(fd: Fd, gen: nat)

  datatype Worker =
    | Idle
    | Taken(task: Task)                          // popped from the pool, not yet executed
    | Replied(fd: Fd, gen: nat, reply: bytes)    // executed, about to enter send
    | WritePushed(fd: Fd, gen: nat)              // in send, past the queue, before the pipe write
    | WritePoked(fd: Fd, gen: nat)               // about to enter notify_command_complete
    | CompletionPushed                           // past the queue, before the pipe write

  /** Where the reactor thread is. `last` marks the drain at the end of a loop iteration. */
  datatype Phase =
    | Polling
    | Handling
    | Draining
    | WritesDue(last: bool)
    | Delivering(last: bool)
    | CompletionsDue(last: bool)
    | Completing(last: bool)

  datatype State = State(
    conns: seq<Conn>,
    fds: map<Fd, nat>,               // conns_: which generation is live on a descriptor
    tasks: seq<Task>,                // the pool's FIFO
    workers: seq<Worker>,
    writes: seq<Write>,              // pending_writes_
    completions: seq<Completion>,    // completed_commands_
    writeBatch: seq<Write>,          // swapped out by process_pending_writes
    completionBatch: seq<Completion>,
    pipe: nat,                       // bytes in the wakeup pipe
    phase: Phase
  )

  datatype Label =
    | Wake
    | Accept(fd: Fd)
    | Read(fd: Fd, chunk: bytes)
    | Writable(fd: Fd, taken: nat, fatal: bool)
    | Close(fd: Fd)
    | PipeReady
    | ReadPipe(n: nat)
    | PipeEmpty
    | EndOfEvents
    | SwapWrites
    | Deliver(taken: nat, fatal: bool)
    | WritesDone
    | SwapCompletions
    | Acknowledge
    | CompletionsDone
    | Take(w: nat)
    | Execute(w: nat, reply: bytes)
    | PushWrite(w: nat)
    | PokeWrite(w: nat, dropped: bool)
    | PushCompletion(w: nat)
    | PokeCompletion(w: nat, dropped: bool)

  // ---- actions on one connection ----

  function NewConn(fd: Fd): Conn { Conn(fd, true, [], [], false, [], false, [], [], [], []) }

  function NonEmpty(c: Command): seq<Command> { if c == [] then [] else [c] }

  /** `flush`, when the kernel takes `taken` bytes before it is done, would block or fails. */
  function Flush(c: Conn, taken: nat): Conn
    requires taken <= |c.unsent|
  {
    c.(sent := c.sent + c.unsent[..taken], unsent := c.unsent[taken..])
  }

  function CloseConn(s: State, g: nat): State
    requires g < |s.conns|
  {
    var c := s.conns[g];
    s.(conns := s.conns[g := c.(open := false, queue := [], unsent := [])], fds := s.fds - {c.fd})
  }

  /** `dispatch_next_command`. */
  function Dispatch(s: State, g: nat): State
    requires g < |s.conns|
  {
    var c := s.conns[g];
    if c.queue == [] then s
    else s.(conns := s.conns[g := c.(processing := true, queue := c.queue[1..])],
            tasks := s.tasks + [Task(c.fd, g, c.queue[0])])
  }

  /** `handle_read` on a live connection, once the socket has been read until it would block. */
  function ReadInto(s: State, g: nat, chunk: bytes): State
    requires g < |s.conns|
  {
    var c := s.conns[g];
    match Receive(Open([], c.buf), chunk, MAX_RECV_BYTES)
    case TooLong => CloseConn(s, g)
    case Malformed => CloseConn(s, g)
    case Open(cmds, buf) =>
      var added := Collect(cmds, NonEmpty);
      var c' := c.(buf := buf, queue := c.queue + added,
                   received := c.received + [chunk], accepted := c.accepted + added);
      var s' := s.(conns := s.conns[g := c']);
      if c'.queue != [] && !c'.processing then Dispatch(s', g) else s'
  }

  /** `handle_write` on a live connection. */
  function WriteOut(s: State, g: nat, taken: nat, fatal: bool): State
    requires g < |s.conns| && taken <= |s.conns[g].unsent|
  {
    var c := Flush(s.conns[g], taken);
    if c.unsent == [] then s.(conns := s.conns[g := c.(armed := false)])
    else if fatal then CloseConn(s.(conns := s.conns[g := c]), g)
    else s.(conns := s.conns[g := c])
  }

  /** `get_conn(fd)` together with the generation check. */
  predicate Reaches(s: State, fd: Fd, g: nat) {
    fd in s.fds && s.fds[fd] == g && g < |s.conns|
  }

  /** One turn of the loop in `process_pending_writes` for a write that reaches its connection. */
  function DeliverTo(s: State, g: nat, data: bytes, taken: nat, fatal: bool): State
    requires g < |s.conns| && taken <= |s.conns[g].unsent + data|
  {
    var c := Flush(s.conns[g].(unsent := s.conns[g].unsent + data), taken);
    if c.unsent == [] then s.(conns := s.conns[g := c])
    else if fatal then CloseConn(s.(conns := s.conns[g := c]), g)
    else s.(conns := s.conns[g := c.(armed := true)])
  }

  /** One turn of the loop in `process_completed_commands` for a completion that reaches its connection. */
  function CompleteAt(s: State, g: nat): State
    requires g < |s.conns|
  {
    Dispatch(s.(conns := s.conns[g := s.conns[g].(processing := false)]), g)
  }

  // ---- the transition relation ----

  predicate Live(s: State, fd: Fd) { fd in s.fds && s.fds[fd] < |s.conns| }

  predicate Enabled(s: State, l: Label) {
    match l
    case Wake => s.phase == Polling
    case Accept(fd) => s.phase == Handling && fd !in s.fds
    case Read(fd, chunk) => s.phase == Handling && Live(s, fd)
    case Writable(fd, taken, fatal) => s.phase == Handling && Live(s, fd) && taken <= |s.conns[s.fds[fd]].unsent|
    case Close(fd) => (s.phase == Handling || s.phase == Polling) && Live(s, fd)
    case PipeReady => s.phase == Handling && s.pipe > 0
    case ReadPipe(n) => s.phase == Draining && 0 < n <= s.pipe
    case PipeEmpty => s.phase == Draining && s.pipe == 0
    case EndOfEvents => s.phase == Handling
    case SwapWrites => s.phase.WritesDue?
    case Deliver(taken, fatal) =>
      && s.phase.Delivering? && s.writeBatch != []
      && (Reaches(s, s.writeBatch[0].fd, s.writeBatch[0].gen) ==>
            taken <= |s.conns[s.writeBatch[0].gen].unsent + s.writeBatch[0].data|)
    case WritesDone => s.phase.Delivering? && s.writeBatch == []
    case SwapCompletions => s.phase.CompletionsDue?
    case Acknowledge => s.phase.Completing? && s.completionBatch != []
    case CompletionsDone => s.phase.Completing? && s.completionBatch == []
    case Take(w) => w < |s.workers| && s.workers[w] == Idle && s.tasks != []
    case Execute(w, reply) =>
      w < |s.workers| && s.workers[w].Taken? && s.workers[w].task.gen < |s.conns|
    case PushWrite(w) => w < |s.workers| && s.workers[w].Replied?
    case PokeWrite(w, dropped) => w < |s.workers| && s.workers[w].WritePushed? && (dropped ==> s.pipe > 0)
    case PushCompletion(w) => w < |s.workers| && s.workers[w].WritePoked?
    case PokeCompletion(w, dropped) => w < |s.workers| && s.workers[w].CompletionPushed? && (dropped ==> s.pipe > 0)
  }

  function Step(s: State, l: Label): State
    requires Enabled(s, l)
  {
    match l
    case Wake => s.(phase := Handling)
    case Accept(fd) =>
      s.(conns := s.conns + [NewConn(fd)],
         fds := s.fds[fd := |s.conns|])
    case Read(fd, chunk) => ReadInto(s, s.fds[fd], chunk)
    case Writable(fd, taken, fatal) => WriteOut(s, s.fds[fd], taken, fatal)
    case Close(fd) => CloseConn(s, s.fds[fd])
    case PipeReady => s.(phase := Draining)
    case ReadPipe(n) => s.(pipe := s.pipe - n)
    case PipeEmpty => s.(phase := WritesDue(false))
    case EndOfEvents => s.(phase := WritesDue(true))
    case SwapWrites => s.(writeBatch := s.writes, writes := [], phase := Delivering(s.phase.last))
    case Deliver(taken, fatal) =>
      var w := s.writeBatch[0];
      var s' := s.(writeBatch := s.writeBatch[1..]);
      if Reaches(s, w.fd, w.gen) then DeliverTo(s', w.gen, w.data, taken, fatal) else s'
    case WritesDone => s.(phase := CompletionsDue(s.phase.last))
    case SwapCompletions =>
      s.(completionBatch := s.completions, completions := [], phase := Completing(s.phase.last))
    case Acknowledge =>
      var c := s.completionBatch[0];
      var s' := s.(completionBatch := s.completionBatch[1..]);
      if Reaches(s, c.fd, c.gen) then CompleteAt(s', c.gen) else s'
    case CompletionsDone => s.(phase := if s.phase.last then Polling else Handling)
    case Take(w) => s.(workers := s.workers[w := Taken(s.tasks[0])], tasks := s.tasks[1..])
    case Execute(w, reply) =>
      var t := s.workers[w].task;
      var c := s.conns[t.gen];
      s.(workers := s.workers[w := Replied(t.fd, t.gen, reply)],
         conns := s.conns[t.gen := c.(done := c.done + [Answer(t.args, reply)])])
    case PushWrite(w) =>
      var r := s.workers[w];
      s.(workers := s.workers[w := WritePushed(r.fd, r.gen)], writes := s.writes + [Write(r.fd, r.gen, r.reply)])
    case PokeWrite(w, dropped) =>
      var r := s.workers[w];
      s.(workers := s.workers[w := WritePoked(r.fd, r.gen)], pipe := if dropped then s.pipe else s.pipe + 1)
    case PushCompletion(w) =>
      var r := s.workers[w];
      s.(workers := s.workers[w := CompletionPushed], completions := s.completions + [Completion(r.fd, r.gen)])
    case PokeCompletion(w, dropped) =>
      s.(workers := s.workers[w := Idle], pipe := if dropped then s.pipe else s.pipe + 1)
  }

  /** A server with `n` worker threads that has not yet accepted anything. */
  function Init(n: nat): State {
    State([], map[], [], seq(n, i => Idle), [], [], [], [], 0, Polling)
  }

  /** `run` is a sequence of labels, each enabled where it happens. */
  predicate IsRun(s: State, run: seq<Label>)
    decreases |run|
  {
    run == [] || (Enabled(s, run[0]) && IsRun(Step(s, run[0]), run[1..]))
  }

  function After(s: State, run: seq<Label>): State
    requires IsRun(s, run)
    decreases |run|
  {
    if run == [] then s else After(Step(s, run[0]), run[1..])
  }

  // ---- single labels, spelled out ----

  lemma SwapWritesStep(s: State)
    requires s.phase.WritesDue?
    ensures Enabled(s, SwapWrites)
    ensures Step(s, SwapWrites) == s.(writeBatch := s.writes, writes := [], phase := Delivering(s.phase.last))
  {
  }

  lemma DeliverStep(s: State, taken: nat, fatal: bool)
    requires s.phase.Delivering? && s.writeBatch != []
    requires Reaches(s, s.writeBatch[0].fd, s.writeBatch[0].gen) ==>
               taken <= |s.conns[s.writeBatch[0].gen].unsent + s.writeBatch[0].data|
    ensures Enabled(s, Deliver(taken, fatal))
    ensures
      var w, popped := s.writeBatch[0], s.(writeBatch := s.writeBatch[1..]);
      Step(s, Deliver(taken, fatal))
      == if Reaches(s, w.fd, w.gen) then DeliverTo(popped, w.gen, w.data, taken, fatal) else popped
  {
  }

  lemma WritesDoneStep(s: State)
    requires s.phase.Delivering? && s.writeBatch == []
    ensures Enabled(s, WritesDone) && Step(s, WritesDone) == s.(phase := CompletionsDue(s.phase.last))
  {
  }

  lemma SwapCompletionsStep(s: State)
    requires s.phase.CompletionsDue?
    ensures Enabled(s, SwapCompletions)
    ensures Step(s, SwapCompletions)
         == s.(completionBatch := s.completions, completions := [], phase := Completing(s.phase.last))
  {
  }

  lemma AcknowledgeStep(s: State)
    requires s.phase.Completing? && s.completionBatch != []
    ensures Enabled(s, Acknowledge)
    ensures
      var c, popped := s.completionBatch[0], s.(completionBatch := s.completionBatch[1..]);
      Step(s, Acknowledge) == if Reaches(s, c.fd, c.gen) then CompleteAt(popped, c.gen) else popped
  {
  }

  lemma CompletionsDoneStep(s: State)
    requires s.phase.Completing? && s.completionBatch == []
    ensures Enabled(s, CompletionsDone)
    ensures Step(s, CompletionsDone) == s.(phase := if s.phase.last then Polling else Handling)
  {
  }

  lemma AcceptStep(s: State, fd: Fd)
    requires Enabled(s, Accept(fd))
    ensures Step(s, Accept(fd)) == s.(conns := s.conns + [NewConn(fd)], fds := s.fds[fd := |s.conns|])
  {
  }

  /** The stage a worker goes to next, and what the step does besides. */
  lemma WorkerStep(s: State, l: Label)
    requires Enabled(s, l) && (l.PushWrite? || l.PokeWrite? || l.PushCompletion? || l.PokeCompletion?)
    ensures l.w < |s.workers| && Step(s, l).workers == s.workers[l.w := Step(s, l).workers[l.w]]
    ensures
      var r, s' := s.workers[l.w], Step(s, l);
      match l
      case PushWrite(w) =>
        && r.Replied?
        && s' == s.(workers := s.workers[w := WritePushed(r.fd, r.gen)],
                    writes := s.writes + [Write(r.fd, r.gen, r.reply)])
      case PokeWrite(w, dropped) =>
        r.WritePushed? && s' == s.(workers := s.workers[w := WritePoked(r.fd, r.gen)], pipe := s'.pipe)
      case PushCompletion(w) =>
        && r.WritePoked?
        && s' == s.(workers := s.workers[w := CompletionPushed],
                    completions := s.completions + [Completion(r.fd, r.gen)])
      case PokeCompletion(w, dropped) =>
        r.CompletionPushed? && s' == s.(workers := s.workers[w := Idle], pipe := s'.pipe)
      case _ => true
  {
  }
}
