/**
 * One connection's view of the reactor protocol: what the shared queues and the workers hold for one
 * generation, and the invariant that ties it to the connection's history.
 */
module ReactorViews {
  import opened ByteStrings
  import opened RespParser
  import opened Framing
  import opened Sequences
  import opened Reactor

  // ---- what each element of a queue holds for generation g ----

  function TaskFor(g: nat): Task -> seq<Command> { (t: Task) => if t.gen == g then [t.args] else [] }

  function TakenFor(g: nat): Worker -> seq<Command> {
    (w: Worker) => if w.Taken? && w.task.gen == g then [w.task.args] else []
  }

  function RepliedFor(g: nat): Worker -> seq<bytes> {
    (w: Worker) => if w.Replied? && w.gen == g then [w.reply] else []
  }

  function PastFor(g: nat): Worker -> seq<bool> {
    (w: Worker) => if (w.WritePushed? || w.WritePoked?) && w.gen == g then [true] else []
  }

  function AckFor(g: nat): Completion -> seq<bool> { (c: Completion) => if c.gen == g then [true] else [] }

  function DataFor(g: nat): Write -> bytes { (w: Write) => if w.gen == g then w.data else [] }

  datatype View = View(
    conn: Conn,
    tasks: seq<Command>,     // its commands waiting in the pool
    taken: seq<Command>,     // its commands popped by a worker, not yet executed
    replied: seq<bytes>,     // its replies computed, not yet on the write queue
    past: nat,               // workers past the write queue that still owe its completion
    acks: nat,               // its completions on the queue or in the swapped-out batch
    pending: bytes           // its bytes in the swapped-out batch and on the queue, in order
  )

  function ViewOf(s: State, g: nat): View
    requires g < |s.conns|
  {
    View(s.conns[g],
         Collect(s.tasks, TaskFor(g)),
         Collect(s.workers, TakenFor(g)),
         Collect(s.workers, RepliedFor(g)),
         |Collect(s.workers, PastFor(g))|,
         |Collect(s.completionBatch, AckFor(g))| + |Collect(s.completions, AckFor(g))|,
         Collect(s.writeBatch, DataFor(g)) + Collect(s.writes, DataFor(g)))
  }

  // ---- the invariant of a view ----

  function ArgsOf(a: Answer): seq<Command> { [a.args] }

  function ReplyOf(a: Answer): bytes { a.reply }

  /** The commands executed for a connection, in order. */
  function Executed(c: Conn): seq<Command> { Collect(c.done, ArgsOf) }

  /** Their replies, one after the other. */
  function Replies(c: Conn): bytes { Collect(c.done, ReplyOf) }

  /** How many times a command of this connection is somewhere between dispatch and completion. */
  function Tokens(v: View): nat {
    |v.tasks| + |v.taken| + |v.replied| + v.past + v.acks
  }

  /** Every accepted command is executed, in flight or queued, in arrival order, each exactly once. */
  predicate CommandsInOrder(v: View) {
    if v.conn.open then v.conn.accepted == Executed(v.conn) + v.tasks + v.taken + v.conn.queue
    else Executed(v.conn) + v.tasks + v.taken <= v.conn.accepted
  }

  /** Every reply byte is sent, buffered, pending or still with its worker, in execution order. */
  predicate RepliesInOrder(v: View) {
    if v.conn.open then Replies(v.conn) == v.conn.sent + v.conn.unsent + v.pending + Collect(v.replied, Same)
    else v.conn.sent <= Replies(v.conn)
  }

  predicate SingleFlight(v: View) {
    if v.conn.open then Tokens(v) == (if v.conn.processing then 1 else 0) && (!v.conn.processing ==> v.conn.queue == [])
    else Tokens(v) <= 1
  }

  /** Buffered bytes never wait without EPOLLOUT being armed for them. */
  predicate NothingStranded(v: View) {
    v.conn.open && v.conn.unsent != [] ==> v.conn.armed
  }

  predicate Good(v: View) {
    CommandsInOrder(v) && RepliesInOrder(v) && SingleFlight(v) && NothingStranded(v)
  }

  // ---- each action on a view keeps the invariant ----

  lemma ReadKeeps(v: View, added: seq<Command>, v': View)
    requires Good(v) && v.conn.open
    requires v' == v.(conn := v'.conn)
    requires v'.conn == v.conn.(buf := v'.conn.buf, received := v'.conn.received,
                                queue := v.conn.queue + added, accepted := v.conn.accepted + added)
    ensures CommandsInOrder(v') && RepliesInOrder(v') && NothingStranded(v')
    ensures v'.conn.queue == [] || v'.conn.processing ==> Good(v')
  {
    assert Executed(v.conn) + v.tasks + v.taken + v.conn.queue + added
        == Executed(v.conn) + v.tasks + v.taken + (v.conn.queue + added);
  }

  lemma DispatchKeeps(v: View, v': View)
    requires v.conn.open && Tokens(v) == 0 && v.conn.queue != []
    requires CommandsInOrder(v) && RepliesInOrder(v) && NothingStranded(v)
    requires v' == v.(conn := v.conn.(processing := true, queue := v.conn.queue[1..]),
                      tasks := v.tasks + [v.conn.queue[0]])
    ensures Good(v')
  {
    assert v.conn.queue == [v.conn.queue[0]] + v.conn.queue[1..];
  }

  lemma CloseKeeps(v: View, v': View)
    requires CommandsInOrder(v) && RepliesInOrder(v) && SingleFlight(v) && v.conn.open
    requires v' == v.(conn := v.conn.(open := false, queue := [], unsent := []))
    ensures Good(v')
  {
    assert v.conn.sent + v.conn.unsent + v.pending + Collect(v.replied, Same)
        == v.conn.sent + (v.conn.unsent + v.pending + Collect(v.replied, Same));
  }

  lemma FlushKeeps(v: View, taken: nat, v': View)
    requires CommandsInOrder(v) && RepliesInOrder(v) && SingleFlight(v) && v.conn.open && taken <= |v.conn.unsent|
    requires v' == v.(conn := Flush(v.conn, taken))
    ensures CommandsInOrder(v') && RepliesInOrder(v') && SingleFlight(v')
  {
    assert v.conn.unsent == v.conn.unsent[..taken] + v.conn.unsent[taken..];
    assert v.conn.sent + v.conn.unsent == v'.conn.sent + v'.conn.unsent;
  }

  /** The head of the pending bytes moves to the send buffer: the order of all bytes is unchanged. */
  lemma BufferKeeps(v: View, data: bytes, v': View)
    requires Good(v) && v.conn.open
    requires v.pending == data + v'.pending
    requires v' == v.(conn := v.conn.(unsent := v.conn.unsent + data), pending := v'.pending)
    ensures CommandsInOrder(v') && RepliesInOrder(v') && SingleFlight(v')
  {
    assert v.conn.sent + v.conn.unsent + (data + v'.pending) == v.conn.sent + (v.conn.unsent + data) + v'.pending;
  }

  lemma AckKeeps(v: View, v': View)
    requires Good(v) && v.conn.open && v.acks > 0
    requires v' == v.(conn := v.conn.(processing := false), acks := v.acks - 1)
    ensures Tokens(v') == 0
    ensures CommandsInOrder(v') && RepliesInOrder(v') && NothingStranded(v')
  {
  }

  lemma TakeKeeps(v: View, v': View)
    requires Good(v) && v.tasks != []
    requires v' == v.(tasks := v.tasks[1..], taken := [v.tasks[0]])
    ensures Good(v')
  {
    assert v.tasks == [v.tasks[0]];
    assert Executed(v.conn) + v.tasks + v.taken == Executed(v.conn) + v'.tasks + v'.taken;
  }

  lemma ExecuteKeeps(v: View, reply: bytes, v': View)
    requires Good(v) && |v.taken| == 1
    requires v' == v.(conn := v.conn.(done := v.conn.done + [Answer(v.taken[0], reply)]),
                      taken := [], replied := [reply])
    ensures Good(v')
  {
    var a := Answer(v.taken[0], reply);
    CollectPush(v.conn.done, a, ArgsOf);
    CollectPush(v.conn.done, a, ReplyOf);
    assert v.tasks == [] && v.taken == [a.args] && v.replied == [];
    assert Executed(v'.conn) + v'.tasks + v'.taken == Executed(v.conn) + v.tasks + v.taken;
    CollectOne(reply, Same);
    CollectNothing<bytes, byte>([], Same);
  }

  lemma PushWriteKeeps(v: View, v': View)
    requires Good(v) && |v.replied| == 1
    requires v' == v.(replied := [], past := v.past + 1, pending := v.pending + v.replied[0])
    ensures Good(v')
  {
    assert v.replied == [v.replied[0]];
    CollectOne(v.replied[0], Same);
    CollectNothing<bytes, byte>([], Same);
  }

  lemma PushCompletionKeeps(v: View, v': View)
    requires Good(v) && v.past > 0
    requires v' == v.(past := v.past - 1, acks := v.acks + 1)
    ensures Good(v')
  {
  }
}
