/** What the reactor protocol guarantees over whole runs. */
module ReactorTheorems {
  import opened ByteStrings
  import opened RespParser
  import opened Framing
  import opened Pipelines
  import opened Sequences
  import opened Reactor
  import opened ReactorViews
  import opened ReactorSafety

  lemma ReachableInv(n: nat, run: seq<Label>)
    requires IsRun(Init(n), run)
    ensures Inv(After(Init(n), run))
  {
    InitInv(n);
    RunKeepsInv(Init(n), run);
  }

  // ---- order ----

  /**
   * In every run and for every connection, open or closed: the bytes the client got are a prefix of
   * the replies in execution order, and the commands executed are a prefix of those accepted, each
   * once and in arrival order. This holds even when a completion overtakes its own reply.
   */
  lemma ClientSeesOrderedReplies(n: nat, run: seq<Label>, g: nat)
    requires IsRun(Init(n), run) && g < |After(Init(n), run).conns|
    ensures
      var c := After(Init(n), run).conns[g];
      c.sent <= Replies(c) && Executed(c) <= c.accepted
  {
    hide Collect, InboxMatches, Shape;
    ReachableInv(n, run);
    var s := After(Init(n), run);
    assert GoodAt(s, g);
    var v := ViewOf(s, g);
    if v.conn.open {
      assert v.conn.sent + v.conn.unsent + v.pending + Collect(v.replied, Same)
          == v.conn.sent + (v.conn.unsent + v.pending + Collect(v.replied, Same));
    }
  }

  /** The accepted commands are exactly the non-empty commands in the bytes received, read in one piece. */
  lemma AcceptedIsWhatWasSent(n: nat, run: seq<Label>, g: nat)
    requires IsRun(Init(n), run) && g < |After(Init(n), run).conns|
    requires Clean(Stream(After(Init(n), run).conns[g].received))
    ensures
      var c := After(Init(n), run).conns[g];
      var whole := Extract(Stream(c.received));
      whole.Extracted? && c.accepted == Collect(Commands(whole.frames), NonEmpty)
  {
    hide Collect, Extract, Clean, Good, Shape;
    ReachableInv(n, run);
    var s := After(Init(n), run);
    assert GoodAt(s, g);
    ChunkIndependence(s.conns[g].received, MAX_RECV_BYTES);
  }

  /**
   * End to end: a client whose bytes so far are a pipeline of requests, in whatever pieces they were
   * read, has those requests accepted in that order, and sees a prefix of their replies in that order.
   */
  lemma PipelinedClient(n: nat, run: seq<Label>, g: nat, rs: seq<Request>)
    requires IsRun(Init(n), run) && g < |After(Init(n), run).conns|
    requires forall i :: 0 <= i < |rs| ==> Sendable(rs[i])
    requires Stream(After(Init(n), run).conns[g].received) == Collect(rs, Wire)
    ensures
      var c := After(Init(n), run).conns[g];
      && c.accepted == Collect(Collect(rs, Meaning), NonEmpty)
      && Executed(c) <= c.accepted && c.sent <= Replies(c)
  {
    hide Collect, Extract, Clean, After, IsRun;
    PipelineExtracts(rs);
    AcceptedIsWhatWasSent(n, run, g);
    ClientSeesOrderedReplies(n, run, g);
  }

  // ---- single flight ----

  /**
   * A live connection is `processing` exactly when one token of its generation exists among the pool,
   * the workers, the completion queue and the swapped-out completions, and never has more than one; an
   * idle one has nothing queued. So no command is lost, run twice or stranded.
   */
  lemma OneCommandInFlight(n: nat, run: seq<Label>, g: nat)
    requires IsRun(Init(n), run) && g < |After(Init(n), run).conns|
    ensures
      var v := ViewOf(After(Init(n), run), g);
      && ReactorViews.Tokens(v) <= 1
      && (v.conn.open ==> (v.conn.processing <==> ReactorViews.Tokens(v) == 1))
      && (v.conn.open && !v.conn.processing ==> v.conn.queue == [])
  {
    hide Collect, InboxMatches, Shape;
    ReachableInv(n, run);
    assert GoodAt(After(Init(n), run), g);
  }

  // ---- generations ----

  /** What a step may do to a connection that is already closed: at most record a late execution. */
  predicate Frozen(c: Conn, c': Conn) {
    c' == c.(done := c'.done) && c.done <= c'.done
  }

  lemma ClosedHasNoDescriptor(s: State, g: nat)
    requires TableMatches(s) && g < |s.conns| && !s.conns[g].open
    ensures forall fd :: fd in s.fds ==> s.fds[fd] != g
  {
  }

  lemma StepLeavesClosed(s: State, l: Label, g: nat)
    requires Inv(s) && Enabled(s, l) && g < |s.conns| && !s.conns[g].open
    ensures g < |Step(s, l).conns| && Frozen(s.conns[g], Step(s, l).conns[g])
  {
    hide Inv, Step, Enabled;
    if ByWorker(l) {
      WorkerLeavesClosed(s, l, g);
    } else {
      ReactorLeavesClosed(s, l, g);
    }
  }

  lemma WorkerLeavesClosed(s: State, l: Label, g: nat)
    requires Enabled(s, l) && ByWorker(l) && g < |s.conns|
    ensures g < |Step(s, l).conns| && Frozen(s.conns[g], Step(s, l).conns[g])
  {
  }

  lemma ReactorLeavesClosed(s: State, l: Label, g: nat)
    requires Inv(s) && Enabled(s, l) && !ByWorker(l) && g < |s.conns| && !s.conns[g].open
    ensures g < |Step(s, l).conns| && Step(s, l).conns[g] == s.conns[g]
  {
    hide GoodAt, Receive, Collect, AllTagged, BatchesMatchPhase;
    ClosedHasNoDescriptor(s, g);
  }

  /**
   * Generation guard: after a connection is closed, nothing in any continuation (late writes and
   * completions, new connections on the same descriptor) changes its buffers, flags or sent bytes.
   */
  lemma {:induction false} ClosedStaysClosed(s: State, run: seq<Label>, g: nat)
    requires Inv(s) && IsRun(s, run) && g < |s.conns| && !s.conns[g].open
    ensures g < |After(s, run).conns| && Frozen(s.conns[g], After(s, run).conns[g])
    decreases |run|
  {
    hide Inv, Step, Enabled;
    if run != [] {
      StepLeavesClosed(s, run[0], g);
      StepKeepsInv(s, run[0]);
      ClosedStaysClosed(Step(s, run[0]), run[1..], g);
    }
  }

  /**
   * A write or completion acts on no generation but its own, and on that one only while it is open: a
   * later connection on the same descriptor is untouched.
   */
  lemma StaleIsIgnored(s: State, l: Label, g: nat)
    requires Inv(s) && Enabled(s, l) && g < |s.conns|
    requires l.Deliver? ==> g != s.writeBatch[0].gen || !s.conns[g].open
    requires l.Acknowledge? ==> g != s.completionBatch[0].gen || !s.conns[g].open
    requires l.Deliver? || l.Acknowledge?
    ensures g < |Step(s, l).conns| && Step(s, l).conns[g] == s.conns[g]
  {
    hide GoodAt, AllTagged;
  }

  // ---- no lost wakeup ----

  predicate SomeWritePushed(ws: seq<Worker>) { exists i :: 0 <= i < |ws| && ws[i].WritePushed? }

  predicate SomeCompletionPushed(ws: seq<Worker>) { exists i :: 0 <= i < |ws| && ws[i].CompletionPushed? }

  /** A queued write is announced: by the pipe, a worker about to write to it, or the reactor being past its drain. */
  predicate WritesAnnounced(s: State) {
    s.writes != [] ==>
      s.pipe > 0 || SomeWritePushed(s.workers) || s.phase.Draining? || s.phase.WritesDue?
  }

  predicate CompletionsAnnounced(s: State) {
    s.completions != [] ==>
      || s.pipe > 0 || SomeCompletionPushed(s.workers) || s.phase.Draining?
      || s.phase.WritesDue? || s.phase.Delivering? || s.phase.CompletionsDue?
  }

  lemma SomeStays(ws: seq<Worker>, w: nat, x: Worker)
    requires w < |ws|
    ensures SomeWritePushed(ws) && !ws[w].WritePushed? ==> SomeWritePushed(ws[w := x])
    ensures SomeCompletionPushed(ws) && !ws[w].CompletionPushed? ==> SomeCompletionPushed(ws[w := x])
    ensures x.WritePushed? ==> SomeWritePushed(ws[w := x])
    ensures x.CompletionPushed? ==> SomeCompletionPushed(ws[w := x])
  {
    var ws' := ws[w := x];
    assert ws'[w] == x;
    assert forall i :: 0 <= i < |ws| && i != w ==> ws'[i] == ws[i];
    if i :| 0 <= i < |ws| && ws[i].WritePushed? && !ws[w].WritePushed? {
      assert ws'[i].WritePushed?;
    }
    if i :| 0 <= i < |ws| && ws[i].CompletionPushed? && !ws[w].CompletionPushed? {
      assert ws'[i].CompletionPushed?;
    }
  }

  predicate Announced(s: State) { WritesAnnounced(s) && CompletionsAnnounced(s) }

  lemma StepKeepsAnnounced(s: State, l: Label)
    requires Announced(s) && Enabled(s, l)
    ensures Announced(Step(s, l))
  {
    hide Step, Announced, Enabled;
    if ByWorker(l) {
      WorkerKeepsAnnounced(s, l);
    } else {
      ReactorKeepsAnnounced(s, l);
    }
  }

  lemma WorkerKeepsAnnounced(s: State, l: Label)
    requires Announced(s) && Enabled(s, l) && ByWorker(l)
    ensures Announced(Step(s, l))
  {
    hide SomeWritePushed, SomeCompletionPushed;
    SomeStays(s.workers, l.w, Step(s, l).workers[l.w]);
    assert Step(s, l).workers == s.workers[l.w := Step(s, l).workers[l.w]];
  }

  lemma ReactorKeepsAnnounced(s: State, l: Label)
    requires Announced(s) && Enabled(s, l) && !ByWorker(l)
    ensures Announced(Step(s, l))
  {
    hide Receive, Collect, SomeWritePushed, SomeCompletionPushed;
  }

  lemma {:induction false} RunKeepsAnnounced(s: State, run: seq<Label>)
    requires Announced(s) && IsRun(s, run)
    ensures Announced(After(s, run))
    decreases |run|
  {
    hide Announced, Step, Enabled;
    if run != [] {
      StepKeepsAnnounced(s, run[0]);
      RunKeepsAnnounced(Step(s, run[0]), run[1..]);
    }
  }

  /**
   * No lost wakeup: whenever the reactor waits for events and the pipe is empty, each queue is empty
   * or the worker that filled it is about to write to the pipe. A pipe write dropped because the
   * pipe is full changes nothing.
   */
  lemma NoLostWakeup(n: nat, run: seq<Label>)
    requires IsRun(Init(n), run)
    ensures
      var s := After(Init(n), run);
      s.phase == Polling && s.pipe == 0 ==>
        && (s.writes != [] ==> SomeWritePushed(s.workers))
        && (s.completions != [] ==> SomeCompletionPushed(s.workers))
  {
    RunKeepsAnnounced(Init(n), run);
  }

  // ---- nothing is left unanswered ----

  predicate AllIdle(ws: seq<Worker>) { forall i :: 0 <= i < |ws| ==> ws[i] == Idle }

  /** The server sleeps: every worker is idle, the pool is empty, the reactor waits on an empty pipe. */
  predicate Asleep(s: State) {
    s.phase == Polling && s.pipe == 0 && s.tasks == [] && AllIdle(s.workers)
  }

  lemma AsleepView(s: State, g: nat)
    requires Shape(s) && Announced(s) && Asleep(s) && g < |s.conns|
    ensures ViewOf(s, g) == View(s.conns[g], [], [], [], 0, 0, [])
  {
    hide Collect, TableMatches, AllTagged;
    assert s.writes == [] && s.completions == [];
    CollectNothing(s.tasks, TaskFor(g));
    CollectNothing(s.workers, TakenFor(g));
    CollectNothing(s.workers, RepliedFor(g));
    CollectNothing(s.workers, PastFor(g));
    CollectNothing(s.completions, AckFor(g));
    CollectNothing(s.completionBatch, AckFor(g));
    CollectNothing(s.writes, DataFor(g));
    CollectNothing(s.writeBatch, DataFor(g));
  }

  /**
   * Whenever the server sleeps, every command accepted on every open connection has been executed, and
   * all its replies are with the client or in a send buffer that the reactor is armed to flush.
   */
  lemma SleepsOnlyWhenDone(n: nat, run: seq<Label>, g: nat)
    requires IsRun(Init(n), run) && Asleep(After(Init(n), run)) && g < |After(Init(n), run).conns|
    ensures
      var c := After(Init(n), run).conns[g];
      c.open ==> && Executed(c) == c.accepted && Replies(c) == c.sent + c.unsent
                 && c.queue == [] && !c.processing && (c.unsent != [] ==> c.armed)
  {
    hide Collect, InboxMatches, TableMatches, AllTagged;
    ReachableInv(n, run);
    RunKeepsAnnounced(Init(n), run);
    var s := After(Init(n), run);
    assert GoodAt(s, g);
    AsleepView(s, g);
    CollectNothing<bytes, byte>([], Same);
    var c := s.conns[g];
    assert Executed(c) + [] + [] + [] == Executed(c) && c.sent + c.unsent + [] + [] == c.sent + c.unsent;
  }

  // ---- progress ----

  function Weight(w: Worker): nat {
    match w
    case Idle => 0
    case Taken(t) => 10
    case Replied(fd, g, reply) => 9
    case WritePushed(fd, g) => 6
    case WritePoked(fd, g) => 5
    case CompletionPushed => 1
  }

  function Units(w: Worker): seq<bool> { seq(Weight(w), i => true) }

  function QueueOf(c: Conn): seq<Command> { c.queue }

  /** How much work is left for the commands accepted so far. */
  function Work(s: State): nat {
    12 * |Collect(s.conns, QueueOf)| + 11 * |s.tasks| + |Collect(s.workers, Units)|
    + 2 * |s.writes| + |s.writeBatch| + 2 * |s.completions| + |s.completionBatch|
  }

  /** Steps that bring a command nearer to its reply. */
  predicate IsWork(s: State, l: Label) {
    || l.Take? || l.Execute? || l.PushWrite? || l.PokeWrite? || l.PushCompletion? || l.PokeCompletion?
    || l.Deliver? || l.Acknowledge?
    || (l.SwapWrites? && s.writes != []) || (l.SwapCompletions? && s.completions != [])
  }

  /** One connection changed; `dq` is how much longer its queue got. */
  lemma QueueChange(conns: seq<Conn>, g: nat, c: Conn)
    requires g < |conns|
    ensures |Collect(conns[g := c], QueueOf)| == |Collect(conns, QueueOf)| - |conns[g].queue| + |c.queue|
  {
    hide Collect;
    CollectAt(conns, g, QueueOf);
    CollectUpdate(conns, g, c, QueueOf);
  }

  lemma WeightChange(ws: seq<Worker>, w: nat, x: Worker)
    requires w < |ws|
    ensures |Collect(ws[w := x], Units)| == |Collect(ws, Units)| - Weight(ws[w]) + Weight(x)
  {
    hide Collect;
    CollectAt(ws, w, Units);
    CollectUpdate(ws, w, x, Units);
  }

  lemma CloseWork(s: State, g: nat)
    requires g < |s.conns|
    ensures Work(CloseConn(s, g)) <= Work(s)
  {
    hide Collect;
    QueueChange(s.conns, g, CloseConn(s, g).conns[g]);
  }

  lemma DispatchWork(s: State, g: nat)
    requires g < |s.conns|
    ensures Work(Dispatch(s, g)) <= Work(s)
  {
    hide Collect;
    if s.conns[g].queue != [] {
      QueueChange(s.conns, g, Dispatch(s, g).conns[g]);
    }
  }

  lemma SameQueueWork(s: State, g: nat, c: Conn)
    requires g < |s.conns| && c.queue == s.conns[g].queue
    ensures Work(s.(conns := s.conns[g := c])) == Work(s)
  {
    hide Collect;
    QueueChange(s.conns, g, c);
  }

  lemma DeliverWork(s: State, g: nat, data: bytes, taken: nat, fatal: bool)
    requires g < |s.conns| && taken <= |s.conns[g].unsent + data|
    ensures Work(DeliverTo(s, g, data, taken, fatal)) <= Work(s)
  {
    hide Work, CloseConn;
    var c := Flush(s.conns[g].(unsent := s.conns[g].unsent + data), taken);
    SameQueueWork(s, g, c);
    SameQueueWork(s, g, c.(armed := true));
    CloseWork(s.(conns := s.conns[g := c]), g);
  }

  lemma WriteWork(s: State, g: nat, taken: nat, fatal: bool)
    requires g < |s.conns| && taken <= |s.conns[g].unsent|
    ensures Work(WriteOut(s, g, taken, fatal)) <= Work(s)
  {
    hide Work, CloseConn;
    var c := Flush(s.conns[g], taken);
    SameQueueWork(s, g, c);
    SameQueueWork(s, g, c.(armed := false));
    CloseWork(s.(conns := s.conns[g := c]), g);
  }

  lemma AckWork(s: State, g: nat)
    requires g < |s.conns|
    ensures Work(CompleteAt(s, g)) <= Work(s)
  {
    hide Work, Dispatch;
    SameQueueWork(s, g, s.conns[g].(processing := false));
    DispatchWork(s.(conns := s.conns[g := s.conns[g].(processing := false)]), g);
  }

  lemma WorkerWork(s: State, l: Label)
    requires Enabled(s, l)
    requires l.Take? || l.Execute? || l.PushWrite? || l.PokeWrite? || l.PushCompletion? || l.PokeCompletion?
    ensures Work(Step(s, l)) < Work(s)
  {
    hide Collect;
    WeightChange(s.workers, l.w, Step(s, l).workers[l.w]);
    if l.Execute? {
      var g := s.workers[l.w].task.gen;
      QueueChange(s.conns, g, Step(s, l).conns[g]);
    }
  }

  /** Work strictly decreases a measure; without new input nothing increases it. */
  lemma StepWork(s: State, l: Label)
    requires Shape(s) && Enabled(s, l) && !l.Read? && !l.Accept?
    ensures Work(Step(s, l)) <= Work(s) - (if IsWork(s, l) then 1 else 0)
  {
    hide Collect, DeliverTo, WriteOut, CompleteAt, CloseConn, TableMatches, AllTagged;
    match l
    case Writable(fd, taken, fatal) => WriteWork(s, s.fds[fd], taken, fatal);
    case Close(fd) => CloseWork(s, s.fds[fd]);
    case Deliver(taken, fatal) =>
      var w := s.writeBatch[0];
      if Reaches(s, w.fd, w.gen) {
        DeliverWork(s.(writeBatch := s.writeBatch[1..]), w.gen, w.data, taken, fatal);
      }
    case Acknowledge =>
      var c := s.completionBatch[0];
      if Reaches(s, c.fd, c.gen) {
        AckWork(s.(completionBatch := s.completionBatch[1..]), c.gen);
      }
    case _ =>
      if l.Take? || l.Execute? || l.PushWrite? || l.PokeWrite? || l.PushCompletion? || l.PokeCompletion? {
        WorkerWork(s, l);
      }
  }

  function WorkSteps(s: State, run: seq<Label>): nat
    requires IsRun(s, run)
    decreases |run|
  {
    if run == [] then 0
    else (if IsWork(s, run[0]) then 1 else 0) + WorkSteps(Step(s, run[0]), run[1..])
  }

  predicate NoInput(run: seq<Label>) {
    forall i :: 0 <= i < |run| ==> !run[i].Read? && !run[i].Accept?
  }

  /** Without new input a run does at most `Work(s)` steps of work, so the server cannot stay busy for ever. */
  lemma {:induction false} WorkIsBounded(s: State, run: seq<Label>)
    requires Shape(s) && IsRun(s, run) && NoInput(run)
    ensures WorkSteps(s, run) + Work(After(s, run)) <= Work(s)
    decreases |run|
  {
    hide Work, Shape, Step, Enabled, IsWork;
    if run != [] {
      StepWork(s, run[0]);
      StepKeepsShape(s, run[0]);
      WorkIsBounded(Step(s, run[0]), run[1..]);
    }
  }

  // From any state the server can finish on its own: workers first, then the reactor's own cycle.

  function WorkerLabel(s: State, w: nat): Label
    requires w < |s.workers| && s.workers[w] != Idle
  {
    match s.workers[w]
    case Taken(t) => Execute(w, [])
    case Replied(fd, g, reply) => PushWrite(w)
    case WritePushed(fd, g) => PokeWrite(w, false)
    case WritePoked(fd, g) => PushCompletion(w)
    case CompletionPushed => PokeCompletion(w, false)
  }

  function ReactorLabel(s: State): Label {
    match s.phase
    case Polling => Wake
    case Handling => if s.pipe > 0 then PipeReady else EndOfEvents
    case Draining => if s.pipe > 0 then ReadPipe(s.pipe) else PipeEmpty
    case WritesDue(last) => SwapWrites
    case Delivering(last) =>
      if s.writeBatch == [] then WritesDone
      else
        var w := s.writeBatch[0];
        Deliver(if Reaches(s, w.fd, w.gen) then |s.conns[w.gen].unsent + w.data| else 0, false)
    case CompletionsDue(last) => SwapCompletions
    case Completing(last) => if s.completionBatch == [] then CompletionsDone else Acknowledge
  }

  /** How far the reactor is from waiting on an empty pipe, when the workers have nothing to do. */
  function Distance(s: State): nat {
    match s.phase
    case Polling => if s.pipe > 0 then 5 else 10
    case Handling => if s.pipe > 0 then 4 else 15
    case Draining => if s.pipe > 0 then 3 else 20
    case WritesDue(last) => if last || s.pipe > 0 then 14 else 19
    case Delivering(last) => if last || s.pipe > 0 then 13 else 18
    case CompletionsDue(last) => if last || s.pipe > 0 then 12 else 17
    case Completing(last) => if last || s.pipe > 0 then 11 else 16
  }

  lemma ReactorNears(s: State)
    requires Shape(s) && s.tasks == [] && AllIdle(s.workers) && !Asleep(s)
    ensures
      var l := ReactorLabel(s);
      && Enabled(s, l) && !l.Read? && !l.Accept?
      && var s' := Step(s, l);
         && (s'.workers == s.workers)
         && (IsWork(s, l) || s'.pipe < s.pipe || (s'.pipe == s.pipe && Distance(s') < Distance(s)))
  {
    hide TableMatches, AllTagged, Collect;
  }

  lemma WorkerLabelEnabled(s: State, w: nat)
    requires AllTagged(s) && w < |s.workers| && s.workers[w] != Idle
    ensures var l := WorkerLabel(s, w); Enabled(s, l) && IsWork(s, l) && !l.Read? && !l.Accept?
    ensures |Step(s, WorkerLabel(s, w)).workers| == |s.workers|
  {
    assert WorkerTagged(s, s.workers[w]);
  }

  lemma PrependRun(s: State, l: Label, run: seq<Label>)
    requires Enabled(s, l) && !l.Read? && !l.Accept? && IsRun(Step(s, l), run) && NoInput(run)
    ensures IsRun(s, [l] + run) && NoInput([l] + run)
    ensures After(s, [l] + run) == After(Step(s, l), run)
  {
    assert ([l] + run)[1..] == run;
  }

  /**
   * Progress: from every state of the right shape, with at least one worker, there is a continuation
   * without any input that ends asleep, and by SleepsOnlyWhenDone everything is then answered.
   */
  lemma {:induction false} CanAlwaysFinish(s: State) returns (run: seq<Label>)
    requires Shape(s) && |s.workers| > 0
    ensures IsRun(s, run) && NoInput(run) && Asleep(After(s, run))
    decreases Work(s), s.pipe, Distance(s)
  {
    hide Work, Shape, Step, Enabled, IsWork, Distance;
    if Asleep(s) {
      return [];
    }
    var l: Label;
    if w :| 0 <= w < |s.workers| && s.workers[w] != Idle {
      assert AllTagged(s) by { ShapeTags(s); }
      WorkerLabelEnabled(s, w);
      l := WorkerLabel(s, w);
    } else if s.tasks != [] {
      TakeIsWork(s);
      l := Take(0);
    } else {
      ReactorNears(s);
      l := ReactorLabel(s);
    }
    StepWork(s, l);
    StepKeepsShape(s, l);
    run := CanAlwaysFinish(Step(s, l));
    PrependRun(s, l, run);
    run := [l] + run;
  }

  lemma ShapeTags(s: State)
    requires Shape(s)
    ensures AllTagged(s)
  {
  }

  lemma TakeIsWork(s: State)
    requires |s.workers| > 0 && s.workers[0] == Idle && s.tasks != []
    ensures Enabled(s, Take(0)) && IsWork(s, Take(0)) && |Step(s, Take(0)).workers| == |s.workers|
  {
  }

  // ---- what one event does to its connection ----

  /**
   * A read event: the connection stays open if and only if no more than 65536 bytes wait to be parsed and
   * they hold no parse error. Then it keeps the bytes of the last, incomplete frame and accepts the commands
   * of the others; else its descriptor is free. No other connection changes.
   */
  lemma ReadIsExact(s: State, fd: Fd, chunk: bytes)
    requires Enabled(s, Read(fd, chunk)) && s.conns[s.fds[fd]].open && s.conns[s.fds[fd]].fd == fd
    ensures
      var g, s' := s.fds[fd], Step(s, Read(fd, chunk));
      var c, data := s.conns[g], s.conns[g].buf + chunk;
      && |s'.conns| == |s.conns| && (forall i :: 0 <= i < |s.conns| && i != g ==> s'.conns[i] == s.conns[i])
      && (s'.conns[g].open <==> |data| <= 65536 && Extract(data).Extracted?)
      && (fd in s'.fds <==> s'.conns[g].open)
      && (s'.conns[g].open ==>
            && s'.conns[g].received == c.received + [chunk] && s'.conns[g].buf == Extract(data).rest
            && s'.conns[g].accepted == c.accepted + Collect(Commands(Extract(data).frames), NonEmpty))
      && (!s'.conns[g].open ==> s'.conns[g].sent == c.sent && s'.conns[g].accepted == c.accepted)
  {
    hide Extract, Collect;
    var c := s.conns[s.fds[fd]];
    if Extract(c.buf + chunk).Extracted? {
      var cmds := Commands(Extract(c.buf + chunk).frames);
      assert [] + cmds == cmds;
    }
  }

  /**
   * A writable event: the bytes the kernel takes are sent, and the connection stays open if and only if
   * nothing is left or the socket did not fail. EPOLLOUT stays armed exactly for what is left.
   */
  lemma WritableIsExact(s: State, fd: Fd, taken: nat, fatal: bool)
    requires Enabled(s, Writable(fd, taken, fatal)) && s.conns[s.fds[fd]].open && s.conns[s.fds[fd]].fd == fd
    ensures
      var g, s' := s.fds[fd], Step(s, Writable(fd, taken, fatal));
      var c := s.conns[g];
      && |s'.conns| == |s.conns| && (forall i :: 0 <= i < |s.conns| && i != g ==> s'.conns[i] == s.conns[i])
      && s'.conns[g].sent == c.sent + c.unsent[..taken]
      && (s'.conns[g].open <==> taken == |c.unsent| || !fatal) && (fd in s'.fds <==> s'.conns[g].open)
      && (s'.conns[g].open ==>
            && s'.conns[g].unsent == c.unsent[taken..]
            && s'.conns[g].armed == (taken < |c.unsent| && c.armed))
  {
  }

  /** The same for a write that reaches its connection: behind what is unsent, then flushed. */
  lemma DeliverIsExact(s: State, taken: nat, fatal: bool)
    requires Enabled(s, Deliver(taken, fatal))
    requires
      var w := s.writeBatch[0];
      Reaches(s, w.fd, w.gen) && s.conns[w.gen].open && s.conns[w.gen].fd == w.fd
    ensures
      var w, s' := s.writeBatch[0], Step(s, Deliver(taken, fatal));
      var c, data := s.conns[w.gen], s.conns[w.gen].unsent + w.data;
      && |s'.conns| == |s.conns| && (forall i :: 0 <= i < |s.conns| && i != w.gen ==> s'.conns[i] == s.conns[i])
      && s'.conns[w.gen].sent == c.sent + data[..taken]
      && (s'.conns[w.gen].open <==> taken == |data| || !fatal) && (w.fd in s'.fds <==> s'.conns[w.gen].open)
      && (s'.conns[w.gen].open ==>
            && s'.conns[w.gen].unsent == data[taken..]
            && s'.conns[w.gen].armed == (taken < |data| || c.armed))
  {
  }
}
