/** The invariant of the reactor protocol, kept by every action of every thread. */
module ReactorSafety {
  import opened ByteStrings
  import opened RespParser
  import opened Framing
  import opened Sequences
  import opened Reactor
  import opened ReactorViews

  // ---- descriptors and generations ----

  predicate Tagged(s: State, fd: Fd, g: nat) { g < |s.conns| && s.conns[g].fd == fd }

  predicate WorkerTagged(s: State, w: Worker) {
    match w
    case Idle => true
    case Taken(t) => Tagged(s, t.fd, t.gen)
    case Replied(fd, g, reply) => Tagged(s, fd, g)
    case WritePushed(fd, g) => Tagged(s, fd, g)
    case WritePoked(fd, g) => Tagged(s, fd, g)
    case CompletionPushed => true
  }

  predicate TasksTagged(s: State, ts: seq<Task>) {
    forall i :: 0 <= i < |ts| ==> Tagged(s, ts[i].fd, ts[i].gen)
  }

  predicate WritesTagged(s: State, ws: seq<Write>) {
    forall i :: 0 <= i < |ws| ==> Tagged(s, ws[i].fd, ws[i].gen)
  }

  predicate CompletionsTagged(s: State, cs: seq<Completion>) {
    forall i :: 0 <= i < |cs| ==> Tagged(s, cs[i].fd, cs[i].gen)
  }

  predicate WorkersTagged(s: State, ws: seq<Worker>) {
    forall i :: 0 <= i < |ws| ==> WorkerTagged(s, ws[i])
  }

  /** The descriptor table holds exactly the open connections, each under its own descriptor. */
  predicate TableMatches(s: State) {
    && (forall fd :: fd in s.fds ==> Tagged(s, fd, s.fds[fd]) && s.conns[s.fds[fd]].open)
    && (forall g :: 0 <= g < |s.conns| && s.conns[g].open ==> s.conns[g].fd in s.fds && s.fds[s.conns[g].fd] == g)
  }

  /** Everything in flight carries the descriptor of the connection whose generation it carries. */
  predicate AllTagged(s: State) {
    && TasksTagged(s, s.tasks) && WorkersTagged(s, s.workers)
    && WritesTagged(s, s.writes) && WritesTagged(s, s.writeBatch)
    && CompletionsTagged(s, s.completions) && CompletionsTagged(s, s.completionBatch)
  }

  /** The swapped-out batches are empty except inside the loop that works them off. */
  predicate BatchesMatchPhase(s: State) {
    && (s.writeBatch != [] ==> s.phase.Delivering?)
    && (s.completionBatch != [] ==> s.phase.Completing?)
  }

  /** What was accepted is what extraction found in the bytes received. */
  predicate InboxMatches(c: Conn) {
    var inbox := ReceiveAll(Open([], []), c.received, MAX_RECV_BYTES);
    inbox.Open? && inbox.buf == c.buf && Collect(inbox.cmds, NonEmpty) == c.accepted
  }

  predicate GoodAt(s: State, g: nat)
    requires g < |s.conns|
  {
    Good(ViewOf(s, g)) && InboxMatches(s.conns[g])
  }

  predicate Shape(s: State) {
    TableMatches(s) && AllTagged(s) && BatchesMatchPhase(s)
  }

  predicate Inv(s: State) {
    && Shape(s)
    && forall g :: 0 <= g < |s.conns| ==> GoodAt(s, g)
  }

  // ---- the shape is kept ----

  /** Connections are only added, and none changes its descriptor: tags stay right. */
  predicate Extends(s: State, s': State) {
    |s.conns| <= |s'.conns| && forall g :: 0 <= g < |s.conns| ==> s'.conns[g].fd == s.conns[g].fd
  }

  lemma TagsExtend(s: State, s': State)
    requires AllTagged(s) && Extends(s, s')
    ensures TasksTagged(s', s.tasks) && WorkersTagged(s', s.workers)
    ensures WritesTagged(s', s.writes) && WritesTagged(s', s.writeBatch)
    ensures CompletionsTagged(s', s.completions) && CompletionsTagged(s', s.completionBatch)
  {
    assert forall i :: 0 <= i < |s.workers| ==> WorkerTagged(s, s.workers[i]) && WorkerTagged(s', s.workers[i]);
  }

  /** The same descriptors, open in the same places. */
  predicate SameTable(s: State, s': State) {
    && s'.fds == s.fds && |s'.conns| == |s.conns|
    && forall g :: 0 <= g < |s.conns| ==> s'.conns[g].fd == s.conns[g].fd && s'.conns[g].open == s.conns[g].open
  }

  predicate KeepsTable(s: State, s': State) {
    Extends(s, s') && (TableMatches(s) ==> TableMatches(s'))
  }

  lemma SameTableKeeps(s: State, s': State)
    requires SameTable(s, s')
    ensures KeepsTable(s, s')
  {
    if TableMatches(s) {
      assert forall fd :: fd in s.fds ==> Tagged(s, fd, s.fds[fd]);
    }
  }

  lemma CloseTable(s: State, s': State, g: nat)
    requires SameTable(s, s') && g < |s.conns| && s.conns[g].open
    ensures KeepsTable(s, CloseConn(s', g))
  {
    SameTableKeeps(s, s');
    if TableMatches(s) {
      assert forall fd :: fd in s'.fds ==> Tagged(s', fd, s'.fds[fd]);
    }
  }

  lemma ReadTable(s: State, g: nat, chunk: bytes)
    requires g < |s.conns| && s.conns[g].open
    ensures KeepsTable(s, ReadInto(s, g, chunk))
  {
    hide Receive, Collect, TableMatches, Extends;
    CloseTable(s, s, g);
    var s' := ReadInto(s, g, chunk);
    if Receive(Open([], s.conns[g].buf), chunk, MAX_RECV_BYTES).Open? {
      SameTableKeeps(s, s');
    }
  }

  lemma DeliverTable(s: State, s0: State, g: nat, data: bytes, taken: nat, fatal: bool)
    requires SameTable(s, s0) && g < |s.conns| && s.conns[g].open && taken <= |s0.conns[g].unsent + data|
    ensures KeepsTable(s, DeliverTo(s0, g, data, taken, fatal))
  {
    hide TableMatches, Extends;
    var s' := DeliverTo(s0, g, data, taken, fatal);
    var c := Flush(s0.conns[g].(unsent := s0.conns[g].unsent + data), taken);
    if c.unsent != [] && fatal {
      CloseTable(s, s0.(conns := s0.conns[g := c]), g);
    } else {
      SameTableKeeps(s, s');
    }
  }

  lemma WriteTable(s: State, g: nat, taken: nat, fatal: bool)
    requires g < |s.conns| && s.conns[g].open && taken <= |s.conns[g].unsent|
    ensures KeepsTable(s, WriteOut(s, g, taken, fatal))
  {
    hide TableMatches, Extends;
    var s' := WriteOut(s, g, taken, fatal);
    var c := Flush(s.conns[g], taken);
    if c.unsent != [] && fatal {
      CloseTable(s, s.(conns := s.conns[g := c]), g);
    } else {
      SameTableKeeps(s, s');
    }
  }

  lemma AcceptTable(s: State, fd: Fd)
    requires Enabled(s, Accept(fd))
    ensures KeepsTable(s, Step(s, Accept(fd)))
  {
  }

  lemma OthersKeepTable(s: State, l: Label)
    requires Enabled(s, l) && !l.Accept? && !l.Read? && !l.Writable? && !l.Close? && !l.Deliver?
    ensures KeepsTable(s, Step(s, l))
  {
    hide TableMatches, Extends;
    SameTableKeeps(s, Step(s, l));
  }

  lemma StepKeepsTable(s: State, l: Label)
    requires Enabled(s, l) && TableMatches(s)
    ensures KeepsTable(s, Step(s, l))
  {
    hide KeepsTable, ReadInto, WriteOut, DeliverTo, CloseConn, Dispatch, CompleteAt;
    match l
    case Accept(fd) => AcceptTable(s, fd);
    case Read(fd, chunk) => ReadTable(s, s.fds[fd], chunk);
    case Writable(fd, taken, fatal) => WriteTable(s, s.fds[fd], taken, fatal);
    case Close(fd) => CloseTable(s, s, s.fds[fd]);
    case Deliver(taken, fatal) =>
      var w := s.writeBatch[0];
      var s0 := s.(writeBatch := s.writeBatch[1..]);
      if Reaches(s, w.fd, w.gen) {
        DeliverTable(s, s0, w.gen, w.data, taken, fatal);
      } else {
        SameTableKeeps(s, s0);
      }
    case _ => OthersKeepTable(s, l);
  }

  predicate ByWorker(l: Label) {
    l.Take? || l.Execute? || l.PushWrite? || l.PokeWrite? || l.PushCompletion? || l.PokeCompletion?
  }

  lemma WorkerKeepsTags(s: State, l: Label)
    requires Enabled(s, l) && ByWorker(l) && AllTagged(s)
    requires Extends(s, Step(s, l))
    ensures AllTagged(Step(s, l))
  {
    hide Extends, Tagged;
    var s' := Step(s, l);
    TagsExtend(s, s');
    assert WorkerTagged(s', s.workers[l.w]);
  }

  lemma ReadTags(s: State, g: nat, chunk: bytes)
    requires g < |s.conns| && TasksTagged(s, s.tasks)
    ensures TasksTagged(ReadInto(s, g, chunk), ReadInto(s, g, chunk).tasks)
  {
    hide Receive, Collect;
  }

  lemma ReactorKeepsTags(s: State, l: Label)
    requires Enabled(s, l) && !ByWorker(l) && AllTagged(s)
    requires Extends(s, Step(s, l))
    ensures AllTagged(Step(s, l))
  {
    hide Receive, Collect, Tagged, WorkerTagged, Extends;
    var s' := Step(s, l);
    TagsExtend(s, s');
    if l.Read? {
      ReadTags(s, s.fds[l.fd], l.chunk);
    } else if l.Acknowledge? {
      var c := s.completionBatch[0];
      if Reaches(s, c.fd, c.gen) {
        AckTags(s, c.gen);
      }
    }
  }

  lemma AckTags(s: State, g: nat)
    requires g < |s.conns| && TasksTagged(s, s.tasks)
    ensures
      var s0 := s.(completionBatch := if s.completionBatch == [] then [] else s.completionBatch[1..]);
      TasksTagged(CompleteAt(s0, g), CompleteAt(s0, g).tasks)
  {
  }

  lemma StepKeepsBatches(s: State, l: Label)
    requires Enabled(s, l) && BatchesMatchPhase(s)
    ensures BatchesMatchPhase(Step(s, l))
  {
    hide Receive, Collect;
  }

  lemma StepKeepsTags(s: State, l: Label)
    requires Enabled(s, l) && Shape(s)
    ensures AllTagged(Step(s, l)) && BatchesMatchPhase(Step(s, l))
  {
    hide Step, Enabled, AllTagged, BatchesMatchPhase, TableMatches;
    StepKeepsTable(s, l);
    StepKeepsBatches(s, l);
    if ByWorker(l) {
      WorkerKeepsTags(s, l);
    } else {
      ReactorKeepsTags(s, l);
    }
  }

  lemma StepKeepsShape(s: State, l: Label)
    requires Enabled(s, l) && Shape(s)
    ensures Shape(Step(s, l)) && Extends(s, Step(s, l))
  {
    hide Step, AllTagged, BatchesMatchPhase;
    StepKeepsTable(s, l);
    StepKeepsTags(s, l);
  }

  // ---- each action, seen from one connection ----

  lemma DispatchView(s: State, g0: nat, g: nat)
    requires g0 < |s.conns| && g < |s.conns| && s.conns[g0].queue != []
    ensures
      var v, v', c := ViewOf(s, g), ViewOf(Dispatch(s, g0), g), s.conns[g0];
      v' == if g == g0
            then v.(conn := c.(processing := true, queue := c.queue[1..]), tasks := v.tasks + [c.queue[0]])
            else v
  {
    CollectPush(s.tasks, Task(s.conns[g0].fd, g0, s.conns[g0].queue[0]), TaskFor(g));
  }

  lemma CloseView(s: State, g0: nat, g: nat)
    requires g0 < |s.conns| && g < |s.conns|
    ensures
      var v, v' := ViewOf(s, g), ViewOf(CloseConn(s, g0), g);
      v' == if g == g0 then v.(conn := v.conn.(open := false, queue := [], unsent := [])) else v
  {
  }

  lemma InboxGrows(c: Conn, chunk: bytes, cmds: seq<Command>, buf: bytes)
    requires InboxMatches(c)
    requires Receive(Open([], c.buf), chunk, MAX_RECV_BYTES) == Open(cmds, buf)
    ensures
      var inbox := ReceiveAll(Open([], []), c.received + [chunk], MAX_RECV_BYTES);
      inbox.Open? && inbox.buf == buf && Collect(inbox.cmds, NonEmpty) == c.accepted + Collect(cmds, NonEmpty)
  {
    hide Extract, Collect;
    ReceivePush(Open([], []), c.received, chunk, MAX_RECV_BYTES);
    var before := ReceiveAll(Open([], []), c.received, MAX_RECV_BYTES);
    var found := Commands(Extract(c.buf + chunk).frames);
    assert [] + found == found;
    CollectAppend(before.cmds, cmds, NonEmpty);
  }

  lemma ReadGood(s: State, g0: nat, chunk: bytes, g: nat)
    requires g0 < |s.conns| && g < |s.conns| && s.conns[g0].open && GoodAt(s, g0) && GoodAt(s, g)
    ensures g < |ReadInto(s, g0, chunk).conns| && GoodAt(ReadInto(s, g0, chunk), g)
  {
    hide Receive, ReceiveAll, Collect, Good;
    var c, s' := s.conns[g0], ReadInto(s, g0, chunk);
    match Receive(Open([], c.buf), chunk, MAX_RECV_BYTES)
    case TooLong => CloseGood(s, g0, g);
    case Malformed => CloseGood(s, g0, g);
    case Open(cmds, buf) =>
      var added := Collect(cmds, NonEmpty);
      var c1 := c.(buf := buf, queue := c.queue + added,
                   received := c.received + [chunk], accepted := c.accepted + added);
      var s1 := s.(conns := s.conns[g0 := c1]);
      InboxGrows(c, chunk, cmds, buf);
      ReadKeeps(ViewOf(s, g0), added, ViewOf(s1, g0));
      if c1.queue != [] && !c1.processing {
        DispatchView(s1, g0, g);
        DispatchView(s1, g0, g0);
        NotProcessing(ViewOf(s, g0));
        DispatchKeeps(ViewOf(s1, g0), ViewOf(s', g0));
      }
  }

  lemma NotProcessing(v: View)
    requires Good(v) && v.conn.open && !v.conn.processing
    ensures ReactorViews.Tokens(v) == 0
  {
  }

  lemma CloseGood(s: State, g0: nat, g: nat)
    requires g0 < |s.conns| && g < |s.conns| && s.conns[g0].open && GoodAt(s, g0) && GoodAt(s, g)
    ensures GoodAt(CloseConn(s, g0), g)
  {
    hide ReceiveAll, Collect;
    CloseView(s, g0, g);
    if g == g0 {
      CloseKeeps(ViewOf(s, g), ViewOf(CloseConn(s, g0), g));
    }
  }

  /** A flushed view is good again once blocked bytes are armed for, or the connection is closed. */
  lemma FlushedGood(s: State, g0: nat, c: Conn, armed: bool, fatal: bool, g: nat)
    requires g0 < |s.conns| && g < |s.conns| && (g != g0 ==> GoodAt(s, g))
    requires c.open && InboxMatches(c)
    requires var v := ViewOf(s, g0).(conn := c); CommandsInOrder(v) && RepliesInOrder(v) && SingleFlight(v)
    requires c.unsent != [] && !fatal ==> armed
    ensures
      var s1 := s.(conns := s.conns[g0 := c]);
      GoodAt(if c.unsent != [] && fatal then CloseConn(s1, g0)
             else s.(conns := s.conns[g0 := c.(armed := armed)]), g)
  {
    hide ReceiveAll, Collect;
    var s1 := s.(conns := s.conns[g0 := c]);
    assert ViewOf(s1, g0) == ViewOf(s, g0).(conn := c);
    if c.unsent != [] && fatal {
      CloseView(s1, g0, g);
      if g == g0 {
        CloseKeeps(ViewOf(s1, g), ViewOf(CloseConn(s1, g0), g));
      }
    } else {
      assert ViewOf(s.(conns := s.conns[g0 := c.(armed := armed)]), g0) == ViewOf(s1, g0).(conn := c.(armed := armed));
    }
  }

  lemma WriteGood(s: State, g0: nat, taken: nat, fatal: bool, g: nat)
    requires g0 < |s.conns| && g < |s.conns| && s.conns[g0].open && GoodAt(s, g0) && GoodAt(s, g)
    requires taken <= |s.conns[g0].unsent|
    ensures GoodAt(WriteOut(s, g0, taken, fatal), g)
  {
    hide ReceiveAll, Collect;
    var c := Flush(s.conns[g0], taken);
    FlushKeeps(ViewOf(s, g0), taken, ViewOf(s, g0).(conn := c));
    FlushedGood(s, g0, c, if c.unsent == [] then false else c.armed, fatal, g);
  }

  lemma PopWriteView(s: State, g: nat)
    requires g < |s.conns| && s.writeBatch != []
    ensures
      var v, v', w := ViewOf(s, g), ViewOf(s.(writeBatch := s.writeBatch[1..]), g), s.writeBatch[0];
      && v' == v.(pending := v'.pending)
      && v.pending == (if w.gen == g then w.data else []) + v'.pending
  {
    hide Collect;
    var w, rest := s.writeBatch[0], s.writeBatch[1..];
    var a, b := Collect(rest, DataFor(g)), Collect(s.writes, DataFor(g));
    CollectHead(s.writeBatch, DataFor(g));
    assert DataFor(g)(w) + a + b == DataFor(g)(w) + (a + b);
  }

  lemma DeliverUnfolds(s: State, taken: nat, fatal: bool)
    requires Shape(s) && Enabled(s, Deliver(taken, fatal))
    ensures s.phase.Delivering? && s.writeBatch != []
    ensures
      var w, popped := s.writeBatch[0], s.(writeBatch := s.writeBatch[1..]);
      && w.gen < |s.conns| && (Reaches(s, w.fd, w.gen) <==> s.conns[w.gen].open)
      && (Reaches(s, w.fd, w.gen) ==> taken <= |s.conns[w.gen].unsent + w.data|)
      && Step(s, Deliver(taken, fatal))
         == if Reaches(s, w.fd, w.gen) then DeliverTo(popped, w.gen, w.data, taken, fatal) else popped
  {
    hide DeliverTo;
    assert Tagged(s, s.writeBatch[0].fd, s.writeBatch[0].gen);
  }

  lemma DeliverGood(s: State, taken: nat, fatal: bool, g: nat)
    requires Inv(s) && Enabled(s, Deliver(taken, fatal)) && g < |s.conns|
    ensures GoodAt(Step(s, Deliver(taken, fatal)), g)
  {
    hide ReceiveAll, Collect, Step, Enabled, Shape;
    DeliverUnfolds(s, taken, fatal);
    var w := s.writeBatch[0];
    var s0 := s.(writeBatch := s.writeBatch[1..]);
    PopWriteView(s, g);
    if Reaches(s, w.fd, w.gen) {
      assert GoodAt(s, w.gen) && GoodAt(s, g);
      PopWriteView(s, w.gen);
      var v := ViewOf(s, w.gen);
      var c0 := v.conn.(unsent := v.conn.unsent + w.data);
      BufferKeeps(v, w.data, ViewOf(s0, w.gen).(conn := c0));
      var c := Flush(c0, taken);
      FlushKeeps(ViewOf(s0, w.gen).(conn := c0), taken, ViewOf(s0, w.gen).(conn := c));
      FlushedGood(s0, w.gen, c, if c.unsent == [] then c.armed else true, fatal, g);
    } else {
      assert GoodAt(s, g);
    }
  }

  lemma SwapUnfolds(s: State, l: Label)
    requires Enabled(s, l) && BatchesMatchPhase(s)
    ensures l.SwapWrites? ==>
      s.writeBatch == [] && Step(s, l) == s.(writeBatch := s.writes, writes := [], phase := Delivering(s.phase.last))
    ensures l.SwapCompletions? ==>
      && s.completionBatch == []
      && Step(s, l) == s.(completionBatch := s.completions, completions := [], phase := Completing(s.phase.last))
  {
  }

  lemma SwapView(s: State, l: Label, g: nat)
    requires Enabled(s, l) && Shape(s) && g < |s.conns| && (l.SwapWrites? || l.SwapCompletions?)
    ensures ViewOf(Step(s, l), g) == ViewOf(s, g)
  {
    hide TableMatches, AllTagged, Collect, Step, Enabled;
    CollectNothing<Write, byte>([], DataFor(g));
    CollectNothing<Completion, bool>([], AckFor(g));
    SwapUnfolds(s, l);
    var pending := Collect(s.writes, DataFor(g));
    assert [] + pending == pending && pending + [] == pending;
  }

  lemma PopAckView(s: State, g: nat)
    requires g < |s.conns| && s.completionBatch != []
    ensures
      var v, v' := ViewOf(s, g), ViewOf(s.(completionBatch := s.completionBatch[1..]), g);
      && v' == v.(acks := v'.acks)
      && v.acks == (if s.completionBatch[0].gen == g then 1 else 0) + v'.acks
  {
  }

  lemma AcknowledgeUnfolds(s: State)
    requires Shape(s) && Enabled(s, Acknowledge)
    ensures s.phase.Completing? && s.completionBatch != []
    ensures
      var c, popped := s.completionBatch[0], s.(completionBatch := s.completionBatch[1..]);
      && c.gen < |s.conns| && (Reaches(s, c.fd, c.gen) <==> s.conns[c.gen].open)
      && Step(s, Acknowledge) == if Reaches(s, c.fd, c.gen) then CompleteAt(popped, c.gen) else popped
  {
    hide CompleteAt;
    assert Tagged(s, s.completionBatch[0].fd, s.completionBatch[0].gen);
  }

  lemma AcknowledgeGood(s: State, g: nat)
    requires Inv(s) && Enabled(s, Acknowledge) && g < |s.conns|
    ensures GoodAt(Step(s, Acknowledge), g)
  {
    hide ReceiveAll, Collect, Step, Enabled, Shape;
    AcknowledgeUnfolds(s);
    var c := s.completionBatch[0];
    var s0 := s.(completionBatch := s.completionBatch[1..]);
    PopAckView(s, g);
    assert GoodAt(s, g);
    if Reaches(s, c.fd, c.gen) {
      PopAckView(s, c.gen);
      assert GoodAt(s, c.gen);
      var s1 := s0.(conns := s0.conns[c.gen := s0.conns[c.gen].(processing := false)]);
      AckKeeps(ViewOf(s, c.gen), ViewOf(s1, c.gen));
      assert g != c.gen ==> ViewOf(s1, g) == ViewOf(s0, g) == ViewOf(s, g);
      if s1.conns[c.gen].queue != [] {
        DispatchView(s1, c.gen, g);
        DispatchKeeps(ViewOf(s1, c.gen), ViewOf(s1, c.gen).(
          conn := s1.conns[c.gen].(processing := true, queue := s1.conns[c.gen].queue[1..]),
          tasks := ViewOf(s1, c.gen).tasks + [s1.conns[c.gen].queue[0]]));
      }
    }
  }

  /** What the workers other than `w` hold for a generation. */
  function OthersFor<B>(ws: seq<Worker>, w: nat, f: Worker -> seq<B>): (seq<B>, seq<B>)
    requires w < |ws|
  {
    (Collect(ws[..w], f), Collect(ws[w + 1..], f))
  }

  /** How a view changes when worker `w` goes from one stage to the next. */
  lemma WorkerView(s: State, w: nat, x: Worker, g: nat)
    requires g < |s.conns| && w < |s.workers|
    ensures
      var s', u := s.(workers := s.workers[w := x]), s.workers[w];
      var v, v' := ViewOf(s, g), ViewOf(s', g);
      var (t0, t1) := OthersFor(s.workers, w, TakenFor(g));
      var (r0, r1) := OthersFor(s.workers, w, RepliedFor(g));
      && v' == v.(taken := v'.taken, replied := v'.replied, past := v'.past)
      && v.taken == t0 + TakenFor(g)(u) + t1 && v'.taken == t0 + TakenFor(g)(x) + t1
      && v.replied == r0 + RepliedFor(g)(u) + r1 && v'.replied == r0 + RepliedFor(g)(x) + r1
      && v'.past == v.past - |PastFor(g)(u)| + |PastFor(g)(x)|
  {
    hide Collect;
    CollectAt(s.workers, w, TakenFor(g));
    CollectUpdate(s.workers, w, x, TakenFor(g));
    CollectAt(s.workers, w, RepliedFor(g));
    CollectUpdate(s.workers, w, x, RepliedFor(g));
    CollectAt(s.workers, w, PastFor(g));
    CollectUpdate(s.workers, w, x, PastFor(g));
  }

  lemma PopTaskView(s: State, g: nat)
    requires g < |s.conns| && s.tasks != []
    ensures
      var v, v', t := ViewOf(s, g), ViewOf(s.(tasks := s.tasks[1..]), g), s.tasks[0];
      && v' == v.(tasks := v'.tasks)
      && v.tasks == (if t.gen == g then [t.args] else []) + v'.tasks
  {
  }

  lemma TakeGood(s: State, w: nat, g: nat)
    requires Inv(s) && Enabled(s, Take(w)) && g < |s.conns|
    ensures GoodAt(Step(s, Take(w)), g)
  {
    hide ReceiveAll, Collect, Shape;
    var t := s.tasks[0];
    var s0 := s.(tasks := s.tasks[1..]);
    assert GoodAt(s, g);
    PopTaskView(s, g);
    WorkerView(s0, w, Taken(t), g);
    var v, v' := ViewOf(s, g), ViewOf(Step(s, Take(w)), g);
    if t.gen == g {
      assert |v.tasks| == 1 && v.taken == [];
      TakeKeeps(v, v');
    } else {
      assert v' == v;
    }
  }

  lemma ExecuteGood(s: State, w: nat, reply: bytes, g: nat)
    requires Inv(s) && Enabled(s, Execute(w, reply)) && g < |s.conns|
    ensures GoodAt(Step(s, Execute(w, reply)), g)
  {
    hide InboxMatches, Collect, Shape, Step, ViewOf, Good;
    var s' := Step(s, Execute(w, reply));
    assert GoodAt(s, g);
    ExecuteView(s, w, reply, g);
    if s.workers[w].task.gen == g {
      ExecuteKeeps(ViewOf(s, g), reply, ViewOf(s', g));
    }
    InboxOfExecute(s, w, reply, g);
  }

  lemma InboxOfExecute(s: State, w: nat, reply: bytes, g: nat)
    requires Enabled(s, Execute(w, reply)) && g < |s.conns| && InboxMatches(s.conns[g])
    ensures InboxMatches(Step(s, Execute(w, reply)).conns[g])
  {
    hide ReceiveAll, Collect;
  }

  /** With no more than one token about, the worker's command and then its reply are all there is. */
  lemma ExecuteView(s: State, w: nat, reply: bytes, g: nat)
    requires Enabled(s, Execute(w, reply)) && g < |s.conns| && Good(ViewOf(s, g))
    ensures |Step(s, Execute(w, reply)).conns| == |s.conns|
    ensures
      var t, v, v' := s.workers[w].task, ViewOf(s, g), ViewOf(Step(s, Execute(w, reply)), g);
      if t.gen == g then
        && |v.taken| == 1
        && v' == v.(conn := v.conn.(done := v.conn.done + [Answer(v.taken[0], reply)]), taken := [], replied := [reply])
      else v' == v
  {
    hide Collect, CommandsInOrder, RepliesInOrder, NothingStranded;
    var t := s.workers[w].task;
    WorkerView(s, w, Replied(t.fd, t.gen, reply), g);
  }

  lemma PendingPush(s: State, r: Write, g: nat)
    ensures
      var batch := Collect(s.writeBatch, DataFor(g));
      batch + Collect(s.writes + [r], DataFor(g))
      == batch + Collect(s.writes, DataFor(g)) + (if r.gen == g then r.data else [])
  {
    hide Collect;
    CollectPush(s.writes, r, DataFor(g));
    var batch, queued := Collect(s.writeBatch, DataFor(g)), Collect(s.writes, DataFor(g));
    assert batch + (queued + DataFor(g)(r)) == batch + queued + DataFor(g)(r);
  }

  lemma PushWriteGood(s: State, w: nat, g: nat)
    requires Inv(s) && Enabled(s, PushWrite(w)) && g < |s.conns|
    ensures GoodAt(Step(s, PushWrite(w)), g)
  {
    hide ReceiveAll, Collect, Shape, Step, Enabled;
    WorkerStep(s, PushWrite(w));
    var r := s.workers[w];
    assert GoodAt(s, g);
    WorkerView(s, w, WritePushed(r.fd, r.gen), g);
    PendingPush(s, Write(r.fd, r.gen, r.reply), g);
    var v, v' := ViewOf(s, g), ViewOf(Step(s, PushWrite(w)), g);
    if r.gen == g {
      assert v.replied == [r.reply] && v'.replied == [];
      PushWriteKeeps(v, v');
    } else {
      assert v.pending + [] == v.pending;
      assert v' == v;
    }
  }

  lemma PushCompletionGood(s: State, w: nat, g: nat)
    requires Inv(s) && Enabled(s, PushCompletion(w)) && g < |s.conns|
    ensures GoodAt(Step(s, PushCompletion(w)), g)
  {
    hide ReceiveAll, Collect, Shape, Step, Enabled;
    WorkerStep(s, PushCompletion(w));
    var r := s.workers[w];
    assert GoodAt(s, g);
    WorkerView(s, w, CompletionPushed, g);
    CollectPush(s.completions, Completion(r.fd, r.gen), AckFor(g));
    var v, v' := ViewOf(s, g), ViewOf(Step(s, PushCompletion(w)), g);
    if r.gen == g {
      PushCompletionKeeps(v, v');
    } else {
      assert v' == v;
    }
  }

  lemma PokeGood(s: State, l: Label, g: nat)
    requires Inv(s) && Enabled(s, l) && (l.PokeWrite? || l.PokeCompletion?) && g < |s.conns|
    ensures GoodAt(Step(s, l), g)
  {
    hide ReceiveAll, Collect, Shape, Step, Enabled;
    WorkerStep(s, l);
    assert GoodAt(s, g);
    WorkerView(s, l.w, if l.PokeWrite? then WritePoked(s.workers[l.w].fd, s.workers[l.w].gen) else Idle, g);
    assert ViewOf(Step(s, l), g) == ViewOf(s, g);
  }

  lemma NothingForNewcomer(s: State)
    requires AllTagged(s)
    ensures
      var g := |s.conns|;
      && Collect(s.tasks, TaskFor(g)) == []
      && Collect(s.workers, TakenFor(g)) == [] && Collect(s.workers, RepliedFor(g)) == []
      && Collect(s.workers, PastFor(g)) == []
      && Collect(s.completions, AckFor(g)) == [] && Collect(s.completionBatch, AckFor(g)) == []
      && Collect(s.writes, DataFor(g)) == [] && Collect(s.writeBatch, DataFor(g)) == []
  {
    hide Collect;
    var g := |s.conns|;
    assert forall i :: 0 <= i < |s.workers| ==> WorkerTagged(s, s.workers[i]);
    CollectNothing(s.tasks, TaskFor(g));
    CollectNothing(s.workers, TakenFor(g));
    CollectNothing(s.workers, RepliedFor(g));
    CollectNothing(s.workers, PastFor(g));
    CollectNothing(s.completions, AckFor(g));
    CollectNothing(s.completionBatch, AckFor(g));
    CollectNothing(s.writes, DataFor(g));
    CollectNothing(s.writeBatch, DataFor(g));
  }

  lemma NewcomerGood(fd: Fd)
    ensures Good(View(NewConn(fd), [], [], [], 0, 0, [])) && InboxMatches(NewConn(fd))
  {
  }

  lemma AcceptGood(s: State, fd: Fd, g: nat)
    requires Inv(s) && Enabled(s, Accept(fd)) && g <= |s.conns|
    ensures GoodAt(Step(s, Accept(fd)), g)
  {
    hide Good, Collect, InboxMatches, TableMatches, Tagged, WorkerTagged, Step, Enabled;
    NothingForNewcomer(s);
    AcceptStep(s, fd);
    var s' := Step(s, Accept(fd));
    if g < |s.conns| {
      assert GoodAt(s, g);
      assert ViewOf(s', g) == ViewOf(s, g);
    } else {
      NewcomerGood(fd);
      assert ViewOf(s', g) == View(NewConn(fd), [], [], [], 0, 0, []);
    }
  }

  // ---- together ----

  predicate ByReactor(l: Label) {
    || l.Accept? || l.Read? || l.Writable? || l.Close?
    || l.SwapWrites? || l.SwapCompletions? || l.Deliver? || l.Acknowledge?
  }

  lemma StepSize(s: State, l: Label)
    requires Enabled(s, l)
    ensures |Step(s, l).conns| == |s.conns| + (if l.Accept? then 1 else 0)
  {
    hide Receive, Collect;
  }

  lemma ReactorKeepsGood(s: State, l: Label, g: nat)
    requires Inv(s) && Enabled(s, l) && ByReactor(l) && g < |s.conns| + (if l.Accept? then 1 else 0)
    ensures g < |Step(s, l).conns| && GoodAt(Step(s, l), g)
  {
    StepSize(s, l);
    hide GoodAt, ReadInto, WriteOut, DeliverTo, CompleteAt, CloseConn;
    match l
    case Accept(fd) => AcceptGood(s, fd, g);
    case Read(fd, chunk) => ReadGood(s, s.fds[fd], chunk, g);
    case Writable(fd, taken, fatal) => WriteGood(s, s.fds[fd], taken, fatal, g);
    case Close(fd) => CloseGood(s, s.fds[fd], g);
    case Deliver(taken, fatal) => DeliverGood(s, taken, fatal, g);
    case Acknowledge => AcknowledgeGood(s, g);
    case _ => SwapGood(s, l, g);
  }

  lemma SwapGood(s: State, l: Label, g: nat)
    requires Inv(s) && Enabled(s, l) && (l.SwapWrites? || l.SwapCompletions?) && g < |s.conns|
    ensures GoodAt(Step(s, l), g)
  {
    hide Good, InboxMatches, Collect;
    assert GoodAt(s, g);
    SwapView(s, l, g);
  }

  lemma OthersKeepGood(s: State, l: Label, g: nat)
    requires Inv(s) && Enabled(s, l) && !ByReactor(l) && g < |s.conns|
    ensures g < |Step(s, l).conns| && GoodAt(Step(s, l), g)
  {
    hide Good, InboxMatches, Collect, Shape;
    assert GoodAt(s, g);
    match l
    case Take(w) => TakeGood(s, w, g);
    case Execute(w, reply) => ExecuteGood(s, w, reply, g);
    case PushWrite(w) => PushWriteGood(s, w, g);
    case PokeWrite(w, dropped) => PokeGood(s, l, g);
    case PushCompletion(w) => PushCompletionGood(s, w, g);
    case PokeCompletion(w, dropped) => PokeGood(s, l, g);
    case _ =>
  }

  lemma StepKeepsGood(s: State, l: Label, g: nat)
    requires Inv(s) && Enabled(s, l) && g < |Step(s, l).conns|
    ensures GoodAt(Step(s, l), g)
  {
    StepSize(s, l);
    hide Step, Enabled, Inv, GoodAt;
    if ByReactor(l) {
      ReactorKeepsGood(s, l, g);
    } else {
      OthersKeepGood(s, l, g);
    }
  }

  lemma StepKeepsInv(s: State, l: Label)
    requires Inv(s) && Enabled(s, l)
    ensures Inv(Step(s, l))
  {
    hide Step, GoodAt, Shape;
    assert Shape(s);
    StepKeepsShape(s, l);
    forall g | 0 <= g < |Step(s, l).conns|
      ensures GoodAt(Step(s, l), g)
    {
      StepKeepsGood(s, l, g);
    }
  }

  lemma InitInv(n: nat)
    ensures Inv(Init(n))
  {
  }

  /** The invariant holds after every run: any number of workers, connections, closes and interleavings. */
  lemma {:induction false} RunKeepsInv(s: State, run: seq<Label>)
    requires Inv(s) && IsRun(s, run)
    ensures Inv(After(s, run))
    decreases |run|
  {
    hide Inv, Step, Enabled;
    if run != [] {
      StepKeepsInv(s, run[0]);
      RunKeepsInv(Step(s, run[0]), run[1..]);
    }
  }
}
