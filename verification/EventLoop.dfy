/**
 * The reactor's own code as it runs on one thread: the send buffer of src/net/Connection.hpp and the
 * handlers and queue loops of src/net/EpollReactor.cpp. Each handler is proved to be a run of the
 * transition system, so the theorems about runs are theorems about this code.
 */
module EventLoop {
  import opened ByteStrings
  import opened RespParser
  import opened Framing
  import opened Sequences
  import opened Reactor

  // ---- Connection: the send buffer ----

  /** What one `write` call returns. */
  datatype Response = Took(n: nat) | WouldBlock | Failed

  predicate Progress(r: Response) { r.Took? && r.n > 0 }

  /** The bytes the kernel took in its first `calls` answers. */
  ghost function TookBy(kernel: nat -> Response, calls: nat): nat {
    if calls == 0 then 0
    else TookBy(kernel, calls - 1) + (if kernel(calls - 1).Took? then kernel(calls - 1).n else 0)
  }

  class SendBuffer {
    var buf: bytes
    var offset: nat
    ghost var sent: bytes

    ghost predicate Valid()
      reads this
    {
      offset <= |buf|
    }

    ghost function Unsent(): bytes
      requires Valid()
      reads this
    {
      buf[offset..]
    }

    constructor ()
      ensures Valid() && Unsent() == [] && sent == []
    {
      buf, offset, sent := [], 0, [];
    }

    method Enqueue(data: bytes)
      requires Valid()
      modifies this`buf
      ensures Valid() && Unsent() == old(Unsent()) + data
    {
      buf := buf + data;
    }

    /**
     * Writes until the buffer is empty (0), the socket would block (1) or fails (-1), in `calls` calls. Whatever the
     * kernel answers, the bytes it took are a prefix of what was unsent, and the rest stays in order.
     */
    method Flush(kernel: nat -> Response) returns (r: int, taken: nat, ghost calls: nat)
      requires Valid()
      modifies this
      ensures Valid() && taken <= |old(Unsent())|
      ensures sent == old(sent) + old(Unsent())[..taken] && Unsent() == old(Unsent())[taken..]
      ensures taken == AtMost(TookBy(kernel, calls), |old(Unsent())|)
      ensures r == 0 || r == 1 || r == -1
      ensures r == 0 <==> Unsent() == []
      ensures r == 0 ==> buf == [] && offset == 0
      ensures r != 0 ==> 0 < calls && !Progress(kernel(calls - 1)) && (r == 1 <==> kernel(calls - 1).WouldBlock?)
      ensures forall i :: 0 <= i < (if r == 0 then calls else calls - 1) ==> Progress(kernel(i))
    {
      hide TookBy;
      var count := 0;
      taken, calls := 0, 0;
      NoneTaken(kernel);
      ghost var data := Unsent();
      while offset < |buf|
        invariant Valid() && buf == old(buf) && offset == old(offset) + taken
        invariant taken <= |data| && sent == old(sent) + data[..taken] && buf[offset..] == data[taken..]
        invariant taken == AtMost(TookBy(kernel, calls), |data|)
        invariant calls == count && forall i :: 0 <= i < calls ==> Progress(kernel(i))
        decreases |buf| - offset
      {
        var response := kernel(count);
        count, calls := count + 1, calls + 1;
        OneMoreCall(kernel, calls);
        if response.Took? && response.n > 0 {
          var n := if response.n <= |buf| - offset then response.n else |buf| - offset;
          assert |buf| - offset == |data| - taken;
          SplitMore(data, taken, n, buf, offset);
          sent := sent + buf[offset..offset + n];
          offset := offset + n;
          taken := taken + n;
        } else if response.WouldBlock? {
          return 1, taken, calls;
        } else {
          return -1, taken, calls;
        }
      }
      buf, offset := [], 0;
      r := 0;
    }
  }

  function AtMost(n: nat, most: nat): nat { if n <= most then n else most }

  lemma NoneTaken(kernel: nat -> Response)
    ensures TookBy(kernel, 0) == 0
  {
  }

  lemma OneMoreCall(kernel: nat -> Response, calls: nat)
    requires 0 < calls
    ensures TookBy(kernel, calls)
         == TookBy(kernel, calls - 1) + (if kernel(calls - 1).Took? then kernel(calls - 1).n else 0)
  {
  }

  /** Taking `n` more bytes of `data` from the front of what is left of it. */
  lemma SplitMore(data: bytes, taken: nat, n: nat, buf: bytes, offset: nat)
    requires offset + n <= |buf| && taken + n <= |data| && buf[offset..] == data[taken..]
    ensures data[..taken + n] == data[..taken] + buf[offset..offset + n]
    ensures buf[offset + n..] == data[taken + n..]
  {
    assert buf[offset..offset + n] == buf[offset..][..n] && buf[offset + n..] == buf[offset..][n..];
    assert data[taken + n..] == data[taken..][n..];
  }

  // ---- runs ----

  lemma {:induction false} RunPush(s: State, run: seq<Label>, l: Label)
    requires IsRun(s, run) && Enabled(After(s, run), l)
    ensures IsRun(s, run + [l]) && After(s, run + [l]) == Step(After(s, run), l)
    decreases |run|
  {
    hide Enabled, Step;
    if run == [] {
      assert (run + [l])[1..] == [];
    } else {
      RunPush(Step(s, run[0]), run[1..], l);
      assert (run + [l])[1..] == run[1..] + [l];
    }
  }

  // ---- EpollReactor: handlers and queue loops ----

  /** What came of one flush: how many bytes the socket took, and whether it then failed. */
  datatype Outcome = Outcome(taken: nat, fatal: bool)

  class Loop {
    var conns: seq<Conn>
    var fds: map<Fd, nat>
    var tasks: seq<Task>
    var writes: seq<Write>
    var completions: seq<Completion>
    var buffers: seq<SendBuffer>  // each connection's own send buffer

    /** The send buffer of an open connection holds what the model calls its unsent and sent bytes. */
    ghost predicate Backed(g: nat)
      requires g < |conns| == |buffers|
      reads this, buffers
    {
      buffers[g].Valid() && buffers[g].Unsent() == conns[g].unsent && buffers[g].sent == conns[g].sent
    }

    ghost predicate Valid()
      reads this, buffers
    {
      Table() && forall g :: 0 <= g < |conns| && conns[g].open ==> Backed(g)
    }

    /** Each connection has a send buffer of its own, and each descriptor an open connection. */
    ghost predicate Table()
      reads this
    {
      && |buffers| == |conns|
      && (forall i, j :: 0 <= i < j < |buffers| ==> buffers[i] != buffers[j])
      && forall fd :: fd in fds ==> fds[fd] < |conns| && conns[fds[fd]].fd == fd && conns[fds[fd]].open
    }

    /** The state of the whole system: these fields, and `rest` for everything else. */
    ghost function In(rest: State): State
      reads this
    {
      rest.(conns := conns, fds := fds, tasks := tasks, writes := writes, completions := completions)
    }

    method HandleAccept(fd: Fd, ghost rest: State)
      requires Valid() && fd !in fds && rest.phase == Handling
      modifies this`conns, this`fds, this`buffers
      ensures Valid() && In(rest) == Step(old(In(rest)), Accept(fd))
      ensures fresh(set b | b in buffers && b !in old(buffers))
    {
      var buffer := new SendBuffer();
      fds := fds[fd := |conns|];
      conns := conns + [NewConn(fd)];
      buffers := buffers + [buffer];
    }

    method HandleClose(fd: Fd)
      requires Valid()
      modifies this`conns, this`fds
      ensures Valid() && fds == old(fds) - {fd}
      ensures fd !in old(fds) ==> conns == old(conns)
      ensures fd in old(fds) ==>
        conns == old(conns)[old(fds[fd]) := old(conns)[old(fds[fd])].(open := false, queue := [], unsent := [])]
      ensures fd in old(fds) ==> forall rest :: In(rest) == CloseConn(old(In(rest)), old(fds[fd]))
    {
      if fd !in fds {
        return;
      }
      var g := fds[fd];
      var c := conns[g];
      fds := fds - {fd};
      conns := conns[g := c.(open := false, queue := [], unsent := [])];
    }

    method DispatchNextCommand(g: nat)
      requires Valid() && g < |conns|
      modifies this`conns, this`tasks
      ensures Valid() && forall rest :: In(rest) == Dispatch(old(In(rest)), g)
    {
      var c := conns[g];
      if c.queue == [] {
        return;
      }
      conns := conns[g := c.(processing := true, queue := c.queue[1..])];
      tasks := tasks + [Task(c.fd, g, c.queue[0])];
    }

    /** The commands of one read event that go on the queue: empty ones are skipped. */
    method Enqueueable(cmds: seq<Command>) returns (added: seq<Command>)
      ensures added == Collect(cmds, NonEmpty)
    {
      added := [];
      for i := 0 to |cmds|
        invariant added == Collect(cmds[..i], NonEmpty)
      {
        CollectPush(cmds[..i], cmds[i], NonEmpty);
        assert cmds[..i + 1] == cmds[..i] + [cmds[i]];
        if cmds[i] != [] {
          added := added + [cmds[i]];
        }
      }
      assert cmds[..|cmds|] == cmds;
    }

    /** A connection's own bookkeeping, its send buffer aside. */
    method Replace(g: nat, c: Conn)
      requires Valid() && g < |conns|
      requires c.fd == conns[g].fd && c.open == conns[g].open && c.unsent == conns[g].unsent && c.sent == conns[g].sent
      modifies this`conns
      ensures Valid() && conns == old(conns)[g := c]
    {
      conns := conns[g := c];
      assert forall i :: 0 <= i < |conns| && conns[i].open ==> old(Backed(i));
    }

    method HandleRead(fd: Fd, chunk: bytes, ghost rest: State)
      requires Valid() && rest.phase == Handling
      modifies this`conns, this`fds, this`tasks
      ensures Valid()
      ensures fd !in old(fds) ==> In(rest) == old(In(rest))
      ensures fd in old(fds) ==> In(rest) == Step(old(In(rest)), Read(fd, chunk))
    {
      hide Collect, Extract, Loop.Valid;
      if fd !in fds {
        return;
      }
      LiveEntry(fd);
      var g := fds[fd];
      var c := conns[g];
      var data := c.buf + chunk;
      if |data| > MAX_RECV_BYTES {
        HandleClose(fd);
        return;
      }
      var alive, cmds, kept := ExtractFrames(data);
      if !alive {
        HandleClose(fd);
        return;
      }
      assert [] + cmds == cmds;
      var added := Enqueueable(cmds);
      c := c.(buf := kept, queue := c.queue + added,
              received := c.received + [chunk], accepted := c.accepted + added);
      Replace(g, c);
      if c.queue != [] && !c.processing {
        DispatchNextCommand(g);
      }
    }

    /** `conn->flush()`: the connection's send buffer is written until it is empty, blocks or fails. */
    method FlushConn(g: nat, kernel: nat -> Response) returns (o: Outcome)
      requires Valid() && g < |conns| && conns[g].open
      modifies this`conns, buffers
      ensures Valid() && o.taken <= |old(conns)[g].unsent|
      ensures o.fatal ==> o.taken < |old(conns)[g].unsent|
      ensures o.taken < |old(conns)[g].unsent| ==>
        exists call :: 0 <= call && !Progress(kernel(call)) && (o.fatal <==> !kernel(call).WouldBlock?)
      ensures conns == old(conns)[g := Reactor.Flush(old(conns)[g], o.taken)]
    {
      hide TookBy, Progress, Loop.Valid;
      o := FlushBuffer(g, kernel);
      TakeOver(g, o.taken);
    }

    /** The buffer's own part. */
    method FlushBuffer(g: nat, kernel: nat -> Response) returns (o: Outcome)
      requires Valid() && g < |conns| && conns[g].open
      modifies buffers
      ensures o.taken <= |conns[g].unsent| && (o.fatal ==> o.taken < |conns[g].unsent|)
      ensures o.taken < |conns[g].unsent| ==>
        exists call :: 0 <= call && !Progress(kernel(call)) && (o.fatal <==> !kernel(call).WouldBlock?)
      ensures Table() && buffers[g].Valid()
      ensures buffers[g].Unsent() == conns[g].unsent[o.taken..]
      ensures buffers[g].sent == conns[g].sent + conns[g].unsent[..o.taken]
      ensures forall i :: 0 <= i < |conns| && i != g && conns[i].open ==> Backed(i)
    {
      hide TookBy;
      assert Backed(g);
      var r, taken, calls := buffers[g].Flush(kernel);
      forall i | 0 <= i < |conns| && i != g && conns[i].open
        ensures Backed(i)
      {
        assert old(Backed(i)) && buffers[i] != buffers[g];
      }
      o := Outcome(taken, r == -1);
    }

    /** And the connection's: what the buffer got rid of counts as sent. */
    method TakeOver(g: nat, taken: nat)
      requires Table() && g < |conns| && conns[g].open && taken <= |conns[g].unsent|
      requires buffers[g].Valid() && buffers[g].Unsent() == conns[g].unsent[taken..]
      requires buffers[g].sent == conns[g].sent + conns[g].unsent[..taken]
      requires forall i :: 0 <= i < |conns| && i != g && conns[i].open ==> Backed(i)
      modifies this`conns
      ensures Valid() && conns == old(conns)[g := Reactor.Flush(old(conns)[g], taken)]
    {
      conns := conns[g := Reactor.Flush(conns[g], taken)];
      assert Backed(g);
      forall i | 0 <= i < |conns| && i != g && conns[i].open
        ensures Backed(i)
      {
        assert old(Backed(i));
      }
    }

    /** EPOLLOUT into the interest set, or out of it. */
    method Arm(g: nat, armed: bool)
      requires Valid() && g < |conns|
      modifies this`conns
      ensures Valid() && conns == old(conns)[g := old(conns)[g].(armed := armed)]
    {
      conns := conns[g := conns[g].(armed := armed)];
      assert forall i :: 0 <= i < |conns| && conns[i].open ==> old(Backed(i));
    }

    /** `conn->send_enqueue(data)`. */
    method EnqueueOn(g: nat, data: bytes)
      requires Valid() && g < |conns| && conns[g].open
      modifies this`conns, buffers
      ensures Valid() && conns == old(conns)[g := old(conns)[g].(unsent := old(conns)[g].unsent + data)]
    {
      assert Backed(g);
      buffers[g].Enqueue(data);
      conns := conns[g := conns[g].(unsent := conns[g].unsent + data)];
    }

    method HandleWrite(fd: Fd, kernel: nat -> Response, ghost rest: State) returns (o: Outcome)
      requires Valid() && rest.phase == Handling
      modifies this`conns, this`fds, buffers
      ensures Valid()
      ensures fd !in old(fds) ==> In(rest) == old(In(rest))
      ensures fd in old(fds) ==>
        && Enabled(old(In(rest)), Writable(fd, o.taken, o.fatal))
        && In(rest) == Step(old(In(rest)), Writable(fd, o.taken, o.fatal))
    {
      hide Loop.Valid;
      o := Outcome(0, false);
      if fd !in fds {
        return;
      }
      LiveEntry(fd);
      o := WriteHere(fd, fds[fd], kernel);
    }

    lemma LiveEntry(fd: Fd)
      requires Valid() && fd in fds
      ensures fds[fd] < |conns| && conns[fds[fd]].open && conns[fds[fd]].fd == fd
    {
    }

    /** Its part for a descriptor that is known. */
    method WriteHere(fd: Fd, g: nat, kernel: nat -> Response) returns (o: Outcome)
      requires Valid() && fd in fds && fds[fd] == g
      modifies this`conns, this`fds, buffers
      ensures Valid() && g < |old(conns)| && o.taken <= |old(conns)[g].unsent|
      ensures
        var c := Reactor.Flush(old(conns)[g], o.taken);
        if c.unsent == [] then conns == old(conns)[g := c.(armed := false)] && fds == old(fds)
        else if o.fatal then
          && fds == old(fds) - {fd}
          && conns == old(conns)[g := c.(open := false, queue := [], unsent := [])]
        else conns == old(conns)[g := c] && fds == old(fds)
    {
      hide Loop.Valid;
      LiveEntry(fd);
      o := FlushConn(g, kernel);
      if conns[g].unsent == [] {
        Arm(g, false);
      } else if o.fatal {
        HandleClose(fd);
      }
    }

    /** `send`, on worker `w`'s thread: the push under the lock, before the pipe write. */
    method Send(fd: Fd, g: nat, data: bytes, ghost rest: State, ghost w: nat)
      requires w < |rest.workers| && rest.workers[w] == Replied(fd, g, data)
      modifies this`writes
      ensures Enabled(old(In(rest)), PushWrite(w))
      ensures In(rest.(workers := rest.workers[w := WritePushed(fd, g)])) == Step(old(In(rest)), PushWrite(w))
    {
      writes := writes + [Write(fd, g, data)];
    }

    /** `notify_command_complete`, likewise. */
    method NotifyCommandComplete(fd: Fd, g: nat, ghost rest: State, ghost w: nat)
      requires w < |rest.workers| && rest.workers[w] == WritePoked(fd, g)
      modifies this`completions
      ensures Enabled(old(In(rest)), PushCompletion(w))
      ensures In(rest.(workers := rest.workers[w := CompletionPushed])) == Step(old(In(rest)), PushCompletion(w))
    {
      completions := completions + [Completion(fd, g)];
    }

    /** The body of the loop in `process_pending_writes`. */
    method DeliverOne(w: Write, kernel: nat -> Response) returns (o: Outcome)
      requires Valid()
      modifies this`conns, this`fds, buffers
      ensures Valid()
      ensures forall rest :: !Reaches(old(In(rest)), w.fd, w.gen) ==> In(rest) == old(In(rest))
      ensures forall rest :: Reaches(old(In(rest)), w.fd, w.gen) ==>
        && o.taken <= |old(conns)[w.gen].unsent + w.data|
        && In(rest) == DeliverTo(old(In(rest)), w.gen, w.data, o.taken, o.fatal)
    {
      o := Outcome(0, false);
      if w.fd !in fds || fds[w.fd] != w.gen {
        return;
      }
      o := DeliverHere(w.fd, w.gen, w.data, kernel);
    }

    /** Its part for a write that has reached its connection. */
    method DeliverHere(fd: Fd, g: nat, data: bytes, kernel: nat -> Response) returns (o: Outcome)
      requires Valid() && fd in fds && fds[fd] == g
      modifies this`conns, this`fds, buffers
      ensures Valid() && g < |old(conns)| && o.taken <= |old(conns)[g].unsent + data|
      ensures
        var c := Reactor.Flush(old(conns)[g].(unsent := old(conns)[g].unsent + data), o.taken);
        if c.unsent == [] then conns == old(conns)[g := c] && fds == old(fds)
        else if o.fatal then
          && fds == old(fds) - {fd}
          && conns == old(conns)[g := c.(open := false, queue := [], unsent := [])]
        else conns == old(conns)[g := c.(armed := true)] && fds == old(fds)
    {
      hide Loop.Valid;
      LiveEntry(fd);
      EnqueueOn(g, data);
      o := FlushConn(g, kernel);
      if conns[g].unsent != [] {
        if o.fatal {
          HandleClose(fd);
        } else {
          Arm(g, true);
        }
      }
    }

    /** `process_pending_writes`: swap the queue out, deliver it in order. The kernel answers for each write in turn. */
    method ProcessPendingWrites(kernel: (nat, nat) -> Response, ghost rest: State) returns (ghost run: seq<Label>)
      requires Valid() && rest.phase.WritesDue? && rest.writeBatch == []
      modifies this`conns, this`fds, this`writes, buffers
      ensures Valid() && IsRun(old(In(rest)), run)
      ensures After(old(In(rest)), run) == In(rest.(phase := CompletionsDue(rest.phase.last)))
    {
      hide Step, Enabled, DeliverTo;
      ghost var start := In(rest);
      var batch := writes;
      writes := [];
      ghost var busy := rest.(phase := Delivering(rest.phase.last));
      SwapWritesStep(start);
      assert batch[0..] == batch;
      run := [SwapWrites];
      RunPush(start, [], SwapWrites);
      for i := 0 to |batch|
        invariant Valid() && IsRun(start, run)
        invariant After(start, run) == In(busy.(writeBatch := batch[i..]))
      {
        ghost var before := In(busy.(writeBatch := batch[i..]));
        assert batch[i..][0] == batch[i] && batch[i..][1..] == batch[i + 1..];
        var o := DeliverOne(batch[i], (call: nat) => kernel(i, call));
        DeliverStep(before, o.taken, o.fatal);
        RunPush(start, run, Deliver(o.taken, o.fatal));
        run := run + [Deliver(o.taken, o.fatal)];
      }
      assert batch[|batch|..] == [];
      WritesDoneStep(After(start, run));
      RunPush(start, run, WritesDone);
      run := run + [WritesDone];
    }

    /** The body of the loop in `process_completed_commands`. */
    method CompleteOne(c: Completion)
      requires Valid()
      modifies this`conns, this`tasks
      ensures Valid()
      ensures forall rest :: !Reaches(old(In(rest)), c.fd, c.gen) ==> In(rest) == old(In(rest))
      ensures forall rest :: Reaches(old(In(rest)), c.fd, c.gen) ==> In(rest) == CompleteAt(old(In(rest)), c.gen)
    {
      if c.fd !in fds || fds[c.fd] != c.gen {
        return;
      }
      conns := conns[c.gen := conns[c.gen].(processing := false)];
      if conns[c.gen].queue != [] {
        DispatchNextCommand(c.gen);
      }
    }

    /** `process_completed_commands`: swap the queue out, work it off in order. */
    method ProcessCompletedCommands(ghost rest: State) returns (ghost run: seq<Label>)
      requires Valid() && rest.phase.CompletionsDue? && rest.completionBatch == []
      modifies this`conns, this`tasks, this`completions
      ensures Valid() && IsRun(old(In(rest)), run)
      ensures After(old(In(rest)), run) == In(rest.(phase := if rest.phase.last then Polling else Handling))
    {
      hide Step, Enabled, CompleteAt;
      ghost var start := In(rest);
      var batch := completions;
      completions := [];
      ghost var busy := rest.(phase := Completing(rest.phase.last));
      SwapCompletionsStep(start);
      assert batch[0..] == batch;
      run := [SwapCompletions];
      RunPush(start, [], SwapCompletions);
      for i := 0 to |batch|
        invariant Valid() && IsRun(start, run)
        invariant After(start, run) == In(busy.(completionBatch := batch[i..]))
      {
        ghost var before := In(busy.(completionBatch := batch[i..]));
        assert batch[i..][0] == batch[i] && batch[i..][1..] == batch[i + 1..];
        CompleteOne(batch[i]);
        AcknowledgeStep(before);
        RunPush(start, run, Acknowledge);
        run := run + [Acknowledge];
      }
      assert batch[|batch|..] == [];
      CompletionsDoneStep(After(start, run));
      RunPush(start, run, CompletionsDone);
      run := run + [CompletionsDone];
    }
  }
}
