/** From a client's bytes to the replies it decodes, across parser, reactor protocol and encoder. */
module EndToEnd {
  import opened ByteStrings
  import opened RespParser
  import opened Framing
  import opened Pipelines
  import opened Sequences
  import opened Reactor
  import opened ReactorViews
  import opened ReactorSafety
  import opened ReactorTheorems
  import opened Replies
  import opened Commands
  import opened ReplyStreams

  // ---- replies come from dispatch ----

  /** The reply is what `on_message` sends for the command, whatever it finds in the store. */
  ghost predicate Genuine(a: Answer) {
    exists call: Call :: Explains(call, a.args) && a.reply == BytesOfCall(call)
  }

  predicate Explains(call: Call, args: Command) {
    call.args == Normalized(args) && Holdable(call.m, call.info)
  }

  /** A run whose workers execute commands by dispatching them. */
  ghost predicate Dispatched(s: State, run: seq<Label>)
    requires IsRun(s, run)
    decreases |run|
  {
    run != [] ==>
      && (run[0].Execute? ==> Genuine(Answer(s.workers[run[0].w].task.args, run[0].reply)))
      && Dispatched(Step(s, run[0]), run[1..])
  }

  ghost predicate AllGenuine(s: State) {
    forall g, i :: 0 <= g < |s.conns| && 0 <= i < |s.conns[g].done| ==> Genuine(s.conns[g].done[i])
  }

  /** Only executing a command adds to what a connection has done. */
  lemma DoneStep(s: State, l: Label, g: nat)
    requires Enabled(s, l) && g < |Step(s, l).conns|
    ensures Step(s, l).conns[g].done ==
      (if g >= |s.conns| then []
       else if l.Execute? && s.workers[l.w].task.gen == g then
         s.conns[g].done + [Answer(s.workers[l.w].task.args, l.reply)]
       else s.conns[g].done)
  {
    hide Step;
    if l.Execute? {
      ExecuteDone(s, l.w, l.reply, g);
    } else if ByWorker(l) {
      WorkerConns(s, l);
    } else {
      ReactorDone(s, l, g);
    }
  }

  lemma ExecuteDone(s: State, w: nat, reply: bytes, g: nat)
    requires Enabled(s, Execute(w, reply)) && g < |Step(s, Execute(w, reply)).conns|
    ensures
      var t, s' := s.workers[w].task, Step(s, Execute(w, reply));
      && g < |s.conns|
      && s'.conns[g].done == s.conns[g].done + if t.gen == g then [Answer(t.args, reply)] else []
  {
  }

  lemma WorkerConns(s: State, l: Label)
    requires Enabled(s, l) && ByWorker(l) && !l.Execute?
    ensures Step(s, l).conns == s.conns
  {
  }

  lemma ReactorDone(s: State, l: Label, g: nat)
    requires Enabled(s, l) && !ByWorker(l) && g < |Step(s, l).conns|
    ensures Step(s, l).conns[g].done == if g >= |s.conns| then [] else s.conns[g].done
  {
    hide ReadInto, WriteOut, CloseConn, DeliverTo, CompleteAt;
    match l
    case Read(fd, chunk) => ReadDone(s, s.fds[fd], chunk);
    case Writable(fd, taken, fatal) => WriteDone(s, s.fds[fd], taken, fatal);
    case Close(fd) => CloseDone(s, s.fds[fd]);
    case Deliver(taken, fatal) =>
      var w := s.writeBatch[0];
      if Reaches(s, w.fd, w.gen) {
        DeliverDone(s.(writeBatch := s.writeBatch[1..]), w.gen, w.data, taken, fatal);
      }
    case Acknowledge =>
      var c := s.completionBatch[0];
      if Reaches(s, c.fd, c.gen) {
        CompleteDone(s.(completionBatch := s.completionBatch[1..]), c.gen);
      }
    case _ =>
  }

  /** The same connections, each with the same history of executed commands. */
  predicate SameDone(s: State, s': State) {
    |s'.conns| == |s.conns| && forall g :: 0 <= g < |s.conns| ==> s'.conns[g].done == s.conns[g].done
  }

  lemma ReadDone(s: State, g: nat, chunk: bytes)
    requires g < |s.conns|
    ensures SameDone(s, ReadInto(s, g, chunk))
  {
    hide Receive, Collect;
  }

  lemma WriteDone(s: State, g: nat, taken: nat, fatal: bool)
    requires g < |s.conns| && taken <= |s.conns[g].unsent|
    ensures SameDone(s, WriteOut(s, g, taken, fatal))
  {
  }

  lemma CloseDone(s: State, g: nat)
    requires g < |s.conns|
    ensures SameDone(s, CloseConn(s, g))
  {
  }

  lemma DeliverDone(s: State, g: nat, data: bytes, taken: nat, fatal: bool)
    requires g < |s.conns| && taken <= |s.conns[g].unsent + data|
    ensures SameDone(s, DeliverTo(s, g, data, taken, fatal))
  {
  }

  lemma CompleteDone(s: State, g: nat)
    requires g < |s.conns|
    ensures SameDone(s, CompleteAt(s, g))
  {
  }

  lemma StepKeepsGenuine(s: State, l: Label)
    requires Enabled(s, l) && AllGenuine(s)
    requires l.Execute? ==> Genuine(Answer(s.workers[l.w].task.args, l.reply))
    ensures AllGenuine(Step(s, l))
  {
    hide Genuine, Step;
    forall g, i | 0 <= g < |Step(s, l).conns| && 0 <= i < |Step(s, l).conns[g].done|
      ensures Genuine(Step(s, l).conns[g].done[i])
    {
      DoneStep(s, l, g);
    }
  }

  lemma {:induction false} RunKeepsGenuine(s: State, run: seq<Label>)
    requires IsRun(s, run) && Dispatched(s, run) && AllGenuine(s)
    ensures AllGenuine(After(s, run))
    decreases |run|
  {
    hide Genuine, AllGenuine, Step, Enabled;
    if run != [] {
      StepKeepsGenuine(s, run[0]);
      RunKeepsGenuine(Step(s, run[0]), run[1..]);
    }
  }

  // ---- one reply value per request ----

  /** The value is the reply to the command on some store at some time. */
  ghost predicate AnswersTo(r: Reply, args: Command) {
    exists call: Call :: Explains(call, args) && r == ReplyOfCall(call)
  }

  /** The calls of dispatch behind what a connection has done. */
  lemma {:induction false} CallsBehind(done: seq<Answer>) returns (calls: seq<Call>)
    requires forall i :: 0 <= i < |done| ==> Genuine(done[i])
    ensures |calls| == |done| == |Collect(done, ArgsOf)|
    ensures forall i :: 0 <= i < |done| ==>
      Explains(calls[i], done[i].args) && Collect(done, ArgsOf)[i] == done[i].args
    ensures Collect(done, ReplyOf) == Collect(calls, BytesOfCall)
  {
    hide BytesOfCall, Explains;
    if done == [] {
      calls := [];
    } else {
      assert Genuine(done[0]);
      var call: Call :| Explains(call, done[0].args) && done[0].reply == BytesOfCall(call);
      var later := CallsBehind(done[1..]);
      calls := [call] + later;
      assert calls[1..] == later;
    }
  }

  /** The command a request asks for. */
  function Asked(r: Request): Command { if |Meaning(r)| == 1 then Meaning(r)[0] else [] }

  lemma {:induction false} OneMeaningEach(requests: seq<Request>)
    requires forall i :: 0 <= i < |requests| ==> Sendable(requests[i]) && Asked(requests[i]) != []
    ensures Collect(Collect(requests, Meaning), NonEmpty) == Collect(requests, Meaning)
    ensures |Collect(requests, Meaning)| == |requests|
    ensures forall i :: 0 <= i < |requests| ==> Collect(requests, Meaning)[i] == Asked(requests[i])
  {
    hide Meaning;
    if requests != [] {
      var m := Meaning(requests[0]);
      assert |m| == 1 by { MeaningIsOne(requests[0]); }
      OneMeaningEach(requests[1..]);
      var later := Collect(requests[1..], Meaning);
      assert m == [m[0]];
      CollectAppend(m, later, NonEmpty);
      CollectOne(m[0], NonEmpty);
    }
  }

  lemma MeaningIsOne(r: Request)
    requires Sendable(r)
    ensures |Meaning(r)| == 1
  {
  }

  /** What a client must keep to: non-empty commands of sizes a machine can hold, no CR LF in an unknown one's echo. */
  predicate Polite(r: Request) {
    && Sendable(r) && Asked(r) != [] && ArgsFit(Asked(r)) && Speakable(Normalized(Asked(r)))
  }

  lemma NormalizedFits(args: Command)
    requires ArgsFit(args)
    ensures ArgsFit(Normalized(args))
  {
  }

  /**
   * A client pipelines requests, in any pieces; workers, reactor and other clients interleave in any way,
   * and workers dispatch what they execute. Whenever the server sleeps with this client's send buffer
   * empty, the client decodes exactly one value per request from the bytes it got, in request order, with
   * nothing left over, and each is the reply to its own request.
   */
  lemma OneReplyPerRequest(n: nat, run: seq<Label>, g: nat, requests: seq<Request>)
    requires IsRun(Init(n), run) && Dispatched(Init(n), run)
    requires Asleep(After(Init(n), run)) && g < |After(Init(n), run).conns|
    requires
      var c := After(Init(n), run).conns[g];
      c.open && c.unsent == [] && Stream(c.received) == Collect(requests, Wire)
    requires forall i :: 0 <= i < |requests| ==> Polite(requests[i])
    ensures
      var decoded := DecodeAll(After(Init(n), run).conns[g].sent, |requests|);
      && decoded.Some? && |decoded.value| == |requests|
      && forall i :: 0 <= i < |requests| ==> AnswersTo(decoded.value[i], Asked(requests[i]))
  {
    hide Collect, Meaning, Sendable, DecodeAll, IsRun, After, Asleep, Wire, Explains, ArgsFit, Speakable, Normalized,
      Genuine, Dispatched, ReplyOfCall, BytesOfCall;
    RunKeepsGenuine(Init(n), run);
    var c := After(Init(n), run).conns[g];
    PipelinedClient(n, run, g, requests);
    SleepsOnlyWhenDone(n, run, g);
    OneMeaningEach(requests);
    assert c.sent + [] == c.sent;
    var calls := CallsBehind(c.done);
    forall i | 0 <= i < |calls|
      ensures Holdable(calls[i].m, calls[i].info) && ArgsFit(calls[i].args) && Speakable(calls[i].args)
      ensures AnswersTo(ReplyOfCall(calls[i]), Asked(requests[i]))
    {
      assert Polite(requests[i]) && Explains(calls[i], Asked(requests[i]));
      ExplainedCall(calls[i], Asked(requests[i]));
    }
    DispatchStreamDecodes(calls);
    BytesAreRendered(calls);
  }

  lemma ExplainedCall(call: Call, args: Command)
    requires Explains(call, args) && ArgsFit(args) && Speakable(Normalized(args))
    ensures Holdable(call.m, call.info) && ArgsFit(call.args) && Speakable(call.args)
  {
    hide Speakable;
    NormalizedFits(args);
  }
}
