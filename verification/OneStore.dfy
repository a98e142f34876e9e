/**
 * The whole server: commands of all clients on one shared store. There is one order of all executed
 * commands, which keeps each client's own order, such that every reply is the one the command gets on one
 * map that the commands before it have made.
 */
module OneStore {
  import opened ByteStrings
  import opened RespParser
  import opened Framing
  import opened Pipelines
  import opened Sequences
  import opened Reactor
  import opened ReactorViews
  import opened ReactorSafety
  import opened ReactorTheorems
  import opened Replies
  import opened Aof
  import opened ExpiryLaws
  import opened Commands
  import opened CommandLaws
  import opened ReplyStreams
  import opened EndToEnd
  import Shards
  import Store = StoreRuns

  type Table = Shards.Table

  // ---- the order of execution ----

  datatype Execution = Execution(gen: nat, answer: Answer)

  /** The commands workers execute in a run, in the order in which they do. */
  function Executions(s: State, run: seq<Label>): seq<Execution>
    requires IsRun(s, run)
    decreases |run|
  {
    if run == [] then []
    else ExecutionOf(s, run[0]) + Executions(Step(s, run[0]), run[1..])
  }

  function ExecutionOf(s: State, l: Label): seq<Execution>
    requires Enabled(s, l)
  {
    if !l.Execute? then []
    else
      var t := s.workers[l.w].task;
      [Execution(t.gen, Answer(t.args, l.reply))]
  }

  function AnswersFor(g: nat): Execution -> seq<Answer> {
    (e: Execution) => if e.gen == g then [e.answer] else []
  }

  function DoneBy(s: State, g: nat): seq<Answer> { if g < |s.conns| then s.conns[g].done else [] }

  /** What a connection has executed is its share of the one order, in that order. */
  lemma {:induction false} DoneIsShare(s: State, run: seq<Label>, g: nat)
    requires IsRun(s, run)
    ensures DoneBy(After(s, run), g) == DoneBy(s, g) + Collect(Executions(s, run), AnswersFor(g))
    decreases |run|
  {
    hide Step, Enabled, Collect, DoneBy, ExecutionOf;
    if run == [] {
      CollectNothing([], AnswersFor(g));
      assert DoneBy(s, g) + [] == DoneBy(s, g);
    } else {
      var first, rest := ExecutionOf(s, run[0]), Executions(Step(s, run[0]), run[1..]);
      DoneIsShare(Step(s, run[0]), run[1..], g);
      ShareOfStep(s, run[0], g);
      CollectAppend(first, rest, AnswersFor(g));
      JoinThree(DoneBy(s, g), Collect(first, AnswersFor(g)), Collect(rest, AnswersFor(g)));
    }
  }

  lemma ShareOfStep(s: State, l: Label, g: nat)
    requires Enabled(s, l)
    ensures DoneBy(Step(s, l), g) == DoneBy(s, g) + Collect(ExecutionOf(s, l), AnswersFor(g))
  {
    hide Step, Collect;
    StepSize(s, l);
    if g < |Step(s, l).conns| {
      DoneStep(s, l, g);
    }
    if l.Execute? {
      CollectOne(ExecutionOf(s, l)[0], AnswersFor(g));
    } else {
      CollectNothing(ExecutionOf(s, l), AnswersFor(g));
    }
  }

  /** Where a connection's commands stand in the order. */
  function PositionsOf(es: seq<Execution>, g: nat): seq<nat>
    decreases |es|
  {
    if es == [] then []
    else
      var n := |es| - 1;
      PositionsOf(es[..n], g) + (if es[n].gen == g then [n] else [])
  }

  lemma {:induction false} PositionsAreShare(es: seq<Execution>, g: nat)
    ensures
      var ps, share := PositionsOf(es, g), Collect(es, AnswersFor(g));
      && |ps| == |share|
      && (forall j :: 0 <= j < |ps| ==> ps[j] < |es| && es[ps[j]].gen == g && es[ps[j]].answer == share[j])
      && (forall i, j :: 0 <= i < j < |ps| ==> ps[i] < ps[j])
    decreases |es|
  {
    hide Collect;
    if es == [] {
      CollectNothing(es, AnswersFor(g));
    } else {
      var n := |es| - 1;
      PositionsAreShare(es[..n], g);
      assert es == es[..n] + [es[n]];
      CollectPush(es[..n], es[n], AnswersFor(g));
    }
  }

  // ---- the one store ----

  /** Steps of the store that are no command's: the clock, the expiry thread, readers. */
  predicate Idle(l: Store.Label) { l.Tick? || l.Pop? || l.Callback? || l.GetFast? || l.GetSlow? || l.AskTtl? }

  /** A command's time on the store: what went on before it, the states it found and left, its own steps and clock. */
  datatype Piece = Piece(
    idle: seq<Store.Label>, found: Store.State, work: seq<Store.Label>, left: Store.State, t: Times, info: bytes)

  /** The store's single map in a state. */
  function MapOf(s: Store.State): Table
    requires Shards.Placed(s.shards)
  {
    Shards.Union(s.shards)
  }

  /** The store with nobody in the middle of a write. */
  predicate Settled(s: Store.State) { Shards.Placed(s.shards) && s.mutator == Store.Free }

  /** The execution is what `on_message` does between the states `found` and `left`. */
  ghost predicate Served(e: Execution, p: Piece, before: Store.State) {
    var args := Normalized(e.answer.args);
    && Settled(before) && Settled(p.found) && Settled(p.left)
    && Store.IsRun(before, p.idle) && (forall i :: 0 <= i < |p.idle| ==> Idle(p.idle[i]))
    && p.found == Store.After(before, p.idle) && p.found.now == p.t.first <= p.t.second == p.left.now
    && Store.IsRun(p.found, p.work) && p.left == Store.After(p.found, p.work)
    && Holdable(MapOf(p.found), p.info)
    && e.answer.reply == Render(ReplyTo(args, MapOf(p.found), p.t, p.info))
    && Store.SameVisible(MapOf(p.left), EffectOf(args, MapOf(p.found), p.t), p.t.second)
  }

  /** What `on_message` promises about the store object is all it takes. */
  lemma WorkServes(e: Execution, p: Piece, before: Store.State, records: seq<Record>)
    requires Settled(before) && Settled(p.found) && Settled(p.left)
    requires Store.IsRun(before, p.idle) && p.found == Store.After(before, p.idle)
    requires forall i :: 0 <= i < |p.idle| ==> Idle(p.idle[i])
    requires p.found.now == p.t.first <= p.t.second == p.left.now && Holdable(MapOf(p.found), p.info)
    requires Store.Works(p.found.(log := []), p.work, p.left.(log := []), records)
    requires p.left.log == p.found.log + records
    requires e.answer.reply == Render(ReplyTo(Normalized(e.answer.args), MapOf(p.found), p.t, p.info))
    requires
      var effect := EffectOf(Normalized(e.answer.args), MapOf(p.found), p.t);
      Store.SameVisible(MapOf(p.left), effect, p.t.second)
    ensures Served(e, p, before)
  {
    hide Store.IsRun, Store.After, Store.SameVisible, Shards.Placed, MapOf, ReplyTo, EffectOf, Render, Idle, Holdable;
    var s := p.found.(log := []);
    Store.RunBehind(s, p.work, p.found.log);
    assert p.found.log + [] == p.found.log && s.(log := p.found.log) == p.found;
  }

  function StateBefore(ps: seq<Piece>, s0: Store.State, i: nat): Store.State
    requires i <= |ps|
  {
    if i == 0 then s0 else ps[i - 1].left
  }

  /** All executions are served by one store, one after the other, beginning at `s0`. */
  ghost predicate ServedByOne(es: seq<Execution>, ps: seq<Piece>, s0: Store.State) {
    |ps| == |es| && Settled(s0) && forall i :: 0 <= i < |es| ==> Served(es[i], ps[i], StateBefore(ps, s0, i))
  }

  lemma {:induction false} IdleIsUnseen(s: Store.State, run: seq<Store.Label>)
    requires Settled(s) && Store.IsRun(s, run) && forall i :: 0 <= i < |run| ==> Idle(run[i])
    ensures Settled(Store.After(s, run))
    ensures Store.SameVisible(MapOf(s), MapOf(Store.After(s, run)), Store.After(s, run).now)
    decreases |run|
  {
    hide Shards.Placed, Shards.Union, Store.SameVisible, Store.Step, Store.Enabled;
    if run == [] {
      Store.SameAsItself(MapOf(s), s.now);
    } else {
      var s', end := Store.Step(s, run[0]), Store.After(s, run);
      assert Idle(run[0]);
      IdleStep(s, run[0]);
      IdleIsUnseen(s', run[1..]);
      Store.RunTime(s', run[1..]);
      Store.VisibleStays(MapOf(s), MapOf(s'), s'.now, end.now);
      Store.SameIsTransitive(MapOf(s), MapOf(s'), MapOf(end), end.now);
    }
  }

  lemma IdleStep(s: Store.State, l: Store.Label)
    requires Settled(s) && Store.Enabled(s, l) && Idle(l)
    ensures Settled(Store.Step(s, l))
    ensures Store.SameVisible(MapOf(s), MapOf(Store.Step(s, l)), Store.Step(s, l).now)
  {
    hide Shards.Placed, Shards.Union, Store.SameVisible, Shards.Find, Store.DropIfExpired;
    Store.OnlyWritersAreSeen(s, l);
  }

  // ---- commands see what is visible ----

  /** A command logs the same on two maps that look the same. */
  lemma RecordsSeeTheVisible(args: Command, m1: Table, m2: Table, t: Times)
    requires Store.SameVisible(m1, m2, t.first) && t.first <= t.second
    ensures RecordsOf(args, m1, t) == RecordsOf(args, m2, t)
  {
    hide Name, Ascii, SetOption, SetTtl, ExpireTtl, Collect, Store.SameVisible;
    if |args| > 1 {
      Store.VisibleStays(m1, m2, t.first, t.second);
      Store.SameAt(m1, m2, args[1], t.first);
      Store.SameAt(m1, m2, args[1], t.second);
    }
  }

  /** And answers the same, unless it is DEL, which counts expired entries too. */
  lemma ReplySeesTheVisible(args: Command, m1: Table, m2: Table, t: Times, info: bytes)
    requires Store.SameVisible(m1, m2, t.first) && t.first <= t.second
    requires args != [] ==> Registered(args[0]) != Some(DelCmd)
    ensures ReplyTo(args, m1, t, info) == ReplyTo(args, m2, t, info)
  {
    hide Name, Ascii, SetOption, SetTtl, ExpireTtl, Store.SameVisible, DelCount, Shards.LiveKeys;
    var k := if |args| > 1 then args[1] else [];
    Store.VisibleStays(m1, m2, t.first, t.second);
    AnswersSeeOnlyTheVisible(m1, m2, k, t.first);
    AnswersSeeOnlyTheVisible(m1, m2, k, t.second);
  }

  lemma {:induction false} FoldSeesTheVisible(m1: Table, m2: Table, rs: seq<Record>, now: int)
    requires Store.SameVisible(m1, m2, now)
    requires forall i :: 0 <= i < |rs| && rs[i].PExpireAt? ==>
      |rs| == 1 && rs[i].key in m1 && Shards.Live(m1[rs[i].key], now)
    ensures Store.SameVisible(Store.FoldFrom(m1, rs), Store.FoldFrom(m2, rs), now)
    decreases |rs|
  {
    hide Store.SameVisible;
    if rs != [] {
      var n := |rs| - 1;
      FoldSeesTheVisible(m1, m2, rs[..n], now);
      ApplySeesAll(Store.FoldFrom(m1, rs[..n]), Store.FoldFrom(m2, rs[..n]), rs[n], now);
    }
  }

  lemma ApplySeesAll(m1: Table, m2: Table, r: Record, now: int)
    requires Store.SameVisible(m1, m2, now)
    requires r.PExpireAt? ==> r.key in m1 && Shards.Live(m1[r.key], now)
    ensures Store.SameVisible(Store.Apply(m1, r), Store.Apply(m2, r), now)
  {
    hide Store.Apply;
    forall k
      ensures Store.Shown(Store.Apply(m1, r), k, now) == Store.Shown(Store.Apply(m2, r), k, now)
    {
      assert Store.Shown(m1, k, now) == Store.Shown(m2, k, now);
      Store.ApplySeesTheVisible(m1, m2, r, k, now);
    }
  }

  lemma ProlongedIsLive(args: Command, m: Table, t: Times, i: nat)
    requires i < |RecordsOf(args, m, t)| && RecordsOf(args, m, t)[i].PExpireAt?
    ensures
      var rs := RecordsOf(args, m, t);
      |rs| == 1 && rs[i].key in m && Shards.Live(m[rs[i].key], t.second)
  {
    hide Name, Ascii, SetOption, SetTtl, ExpireTtl;
    if args != [] {
      DelsAreDels(args[1..]);
    }
  }

  lemma {:induction false} DelsAreDels(keys: seq<bytes>)
    ensures forall i :: 0 <= i < |Collect(keys, DelOf)| ==> Collect(keys, DelOf)[i].Del?
  {
    if keys != [] {
      DelsAreDels(keys[1..]);
    }
  }

  lemma EffectSeesTheVisible(args: Command, m1: Table, m2: Table, t: Times)
    requires Store.SameVisible(m1, m2, t.first) && t.first <= t.second
    ensures Store.SameVisible(EffectOf(args, m1, t), EffectOf(args, m2, t), t.second)
  {
    hide Store.SameVisible, EffectOf, RecordsOf, Store.FoldFrom;
    Store.VisibleStays(m1, m2, t.first, t.second);
    RecordsSeeTheVisible(args, m1, m2, t);
    RecordsMeanEffect(args, m1, t);
    RecordsMeanEffect(args, m2, t);
    var rs := RecordsOf(args, m1, t);
    forall i | 0 <= i < |rs| && rs[i].PExpireAt?
      ensures |rs| == 1 && rs[i].key in m1 && Shards.Live(m1[rs[i].key], t.second)
    {
      ProlongedIsLive(args, m1, t, i);
    }
    FoldSeesTheVisible(m1, m2, rs, t.second);
  }

  // ---- one map ----

  /** The one map before execution `i`: the effects of all executions before it, in order. */
  function OneMap(start: Table, es: seq<Execution>, ps: seq<Piece>, i: nat): Table
    requires i <= |es| == |ps|
    decreases i
  {
    if i == 0 then start
    else EffectOf(Normalized(es[i - 1].answer.args), OneMap(start, es, ps, i - 1), ps[i - 1].t)
  }

  /** Between two commands nothing is seen to change. */
  lemma FoundIsLeft(e: Execution, p: Piece, before: Store.State)
    requires Served(e, p, before)
    ensures Settled(before) && Settled(p.found) && before.now <= p.t.first <= p.t.second
    ensures Store.SameVisible(MapOf(p.found), MapOf(before), p.t.first)
  {
    hide Store.SameVisible, Store.IsRun, Store.After, Idle, Holdable, Shards.Placed, MapOf, ReplyTo, EffectOf, Render;
    IdleIsUnseen(before, p.idle);
    Store.SameVisibleSymmetric(MapOf(before), MapOf(p.found), p.t.first);
    Store.RunTime(before, p.idle);
  }

  lemma LeftIsEffect(e: Execution, p: Piece, before: Store.State, m: Table)
    requires Served(e, p, before) && Store.SameVisible(MapOf(p.found), m, p.t.first)
    ensures Settled(p.left) && p.left.now == p.t.second
    ensures Store.SameVisible(MapOf(p.left), EffectOf(Normalized(e.answer.args), m, p.t), p.t.second)
  {
    hide Store.SameVisible, Store.IsRun, Store.After, Idle, Holdable, Shards.Placed, MapOf, ReplyTo, EffectOf, Render,
      Normalized;
    var args := Normalized(e.answer.args);
    EffectSeesTheVisible(args, MapOf(p.found), m, p.t);
    Store.SameIsTransitive(MapOf(p.left), EffectOf(args, MapOf(p.found), p.t), EffectOf(args, m, p.t), p.t.second);
  }

  /** What a command finds looks like the one map at that time. */
  lemma {:induction false} FoundIsOneMap(es: seq<Execution>, ps: seq<Piece>, s0: Store.State, i: nat)
    requires ServedByOne(es, ps, s0) && i < |es|
    ensures Settled(ps[i].found) && ps[i].t.first <= ps[i].t.second
    ensures Store.SameVisible(MapOf(ps[i].found), OneMap(MapOf(s0), es, ps, i), ps[i].t.first)
    decreases i
  {
    hide Store.SameVisible, Served, Shards.Placed, MapOf, EffectOf, Normalized;
    var p, before := ps[i], StateBefore(ps, s0, i);
    assert Served(es[i], p, before);
    FoundIsLeft(es[i], p, before);
    if i > 0 {
      var q, m := ps[i - 1], OneMap(MapOf(s0), es, ps, i);
      assert Served(es[i - 1], q, StateBefore(ps, s0, i - 1));
      FoundIsOneMap(es, ps, s0, i - 1);
      LeftIsEffect(es[i - 1], q, StateBefore(ps, s0, i - 1), OneMap(MapOf(s0), es, ps, i - 1));
      Store.VisibleStays(MapOf(q.left), m, q.t.second, p.t.first);
      Store.SameIsTransitive(MapOf(p.found), MapOf(before), m, p.t.first);
    }
  }

  // ---- what clients decode ----

  /** A sleeping server, a client whose send buffer is empty, and the requests it sent, in whatever pieces. */
  predicate Answered(s: State, g: nat, requests: seq<Request>) {
    && Asleep(s) && g < |s.conns| && s.conns[g].open && s.conns[g].unsent == []
    && Stream(s.conns[g].received) == Collect(requests, Wire)
    && forall i :: 0 <= i < |requests| ==> Polite(requests[i])
  }

  /** The call of dispatch behind execution `i`. */
  function CallAt(es: seq<Execution>, ps: seq<Piece>, i: nat): Call {
    if i < |es| && i < |ps| && Shards.Placed(ps[i].found.shards) then
      Call(Normalized(es[i].answer.args), MapOf(ps[i].found), ps[i].t, ps[i].info)
    else Call([], map[], Times(0, 0), [])
  }

  /**
   * The value is the command's reply in its piece of work, on a map that looks like `m`. So it is the reply
   * on `m` itself, unless the command is DEL, which counts expired entries that are still stored.
   */
  ghost predicate RepliedOn(r: Reply, args: Command, p: Piece, m: Table) {
    && Settled(p.found) && Store.SameVisible(MapOf(p.found), m, p.t.first)
    && r == ReplyTo(args, MapOf(p.found), p.t, p.info)
    && (args == [] || Registered(args[0]) != Some(DelCmd) ==> r == ReplyTo(args, m, p.t, p.info))
  }

  /** Value `j` is the reply to request `j`, at position `ps[j]` of the order, on the one map of that position. */
  ghost predicate RepliedInOrder(
    values: seq<Reply>, requests: seq<Request>, ps: seq<nat>, g: nat, es: seq<Execution>, pieces: seq<Piece>,
    start: Table)
  {
    && |values| == |requests| == |ps| && |es| == |pieces|
    && forall j :: 0 <= j < |ps| ==>
         && ps[j] < |es| && es[ps[j]].gen == g && es[ps[j]].answer.args == Asked(requests[j])
         && RepliedOn(values[j], Normalized(Asked(requests[j])), pieces[ps[j]], OneMap(start, es, pieces, ps[j]))
  }

  /** The client's requests are its share of the order, and its bytes the replies to them. */
  lemma SharesAreRequests(n: nat, run: seq<Label>, g: nat, requests: seq<Request>)
    requires IsRun(Init(n), run) && Answered(After(Init(n), run), g, requests)
    ensures
      var es, c := Executions(Init(n), run), After(Init(n), run).conns[g];
      var ps := PositionsOf(es, g);
      && |ps| == |requests| && c.sent == Collect(c.done, ReplyOf) && |c.done| == |ps|
      && (forall j :: 0 <= j < |ps| ==> ps[j] < |es| && es[ps[j]].gen == g && es[ps[j]].answer == c.done[j])
      && (forall j :: 0 <= j < |ps| ==> c.done[j].args == Asked(requests[j]))
      && (forall i, j :: 0 <= i < j < |ps| ==> ps[i] < ps[j])
  {
    hide Collect, IsRun, After, Asleep, Executions, PositionsOf, Asked, Polite, Stream;
    DoneIsRequests(n, run, g, requests);
    DoneInRun(n, run, g);
    PositionsAreShare(Executions(Init(n), run), g);
  }

  lemma DoneInRun(n: nat, run: seq<Label>, g: nat)
    requires IsRun(Init(n), run) && g < |After(Init(n), run).conns|
    ensures After(Init(n), run).conns[g].done == Collect(Executions(Init(n), run), AnswersFor(g))
  {
    hide Collect, IsRun, After, Executions;
    DoneIsShare(Init(n), run, g);
    var share := Collect(Executions(Init(n), run), AnswersFor(g));
    assert DoneBy(Init(n), g) == [] && [] + share == share;
  }

  lemma DoneIsRequests(n: nat, run: seq<Label>, g: nat, requests: seq<Request>)
    requires IsRun(Init(n), run) && Answered(After(Init(n), run), g, requests)
    ensures
      var c := After(Init(n), run).conns[g];
      && c.sent == Collect(c.done, ReplyOf) && |c.done| == |requests|
      && forall j :: 0 <= j < |requests| ==> c.done[j].args == Asked(requests[j])
  {
    hide Collect, Meaning, Sendable, IsRun, After, Asleep, Wire, ArgsFit, Speakable, Normalized, Asked;
    var c := After(Init(n), run).conns[g];
    PipelinedClient(n, run, g, requests);
    SleepsOnlyWhenDone(n, run, g);
    OneMeaningEach(requests);
    ArgsAt(c.done);
    assert c.sent + [] == c.sent;
  }

  lemma {:induction false} ArgsAt(done: seq<Answer>)
    ensures |Collect(done, ArgsOf)| == |done|
    ensures forall i :: 0 <= i < |done| ==> Collect(done, ArgsOf)[i] == done[i].args
  {
    if done != [] {
      ArgsAt(done[1..]);
    }
  }

  lemma {:induction false} BytesOfCalls(done: seq<Answer>, calls: seq<Call>)
    requires |done| == |calls| && forall j :: 0 <= j < |done| ==> done[j].reply == BytesOfCall(calls[j])
    ensures Collect(done, ReplyOf) == Collect(calls, BytesOfCall)
  {
    hide BytesOfCall;
    if done != [] {
      BytesOfCalls(done[1..], calls[1..]);
    }
  }

  /**
   * The whole server. Any number of clients pipeline requests in any pieces; reactor and workers interleave
   * in any way; one store serves the executed commands, with the expiry thread beside them. Whenever the
   * server sleeps, each client whose buffer is empty decodes one value per request: the reply to its own
   * request, on a map that looks like the one all commands executed before have made. The order of
   * execution is one for all clients and keeps each client's own.
   */
  lemma RepliesOfOneStore(
    n: nat, run: seq<Label>, g: nat, requests: seq<Request>, pieces: seq<Piece>, s0: Store.State)
    requires IsRun(Init(n), run) && Answered(After(Init(n), run), g, requests)
    requires ServedByOne(Executions(Init(n), run), pieces, s0)
    ensures
      var es, c := Executions(Init(n), run), After(Init(n), run).conns[g];
      var ps, decoded := PositionsOf(es, g), DecodeAll(c.sent, |requests|);
      && (forall i, j :: 0 <= i < j < |ps| ==> ps[i] < ps[j])
      && decoded.Some? && RepliedInOrder(decoded.value, requests, ps, g, es, pieces, MapOf(s0))
  {
    hide Collect, IsRun, After, Executions, PositionsOf, Stream, OneMap, DecodeAll, MapOf, Shards.Placed, Asked,
      RepliedOn, Served, CallAt, BytesOfCall, ReplyOfCall, Normalized, Asleep, Speakable, ArgsFit, Sendable;
    var es, c := Executions(Init(n), run), After(Init(n), run).conns[g];
    var ps := PositionsOf(es, g);
    SharesAreRequests(n, run, g, requests);
    var calls := seq(|ps|, j requires 0 <= j < |ps| => CallAt(es, pieces, ps[j]));
    forall j | 0 <= j < |ps|
      ensures c.done[j].reply == BytesOfCall(calls[j])
      ensures Holdable(calls[j].m, calls[j].info) && ArgsFit(calls[j].args) && Speakable(calls[j].args)
      ensures RepliedOn(ReplyOfCall(calls[j]), Normalized(Asked(requests[j])), pieces[ps[j]],
                        OneMap(MapOf(s0), es, pieces, ps[j]))
    {
      assert Polite(requests[j]);
      PieceReplies(es, pieces, s0, ps[j]);
      NormalizedFits(Asked(requests[j]));
    }
    BytesOfCalls(c.done, calls);
    DispatchStreamDecodes(calls);
    BytesAreRendered(calls);
  }

  lemma PieceReplies(es: seq<Execution>, ps: seq<Piece>, s0: Store.State, i: nat)
    requires ServedByOne(es, ps, s0) && i < |es|
    ensures
      var args, call := Normalized(es[i].answer.args), CallAt(es, ps, i);
      && call.args == args && Holdable(call.m, call.info) && es[i].answer.reply == BytesOfCall(call)
      && RepliedOn(ReplyOfCall(call), args, ps[i], OneMap(MapOf(s0), es, ps, i))
  {
    hide Store.SameVisible, Store.IsRun, Store.After, Idle, Shards.Placed, MapOf, ReplyTo, EffectOf, Render, Normalized,
      OneMap, Holdable, Registered;
    var p, m := ps[i], OneMap(MapOf(s0), es, ps, i);
    assert Served(es[i], p, StateBefore(ps, s0, i));
    FoundIsOneMap(es, ps, s0, i);
    var args := Normalized(es[i].answer.args);
    if args == [] || Registered(args[0]) != Some(DelCmd) {
      ReplySeesTheVisible(args, MapOf(p.found), m, p.t, p.info);
    }
  }

  // ---- a client alone ----

  /** The effects of a client's requests on one map, in its own order. */
  function Effects(m: Table, requests: seq<Request>, ts: nat -> Times, i: nat): Table
    requires i <= |requests|
    decreases i
  {
    if i == 0 then m
    else EffectOf(Normalized(Asked(requests[i - 1])), Effects(m, requests, ts, i - 1), ts(i - 1))
  }

  lemma {:induction false} AlonePositions(es: seq<Execution>, g: nat)
    requires forall i :: 0 <= i < |es| ==> es[i].gen == g
    ensures |PositionsOf(es, g)| == |es| && forall j :: 0 <= j < |es| ==> PositionsOf(es, g)[j] == j
    decreases |es|
  {
    if es != [] {
      AlonePositions(es[..|es| - 1], g);
    }
  }

  lemma {:induction false} AloneMap(
    m: Table, es: seq<Execution>, ps: seq<Piece>, requests: seq<Request>, ts: nat -> Times, i: nat)
    requires i <= |es| == |ps| == |requests|
    requires forall j :: 0 <= j < |es| ==> es[j].answer.args == Asked(requests[j]) && ts(j) == ps[j].t
    ensures OneMap(m, es, ps, i) == Effects(m, requests, ts, i)
    decreases i
  {
    hide EffectOf, Normalized, Asked;
    if i > 0 {
      AloneMap(m, es, ps, requests, ts, i - 1);
    }
  }

  /** Value `j` is the reply to request `j` on the map the requests before it have made. */
  ghost predicate RepliedAlone(
    values: seq<Reply>, requests: seq<Request>, pieces: seq<Piece>, ts: nat -> Times, start: Table)
  {
    && |values| == |requests| == |pieces|
    && forall j :: 0 <= j < |requests| ==>
         RepliedOn(values[j], Normalized(Asked(requests[j])), pieces[j], Effects(start, requests, ts, j))
  }

  lemma InOrderIsAlone(
    values: seq<Reply>, requests: seq<Request>, g: nat, es: seq<Execution>, pieces: seq<Piece>, start: Table,
    ts: nat -> Times)
    requires RepliedInOrder(values, requests, PositionsOf(es, g), g, es, pieces, start)
    requires forall i :: 0 <= i < |es| ==> es[i].gen == g && ts(i) == pieces[i].t
    ensures RepliedAlone(values, requests, pieces, ts, start)
  {
    hide OneMap, Effects, RepliedOn, Normalized, Asked, PositionsOf;
    var ps := PositionsOf(es, g);
    AlonePositions(es, g);
    forall j | 0 <= j < |es|
      ensures es[j].answer.args == Asked(requests[j])
    {
      assert ps[j] == j;
    }
    forall j | 0 <= j < |requests|
      ensures RepliedOn(values[j], Normalized(Asked(requests[j])), pieces[j], Effects(start, requests, ts, j))
    {
      assert ps[j] == j;
      AloneMap(start, es, pieces, requests, ts, j);
    }
  }

  /**
   * A client alone on the server decodes, request by request, the replies on one map that its own requests
   * have changed one after the other.
   */
  lemma AloneOnOneMap(
    n: nat, run: seq<Label>, g: nat, requests: seq<Request>, pieces: seq<Piece>, s0: Store.State, ts: nat -> Times)
    requires IsRun(Init(n), run) && Answered(After(Init(n), run), g, requests)
    requires ServedByOne(Executions(Init(n), run), pieces, s0)
    requires forall i :: 0 <= i < |pieces| ==> Executions(Init(n), run)[i].gen == g && ts(i) == pieces[i].t
    ensures
      var decoded := DecodeAll(After(Init(n), run).conns[g].sent, |requests|);
      decoded.Some? && RepliedAlone(decoded.value, requests, pieces, ts, MapOf(s0))
  {
    hide IsRun, After, Executions, PositionsOf, DecodeAll, MapOf, RepliedInOrder, Served, Stream, Asleep, Polite,
      Collect, Shards.Placed, RepliedAlone;
    RepliesOfOneStore(n, run, g, requests, pieces, s0);
    var decoded := DecodeAll(After(Init(n), run).conns[g].sent, |requests|);
    InOrderIsAlone(decoded.value, requests, g, Executions(Init(n), run), pieces, MapOf(s0), ts);
  }

  /** So it reads what it has written: the value decoded for a GET right after a SET of the key is the value set. */
  lemma ReadsItsOwnWrites(
    n: nat, run: seq<Label>, g: nat, requests: seq<Request>, pieces: seq<Piece>, s0: Store.State, ts: nat -> Times,
    j: nat, k: bytes, v: bytes)
    requires IsRun(Init(n), run) && Answered(After(Init(n), run), g, requests)
    requires ServedByOne(Executions(Init(n), run), pieces, s0)
    requires forall i :: 0 <= i < |pieces| ==> Executions(Init(n), run)[i].gen == g && ts(i) == pieces[i].t
    requires j + 1 < |requests|
    requires Normalized(Asked(requests[j])) == [Ascii("SET"), k, v]
    requires Normalized(Asked(requests[j + 1])) == [Ascii("GET"), k]
    ensures
      var decoded := DecodeAll(After(Init(n), run).conns[g].sent, |requests|);
      decoded.Some? && |decoded.value| == |requests| && decoded.value[j + 1] == Bulk(v)
  {
    hide IsRun, After, Executions, DecodeAll, MapOf, Normalized, Asked, ServedByOne, RepliedAlone, Ascii, Stream,
      Asleep, Polite, Collect;
    AloneOnOneMap(n, run, g, requests, pieces, s0, ts);
    var decoded := DecodeAll(After(Init(n), run).conns[g].sent, |requests|);
    assert Settled(s0) by {
      StartIsSettled(Executions(Init(n), run), pieces, s0);
    }
    GetDecodes(decoded.value, requests, pieces, ts, MapOf(s0), j, k, v);
  }

  lemma StartIsSettled(es: seq<Execution>, ps: seq<Piece>, s0: Store.State)
    requires ServedByOne(es, ps, s0)
    ensures Settled(s0) && |ps| == |es|
  {
    hide Served, Shards.Placed;
  }

  lemma GetDecodes(
    values: seq<Reply>, requests: seq<Request>, pieces: seq<Piece>, ts: nat -> Times, start: Table,
    j: nat, k: bytes, v: bytes)
    requires RepliedAlone(values, requests, pieces, ts, start) && j + 1 < |requests|
    requires Normalized(Asked(requests[j])) == [Ascii("SET"), k, v]
    requires Normalized(Asked(requests[j + 1])) == [Ascii("GET"), k]
    ensures |values| == |requests| && values[j + 1] == Bulk(v)
  {
    hide Asked, MapOf, Settled, Normalized, ReplyTo, EffectOf, Ascii, Registered, Store.SameVisible;
    var before, p := Effects(start, requests, ts, j), pieces[j + 1];
    assert RepliedOn(values[j + 1], Normalized(Asked(requests[j + 1])), p, Effects(start, requests, ts, j + 1));
    CommandTable();
    AfterSetAndDel(k, v, before, ts(j), p.t, p.info);
  }
}
