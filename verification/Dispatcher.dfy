/**
 * Dispatch of src/commands/CommandDispatcher.cpp on the store object. Each command is a run of the
 * concurrent store between its two clock readings, and writes to the file exactly the records it logs.
 */
module Dispatcher {
  import opened ByteStrings
  import opened RespParser
  import opened Sequences
  import opened Replies
  import opened Aof
  import opened Shards
  import opened StoreRuns
  import opened Operations
  import opened KvStore
  import opened Commands

  /** Work that is done at one time, seen at a later time. */
  lemma TickOn(s: State, run: seq<Label>, s': State, records: seq<Record>, t: int)
    requires Works(s, run, s', records) && Ready(s') && s'.now <= t
    ensures Works(s, run + [Tick(t)], s'.(now := t), records)
  {
    hide Works, Placed;
    TickWorks(s', t);
    WorksOn(s, run, s', records, [Tick(t)], s'.(now := t), []);
    assert records + [] == records;
  }

  method RunSet(args: Command, store: Store, t: Times) returns (r: Reply, ghost run: seq<Label>)
    requires store.Valid() && ArityOk(SetCmd, |args|) && SetFits(args, t.first)
    modifies store`shards, store`heap, store.aof
    ensures store.Valid() && r == AnswerOf(SetCmd, args, old(store.Contents()), t, [])
    ensures store.Contents() == EffectOfKind(SetCmd, args, old(store.Contents()), t)
    ensures store.File() == old(store.File()) + store.Traces(RecordsOfKind(SetCmd, args, old(store.Contents()), t))
    ensures store.ttlOn ==>
      Works(old(store.At(t.first)), run, store.At(t.first), RecordsOfKind(SetCmd, args, old(store.Contents()), t))
  {
    hide Placed, Union, Upper, LeadingNumber, Ascii, Works, Encode;
    NoWork(store.At(t.first));
    run := [];
    if |args| == 3 {
      run := store.Set(args[1], args[2], t.first);
      return Simple(Ascii("OK")), run;
    }
    if |args| == 5 && SetOption(args) {
      var ttl := SetTtl(args);
      if ttl.None? {
        return ErrorReply(Ascii("invalid expire time in 'set' command")), run;
      }
      var ok;
      ok, run := store.SetEx(args[1], args[2], ttl.value, t.first);
      return Simple(Ascii("OK")), run;
    }
    r := ErrorReply(Ascii("syntax error"));
  }

  lemma LogPush(rs: seq<Record>, r: Record)
    ensures Log(rs + [r]) == Log(rs) + Log([r])
  {
    CollectAppend(rs, [r], Encode);
  }

  method RunDel(args: Command, store: Store, ghost now: int) returns (r: Reply, ghost run: seq<Label>)
    requires store.Valid() && args != []
    modifies store`shards, store.aof
    ensures store.Valid() && r == Integer(DelCount(old(store.Contents()), args[1..]))
    ensures store.Contents() == Without(old(store.Contents()), args[1..])
    ensures store.File() == old(store.File()) + store.Traces(Collect(args[1..], DelOf))
    ensures Works(old(store.At(now)), run, store.At(now), Collect(args[1..], DelOf))
  {
    hide Placed, Union, Collect, Works, Log, Encode;
    var deleted := 0;
    run := [];
    ghost var m, logged: seq<Record> := store.Contents(), [];
    NoWork(store.At(now));
    assert args[1..1] == [];
    CollectNothing(args[1..1], DelOf);
    NoTraces();
    for i := 1 to |args|
      invariant store.Valid() && store.aof == old(store.aof)
      invariant deleted + DelCount(store.Contents(), args[i..]) == DelCount(m, args[1..])
      invariant Without(store.Contents(), args[i..]) == Without(m, args[1..])
      invariant logged == Collect(args[1..i], DelOf)
      invariant store.File() == old(store.File()) + store.Traces(logged)
      invariant Works(old(store.At(now)), run, store.At(now), logged)
    {
      assert args[i..][0] == args[i] && args[i..][1..] == args[i + 1..];
      assert args[1..i + 1] == args[1..i] + [args[i]];
      CollectPush(args[1..i], args[i], DelOf);
      LogPush(logged, Del(args[i]));
      ghost var before := store.At(now);
      var existed, more := store.Delete(args[i], now);
      WorksOn(old(store.At(now)), run, before, logged, more, store.At(now), [Del(args[i])]);
      JoinThree(old(store.File()), store.Traces(logged), store.Traces([Del(args[i])]));
      run, logged := run + more, logged + [Del(args[i])];
      if existed {
        deleted := deleted + 1;
      }
    }
    assert args[|args|..] == [] && args[1..|args|] == args[1..];
    r := Integer(deleted);
  }

  lemma NoTraces()
    ensures Log([]) == []
  {
  }

  method RunExpire(args: Command, store: Store, t: Times) returns (r: Reply, ghost run: seq<Label>)
    requires store.Valid() && |args| == 3 && ExpireFits(args, t.first) && t.first <= t.second
    modifies store`shards, store`heap, store.aof
    ensures store.Valid() && r == AnswerOf(Expire, args, old(store.Contents()), t, [])
    ensures SameVisible(store.Contents(), EffectOfKind(Expire, args, old(store.Contents()), t), t.second)
    ensures store.File() == old(store.File()) + store.Traces(RecordsOfKind(Expire, args, old(store.Contents()), t))
    ensures store.ttlOn ==>
      Works(old(store.At(t.first)), run, store.At(t.second), RecordsOfKind(Expire, args, old(store.Contents()), t))
  {
    hide Placed, Union, LeadingNumber, Ascii, Works, Log, Encode;
    SameAsItself(EffectOfKind(Expire, args, store.Contents(), t), t.second);
    NoTraces();
    ghost var m := store.Contents();
    TickWorks(store.At(t.first), t.second);
    run := [Tick(t.second)];
    var ttl := ExpireTtl(args);
    if ttl.None? {
      return ErrorReply(Ascii("value is not an integer or out of range")), run;
    }
    var ok;
    ok, run := store.Expire(args[1], ttl.value, t.first, t.second);
    if !ok {
      SameVisibleSymmetric(m, store.Contents(), t.second);
    }
    r := Integer(if ok then 1 else 0);
  }

  method RunPersist(args: Command, store: Store, t: Times) returns (r: Reply, ghost run: seq<Label>)
    requires store.Valid() && |args| == 2 && t.first <= t.second
    modifies store`shards, store.aof
    ensures store.Valid() && r == AnswerOf(Persist, args, old(store.Contents()), t, [])
    ensures SameVisible(store.Contents(), EffectOfKind(Persist, args, old(store.Contents()), t), t.second)
    ensures store.File() == old(store.File()) + store.Traces(RecordsOfKind(Persist, args, old(store.Contents()), t))
    ensures
      Works(old(store.At(t.first)), run, store.At(t.first), RecordsOfKind(Persist, args, old(store.Contents()), t))
  {
    hide Placed, Union, Works, Log, Encode;
    SameAsItself(EffectOfKind(Persist, args, store.Contents(), t), t.second);
    NoTraces();
    ghost var m := store.Contents();
    var ok;
    ok, run := store.Persist(args[1], t.first);
    if !ok {
      SameVisibleSymmetric(m, store.Contents(), t.first);
      VisibleStays(store.Contents(), m, t.first, t.second);
    }
    r := Integer(if ok then 1 else 0);
  }

  /**
   * `dispatch`: the reply, the visible effect and the logged records are those of the command on the single
   * map the shards stand for, and all it does is a run of the concurrent store.
   */
  method Dispatch(args: Command, store: Store, t: Times, info: bytes) returns (r: Reply, ghost run: seq<Label>)
    requires store.Valid() && NoOverflow(args, t.first) && t.first <= t.second
    modifies store`shards, store`heap, store.aof
    ensures store.Valid() && r == ReplyTo(args, old(store.Contents()), t, info)
    ensures SameVisible(store.Contents(), EffectOf(args, old(store.Contents()), t), t.second)
    ensures store.File() == old(store.File()) + store.Traces(RecordsOf(args, old(store.Contents()), t))
    ensures store.ttlOn ==>
      Works(old(store.At(t.first)), run, store.At(t.second), RecordsOf(args, old(store.Contents()), t))
  {
    hide Placed, Union, Name, Ascii, SetTtl, ExpireTtl, SetOption, SetFits, ExpireFits, Works, Log, Encode, Collect,
      SameVisible, DelCount, Without;
    ghost var m, start := store.Contents(), store.At(t.first);
    NoTraces();
    SameAsItself(m, t.second);
    SameAsItself(EffectOf(args, m, t), t.second);
    TickWorks(start, t.second);
    run := [Tick(t.second)];
    if args == [] {
      return ErrorReply(Ascii("empty command")), run;
    }
    var found := Registered(args[0]);
    if found.None? {
      return ErrorReply(Unknown(args)), run;
    }
    var kind := found.value;
    if !ArityOk(kind, |args|) {
      return ErrorReply(WrongArity(kind)), run;
    }
    match kind
    case Get =>
      var v;
      v, run := store.Get(args[1], t.first, t.second);
      SameVisibleSymmetric(m, store.Contents(), t.second);
      r := if v.Some? then Bulk(v.value) else Nil;
    case SetCmd =>
      r, run := RunSet(args, store, t);
      if store.ttlOn {
        TickOn(start, run, store.At(t.first), RecordsOfKind(SetCmd, args, m, t), t.second);
      }
      run := run + [Tick(t.second)];
    case DelCmd =>
      r, run := RunDel(args, store, t.first);
      TickOn(start, run, store.At(t.first), RecordsOfKind(DelCmd, args, m, t), t.second);
      run := run + [Tick(t.second)];
    case Expire =>
      r, run := RunExpire(args, store, t);
    case Ttl =>
      AskWorks(start, args[1], t.second);
      run := [AskTtl(args[1]), Tick(t.second)];
      var n := store.Ttl(args[1], t.first);
      r := Integer(n);
    case Persist =>
      r, run := RunPersist(args, store, t);
      TickOn(start, run, store.At(t.first), RecordsOfKind(Persist, args, m, t), t.second);
      run := run + [Tick(t.second)];
    case Ping =>
      r := if |args| > 1 then Bulk(args[1]) else Simple(Ascii("PONG"));
    case DbSize =>
      var n := Count(store.shards, t.first);
      r := Integer(n);
    case CommandCmd =>
      r := EmptyArray;
    case _ =>
      r := Bulk(info);
  }

  /** `on_message`, the work a pool task does: the reply whose bytes go to `send`. */
  method OnMessage(args: Command, store: Store, t: Times, info: bytes) returns (resp: bytes, ghost run: seq<Label>)
    requires store.Valid() && NoOverflow(Normalized(args), t.first) && t.first <= t.second
    modifies store`shards, store`heap, store.aof
    ensures store.Valid() && resp == Render(ReplyTo(Normalized(args), old(store.Contents()), t, info))
    ensures SameVisible(store.Contents(), EffectOf(Normalized(args), old(store.Contents()), t), t.second)
    ensures store.File() == old(store.File()) + store.Traces(RecordsOf(Normalized(args), old(store.Contents()), t))
    ensures store.ttlOn ==>
      Works(old(store.At(t.first)), run, store.At(t.second), RecordsOf(Normalized(args), old(store.Contents()), t))
  {
    hide ReplyTo, EffectOf, RecordsOf, NoOverflow, Upper, Union, Placed, Works, Log, SameVisible;
    var r;
    r, run := Dispatch(Normalized(args), store, t, info);
    resp := Render(r);
  }
}
