/**
 * The operations of the store, each as the run of critical sections it is: what the run leaves and what it
 * logs, from a state in which nobody else is busy.
 */
module Operations {
  import opened ByteStrings
  import opened Aof
  import opened Shards
  import opened StoreRuns

  /** Nobody holds the mutation mutex, and this piece of work has logged nothing yet. */
  predicate Ready(s: State) { Placed(s.shards) && s.mutator == Free && s.log == [] }

  lemma TwoWork(s: State, l1: Label, l2: Label)
    requires s.log == [] && Enabled(s, l1) && Enabled(Step(s, l1), l2)
    ensures
      var end := Step(Step(s, l1), l2);
      Works(s, [l1, l2], end.(log := []), end.log)
  {
    hide Enabled, Step, IsRun, After;
    RunOne(s, l1);
    RunPush(s, [l1], l2);
    assert [l1] + [l2] == [l1, l2];
  }

  lemma OneWorks(s: State, l: Label)
    requires s.log == [] && Enabled(s, l)
    ensures Works(s, [l], Step(s, l).(log := []), Step(s, l).log)
  {
    hide Enabled, Step, IsRun, After;
    RunOne(s, l);
  }

  lemma ThreeWork(s: State, l1: Label, l2: Label, l3: Label)
    requires s.log == [] && Enabled(s, l1) && Enabled(Step(s, l1), l2) && Enabled(Step(Step(s, l1), l2), l3)
    ensures
      var end := Step(Step(Step(s, l1), l2), l3);
      Works(s, [l1, l2, l3], end.(log := []), end.log)
  {
    hide Enabled, Step, IsRun, After;
    TwoWork(s, l1, l2);
    RunPush(s, [l1, l2], l3);
    assert [l1, l2] + [l3] == [l1, l2, l3];
  }

  lemma TickWorks(s: State, t: int)
    requires Ready(s) && s.now <= t
    ensures Works(s, [Tick(t)], s.(now := t), [])
  {
    hide Placed, Works;
    OneWorks(s, Tick(t));
  }

  lemma AskWorks(s: State, k: bytes, t: int)
    requires Ready(s) && s.now <= t
    ensures Works(s, [AskTtl(k), Tick(t)], s.(now := t), [])
  {
    hide Placed, Works;
    TwoWork(s, AskTtl(k), Tick(t));
  }

  lemma SetWorks(s: State, k: bytes, v: bytes)
    requires Ready(s)
    ensures Works(s, [BeginSet(k, v), Write], s.(shards := Put(s.shards, k, Entry(v, -1))), [Set(k, v)])
  {
    hide Placed, Put, Works;
    assert [] + [Set(k, v)] == [Set(k, v)];
    TwoWork(s, BeginSet(k, v), Write);
  }

  /** The set family with a deadline; one that is not positive is not scheduled. */
  function SetRun(k: bytes, v: bytes, d: int): seq<Label> {
    if d > 0 then [BeginSetEx(k, v, d), Write, Schedule] else [BeginSetEx(k, v, d), Write]
  }

  lemma SetExWorks(s: State, k: bytes, v: bytes, d: int)
    requires Ready(s)
    ensures
      var s' := s.(shards := Put(s.shards, k, Entry(v, d)),
                   heap := s.heap + if d > 0 then multiset{(d, k)} else multiset{});
      Works(s, SetRun(k, v, d), s', [SetPxat(k, v, d)])
  {
    hide Placed, Put, Works, Union;
    PutIsUpdate(s.shards, k, Entry(v, d));
    assert [] + [SetPxat(k, v, d)] == [SetPxat(k, v, d)] && s.heap + multiset{} == s.heap;
    if d > 0 {
      ThreeWork(s, BeginSetEx(k, v, d), Write, Schedule);
    } else {
      TwoWork(s, BeginSetEx(k, v, d), Write);
    }
  }

  lemma DelWorks(s: State, k: bytes)
    requires Ready(s)
    ensures Works(s, [BeginDel(k), EraseKey], s.(shards := Erase(s.shards, k)), [Del(k)])
  {
    hide Placed, Erase, Works;
    assert [] + [Del(k)] == [Del(k)];
    TwoWork(s, BeginDel(k), EraseKey);
  }

  lemma ExpireWorks(s: State, k: bytes, d: int)
    requires Ready(s)
    ensures
      var found := Find(s.shards, k);
      if found.Some? && Live(found.value, s.now) then
        Works(s, [TouchExpire(k, d), LogExpire, Schedule],
              s.(shards := Put(s.shards, k, Entry(found.value.value, d)), heap := s.heap + multiset{(d, k)}),
              [PExpireAt(k, d)])
      else Works(s, [TouchExpire(k, d)], s.(shards := DropIfExpired(s.shards, k, s.now)), [])
  {
    hide Placed, Put, Erase, Find, Works, Union;
    var found := Find(s.shards, k);
    if found.Some? && Live(found.value, s.now) {
      PutIsUpdate(s.shards, k, Entry(found.value.value, d));
      assert [] + [PExpireAt(k, d)] == [PExpireAt(k, d)];
      ThreeWork(s, TouchExpire(k, d), LogExpire, Schedule);
    } else {
      OneWorks(s, TouchExpire(k, d));
    }
  }

  lemma PersistWorks(s: State, k: bytes)
    requires Ready(s)
    ensures
      var found := Find(s.shards, k);
      if found.None? || found.value.deadline == -1 then Works(s, [TouchPersist(k)], s, [])
      else if Live(found.value, s.now) then
        Works(s, [TouchPersist(k), LogPersist], s.(shards := Put(s.shards, k, Entry(found.value.value, -1))),
              [Set(k, found.value.value)])
      else Works(s, [TouchPersist(k)], s.(shards := DropIfExpired(s.shards, k, s.now)), [])
  {
    hide Placed, Put, Erase, Find, Works, Union;
    var found := Find(s.shards, k);
    if found.Some? && found.value.deadline != -1 && Live(found.value, s.now) {
      PutIsUpdate(s.shards, k, Entry(found.value.value, -1));
      assert [] + [Set(k, found.value.value)] == [Set(k, found.value.value)];
      TwoWork(s, TouchPersist(k), LogPersist);
    } else {
      OneWorks(s, TouchPersist(k));
    }
  }

  /** The two halves of get, the second at `t`. */
  lemma GetWorks(s: State, k: bytes, t: int)
    requires Ready(s) && s.readers == [Calm] && s.now <= t
    ensures
      var found := Find(s.shards, k);
      if found.Some? && !Live(found.value, s.now) then
        Works(s, [GetFast(0, k), Tick(t), GetSlow(0)], s.(shards := DropIfExpired(s.shards, k, t), now := t), [])
      else Works(s, [GetFast(0, k), Tick(t)], s.(now := t), [])
  {
    hide Placed, Put, Erase, Find, Works, DropIfExpired;
    var found := Find(s.shards, k);
    if found.Some? && !Live(found.value, s.now) {
      assert s.readers[0 := SawExpired(k)][0 := Calm] == s.readers;
      ThreeWork(s, GetFast(0, k), Tick(t), GetSlow(0));
    } else {
      TwoWork(s, GetFast(0, k), Tick(t));
    }
  }

  /** One turn of the drain loop. */
  lemma PopWorks(s: State, d: int, k: bytes, t: int)
    requires Ready(s) && s.ticker == Resting && s.now <= t
    requires (d, k) in s.heap && d <= s.now && forall e :: e in s.heap ==> d <= e.0
    ensures
      var s' := s.(shards := DropIfExpired(s.shards, k, s.now), heap := s.heap - multiset{(d, k)}, now := t);
      Works(s, [Pop(d, k), Callback, Tick(t)], s', [])
  {
    hide Put, Erase, Find, Works, Placed, Union, DropIfExpired, SameVisible;
    DropIsInvisible(s.shards, k, s.now);
    ThreeWork(s, Pop(d, k), Callback, Tick(t));
  }
}
