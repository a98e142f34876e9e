/**
 * The store object of src/store/KvStore.cpp with its expiry heap (src/store/TtlManager.cpp), operation
 * by operation, and the start-up replay of src/main.cpp. Clock readings are parameters.
 */
module KvStore {
  import opened ByteStrings
  import opened Aof
  import opened Shards
  import opened StoreRuns
  import opened ExpiryLaws
  import opened Sequences
  import opened Operations
  import opened Recovery
  import opened Restarts

  class Store {
    var shards: seq<Table>
    var heap: multiset<(int, bytes)>
    var ttlOn: bool
    var aof: AofWriter?

    ghost predicate Valid()
      reads this
    {
      Placed(shards)
    }

    /** The single map the shards stand for. */
    ghost function Contents(): Table
      requires Valid()
      reads this
    {
      Union(shards)
    }

    /** What the attached writer has in its file; nothing while none is attached. */
    ghost function File(): bytes
      reads this, aof
    {
      if aof == null then [] else aof.file
    }

    /** What logging `rs` adds to that file. */
    ghost function Traces(rs: seq<Record>): bytes
      reads this, aof
    {
      if aof == null || !aof.isOpen then [] else Log(rs)
    }

    ghost function Due(d: int, k: bytes): multiset<(int, bytes)>
      reads this
    {
      if ttlOn then multiset{(d, k)} else multiset{}
    }

    /** Every entry with a deadline is on the heap. */
    ghost predicate Scheduled()
      requires Valid()
      reads this
    {
      forall k :: k in Contents() && Contents()[k].deadline > 0 ==> (Contents()[k].deadline, k) in heap
    }

    /** The store at time `now` with nobody busy, as a state of the concurrent store. */
    ghost function At(now: int): State
      reads this
    {
      State(shards, now, [], Free, [Calm], heap, Resting)
    }

    /** The same with `readers` reader threads. */
    ghost function AsState(now: int, readers: nat): State
      reads this
    {
      At(now).(readers := seq(readers, i => Calm))
    }

    constructor (n: nat, enableTtl: bool)
      requires PowerOfTwo(n)
      ensures Valid() && Contents() == map[] && heap == multiset{} && ttlOn == enableTtl && aof == null
      ensures |shards| == n
    {
      shards, heap, ttlOn, aof := seq(n, i => map[]), multiset{}, enableTtl, null;
    }

    method LogRecord(r: Record)
      modifies aof
      ensures File() == old(File()) + Traces([r])
    {
      CollectOne(r, Encode);
      if aof != null {
        aof.Append(r);
      }
    }

    method Schedule(d: int, k: bytes)
      modifies this`heap
      ensures heap == old(heap) + Due(d, k)
    {
      if ttlOn {
        heap := heap + multiset{(d, k)};
      }
    }

    method SetInternal(k: bytes, v: bytes, d: int)
      requires Valid()
      modifies this`shards, this`heap
      ensures Valid() && Contents() == old(Contents())[k := Entry(v, d)] && shards == Put(old(shards), k, Entry(v, d))
      ensures heap == old(heap) + (if d > 0 then Due(d, k) else multiset{})
    {
      PutIsUpdate(shards, k, Entry(v, d));
      shards := Put(shards, k, Entry(v, d));
      if d > 0 {
        Schedule(d, k);
      }
    }

    // Each operation is a run of the concurrent store, from the time it reads first to the time it reads
    // last; operations that do not read the clock take any time.

    method Set(k: bytes, v: bytes, ghost now: int) returns (ghost run: seq<Label>)
      requires Valid()
      modifies this`shards, this`heap, aof
      ensures Valid() && Contents() == old(Contents())[k := Entry(v, -1)] && heap == old(heap)
      ensures File() == old(File()) + Traces([Record.Set(k, v)])
      ensures Works(old(At(now)), run, At(now), [Record.Set(k, v)])
    {
      hide Placed, Union, Put, Works, Log;
      SetWorks(At(now), k, v);
      run := [BeginSet(k, v), Write];
      LogRecord(Record.Set(k, v));
      SetInternal(k, v, -1);
    }

    method SetAbsolute(k: bytes, v: bytes, d: int, ghost now: int) returns (ghost run: seq<Label>)
      requires Valid()
      modifies this`shards, this`heap, aof
      ensures Valid() && Contents() == old(Contents())[k := Entry(v, d)]
      ensures heap == old(heap) + (if d > 0 then Due(d, k) else multiset{})
      ensures File() == old(File()) + Traces([SetPxat(k, v, d)])
      ensures ttlOn ==> Works(old(At(now)), run, At(now), [SetPxat(k, v, d)])
    {
      hide Placed, Union, Put, Works, Log;
      SetExWorks(At(now), k, v, d);
      run := SetRun(k, v, d);
      LogRecord(SetPxat(k, v, d));
      SetInternal(k, v, d);
    }

    method SetEx(k: bytes, v: bytes, ttl: int, now: nat) returns (ok: bool, ghost run: seq<Label>)
      requires Valid()
      requires ttl > 0 ==> now + ttl * 1000 <= INT64_MAX
      modifies this`shards, this`heap, aof
      ensures Valid() && ok == (ttl > 0)
      ensures !ok ==> shards == old(shards) && heap == old(heap) && File() == old(File())
      ensures ok ==>
        var d := now + ttl * 1000;
        && Contents() == old(Contents())[k := Entry(v, d)] && heap == old(heap) + Due(d, k)
        && File() == old(File()) + Traces([SetPxat(k, v, d)])
      ensures ttlOn ==> Works(old(At(now)), run, At(now), if ok then [SetPxat(k, v, now + ttl * 1000)] else [])
    {
      hide Placed, Union, Works, Log;
      NoWork(At(now));
      run := [];
      if ttl <= 0 {
        return false, run;
      }
      run := SetAbsolute(k, v, now + ttl * 1000, now);
      ok := true;
    }

    /** `t1` is the clock under the shared lock, `t2` under the exclusive lock of the slow path. */
    method Get(k: bytes, t1: int, t2: int) returns (r: Option<bytes>, ghost run: seq<Label>)
      requires Valid() && t1 <= t2
      modifies this`shards
      ensures Valid() && r == GetAnswer(old(Contents()), k, t1)
      ensures
        var shown := Shown(old(Contents()), k, t1);
        r == if shown.Some? then Some(shown.value.value) else None
      ensures SameVisible(old(Contents()), Contents(), t2)
      ensures Contents() == if k in old(Contents()) && !Live(old(Contents())[k], t1) then old(Contents()) - {k}
                            else old(Contents())
      ensures Works(old(At(t1)), run, At(t2), [])
    {
      hide Placed, Union, DropIfExpired, Find, Works;
      FindIsLookup(shards, k);
      DropIsInvisible(shards, k, t2);
      DropRemoves(shards, k, t2);
      GetWorks(At(t1), k, t2);
      var found := Find(shards, k);
      run := [GetFast(0, k), Tick(t2)];
      if found.None? {
        return None, run;
      }
      if Live(found.value, t1) {
        return Some(found.value.value), run;
      }
      shards := DropIfExpired(shards, k, t2);
      r, run := None, [GetFast(0, k), Tick(t2), GetSlow(0)];
    }

    method Delete(k: bytes, ghost now: int) returns (existed: bool, ghost run: seq<Label>)
      requires Valid()
      modifies this`shards, aof
      ensures Valid() && Contents() == old(Contents()) - {k} && existed == DelAnswer(old(Contents()), k)
      ensures File() == old(File()) + Traces([Del(k)])
      ensures Works(old(At(now)), run, At(now), [Del(k)])
    {
      hide Placed, Union, Find, Erase, Works, Log;
      DelWorks(At(now), k);
      run := [BeginDel(k), EraseKey];
      LogRecord(Del(k));
      FindIsLookup(shards, k);
      EraseIsRemoval(shards, k);
      existed := Find(shards, k).Some?;
      shards := Erase(shards, k);
    }

    method ExpireAt(k: bytes, d: int, now: int) returns (ok: bool, ghost run: seq<Label>)
      requires Valid()
      modifies this`shards, this`heap, aof
      ensures Valid() && ok == ExpireAnswer(old(Contents()), k, now)
      ensures ok <==> Shown(old(Contents()), k, now).Some?
      ensures ok ==> && Contents() == old(Contents())[k := Entry(old(Contents())[k].value, d)]
                     && heap == old(heap) + Due(d, k) && File() == old(File()) + Traces([PExpireAt(k, d)])
      ensures !ok ==> && Contents() == old(Contents()) - {k}
                      && heap == old(heap) && File() == old(File())
      ensures ttlOn ==> Works(old(At(now)), run, At(now), if ok then [PExpireAt(k, d)] else [])
    {
      hide Placed, Union, Find, Erase, Put, Works, Log;
      FindIsLookup(shards, k);
      EraseIsRemoval(shards, k);
      ExpireWorks(At(now), k, d);
      var found := Find(shards, k);
      run := [TouchExpire(k, d)];
      if found.None? {
        assert Contents() - {k} == Contents();
        return false, run;
      }
      if !Live(found.value, now) {
        shards := Erase(shards, k);
        return false, run;
      }
      PutIsUpdate(shards, k, Entry(found.value.value, d));
      shards := Put(shards, k, Entry(found.value.value, d));
      LogRecord(PExpireAt(k, d));
      Schedule(d, k);
      ok, run := true, [TouchExpire(k, d), LogExpire, Label.Schedule];
    }

    /** `t1` is the clock the deadline is computed from, `t2` the clock of the check under the lock. */
    method Expire(k: bytes, ttl: int, t1: nat, t2: nat) returns (ok: bool, ghost run: seq<Label>)
      requires Valid() && t1 <= t2
      requires ttl > 0 ==> t1 + ttl * 1000 <= INT64_MAX
      modifies this`shards, this`heap, aof
      ensures Valid() && ok == (ttl > 0 && ExpireAnswer(old(Contents()), k, t2))
      ensures ok ==>
        var d := t1 + ttl * 1000;
        && Contents() == old(Contents())[k := Entry(old(Contents())[k].value, d)]
        && heap == old(heap) + Due(d, k) && File() == old(File()) + Traces([PExpireAt(k, d)])
      ensures !ok ==> && SameVisible(old(Contents()), Contents(), t2)
                      && heap == old(heap) && File() == old(File())
      ensures ttlOn ==> Works(old(At(t1)), run, At(t2), if ok then [PExpireAt(k, t1 + ttl * 1000)] else [])
    {
      hide Union, Placed, Works, Log;
      TickWorks(At(t1), t2);
      run := [Tick(t2)];
      if ttl <= 0 {
        return false, run;
      }
      ghost var rest;
      ok, rest := ExpireAt(k, t1 + ttl * 1000, t2);
      ghost var logged := if ok then [PExpireAt(k, t1 + ttl * 1000)] else [];
      if ttlOn {
        WorksOn(old(At(t1)), run, old(At(t2)), [], rest, At(t2), logged);
      }
      assert [] + logged == logged;
      run := run + rest;
    }

    method Persist(k: bytes, now: int) returns (ok: bool, ghost run: seq<Label>)
      requires Valid()
      modifies this`shards, aof
      ensures Valid() && ok == PersistAnswer(old(Contents()), k, now)
      ensures ok <==> Shown(old(Contents()), k, now).Some? && Shown(old(Contents()), k, now).value.deadline != -1
      ensures ok ==> && Contents() == old(Contents())[k := Entry(old(Contents())[k].value, -1)]
                     && File() == old(File()) + Traces([Record.Set(k, old(Contents())[k].value)])
      ensures !ok ==> SameVisible(old(Contents()), Contents(), now) && File() == old(File())
      ensures Works(old(At(now)), run, At(now), if ok then [Record.Set(k, old(Contents())[k].value)] else [])
    {
      hide Placed, Union, Find, Erase, Put, Works, Log;
      FindIsLookup(shards, k);
      EraseIsRemoval(shards, k);
      PersistWorks(At(now), k);
      var found := Find(shards, k);
      run := [TouchPersist(k)];
      if found.None? || found.value.deadline == -1 {
        return false, run;
      }
      if !Live(found.value, now) {
        shards := Erase(shards, k);
        return false, run;
      }
      PutIsUpdate(shards, k, Entry(found.value.value, -1));
      shards := Put(shards, k, Entry(found.value.value, -1));
      LogRecord(Record.Set(k, found.value.value));
      ok, run := true, [TouchPersist(k), LogPersist];
    }

    method Ttl(k: bytes, now: int) returns (r: int)
      requires Valid()
      ensures r == TtlAnswer(Contents(), k, now) && SecondsLeft(Shown(Contents(), k, now), now, r)
    {
      FindIsLookup(shards, k);
      var found := Find(shards, k);
      if found.None? {
        return -2;
      }
      if found.value.deadline < 0 {
        return -1;
      }
      var remaining := found.value.deadline - now;
      if remaining <= 0 {
        return -2;
      }
      r := remaining / 1000;
    }

    method OnTtlExpired(k: bytes, now: int)
      requires Valid()
      modifies this`shards
      ensures Valid() && SameVisible(old(Contents()), Contents(), now)
      ensures Contents() == if k in old(Contents()) && !Live(old(Contents())[k], now) then old(Contents()) - {k}
                            else old(Contents())
      ensures shards == DropIfExpired(old(shards), k, now)
    {
      DropIsInvisible(shards, k, now);
      DropRemoves(shards, k, now);
      shards := DropIfExpired(shards, k, now);
    }

    /** One turn of that thread's drain loop: pop the earliest entry, run the callback for its key. */
    method ExpireTop(top: (int, bytes), now: int, ghost next: int) returns (ghost run: seq<Label>)
      requires Valid() && Scheduled() && top in heap && top.0 <= now <= next && forall e :: e in heap ==> top.0 <= e.0
      modifies this`shards, this`heap
      ensures Valid() && Scheduled() && heap == old(heap) - multiset{top}
      ensures SameVisible(old(Contents()), Contents(), now)
      ensures Works(old(At(now)), run, At(next), [])
    {
      hide Placed, Union, DropIfExpired, Works, SameVisible;
      PopWorks(At(now), top.0, top.1, next);
      run := [Pop(top.0, top.1), Callback, Tick(next)];
      heap := heap - multiset{top};
      OnTtlExpired(top.1, now);
      PopKeepsScheduled(old(Contents()), Contents(), old(heap), top, now);
    }

    /**
     * The drain loop of the expiry thread. `clock(i)` is its i-th reading; it pops while the earliest
     * heap entry is due and reads the clock again after each callback.
     */
    method DrainHeap(clock: nat -> int) returns (last: nat, ghost run: seq<Label>)
      requires Valid() && Scheduled()
      requires forall i, j :: 0 <= i <= j ==> clock(i) <= clock(j)
      modifies this`shards, this`heap
      ensures Valid() && Scheduled()
      ensures forall e :: e in heap ==> clock(last) < e.0
      ensures SameVisible(old(Contents()), Contents(), clock(last))
      ensures forall k :: k in Contents() ==> !(0 < Contents()[k].deadline <= clock(last))
      ensures Works(old(At(clock(0))), run, At(clock(last)), [])
    {
      hide Placed, Union, DropIfExpired, Works;
      last, run := 0, [];
      ghost var none: seq<Record> := [];
      NoWork(At(clock(0)));
      SameAsItself(Contents(), clock(0));
      while heap != multiset{}
        invariant Valid() && Scheduled()
        invariant SameVisible(old(Contents()), Contents(), clock(last))
        invariant Works(old(At(clock(0))), run, At(clock(last)), [])
        decreases |heap|
      {
        ghost var earliest := EarliestExists(heap);
        var top :| top in heap && forall e :: e in heap ==> top.0 <= e.0;
        if clock(last) < top.0 {
          break;
        }
        ghost var before := Contents();
        ghost var here := At(clock(last));
        ghost var turn := ExpireTop(top, clock(last), clock(last + 1));
        WorksOn(old(At(clock(0))), run, here, none, turn, At(clock(last + 1)), none);
        assert none + none == none;
        SameIsTransitive(old(Contents()), before, Contents(), clock(last));
        VisibleStays(old(Contents()), Contents(), clock(last), clock(last + 1));
        run := run + turn;
        last := last + 1;
      }
    }

    method SetAof(writer: AofWriter?)
      modifies this`aof
      ensures aof == writer
    {
      aof := writer;
    }
  }

  /** Construction: a shard count that is not a power of two throws. */
  method Create(n: nat, enableTtl: bool) returns (r: Option<Store>)
    ensures r.Some? <==> PowerOfTwo(n)
    ensures r.Some? ==> fresh(r.value) && r.value.Valid() && r.value.Contents() == map[] && r.value.aof == null
  {
    if n == 0 || BitAnd(n, n - 1) != 0 {
      return None;
    }
    var store := new Store(n, enableTtl);
    r := Some(store);
  }

  /** The callback for the popped entry removes the key the entry was for, or its deadline is another one. */
  lemma PopKeepsScheduled(before: Table, after: Table, heap: multiset<(int, bytes)>, top: (int, bytes), now: int)
    requires forall k :: k in before && before[k].deadline > 0 ==> (before[k].deadline, k) in heap
    requires after == if top.1 in before && !Live(before[top.1], now) then before - {top.1} else before
    requires top in heap && top.0 <= now
    ensures forall k :: k in after && after[k].deadline > 0 ==> (after[k].deadline, k) in heap - multiset{top}
  {
  }

  lemma {:induction false} EarliestExists(heap: multiset<(int, bytes)>) returns (top: (int, bytes))
    requires heap != multiset{}
    ensures top in heap && forall e :: e in heap ==> top.0 <= e.0
    decreases |heap|
  {
    var x :| x in heap;
    var rest := heap - multiset{x};
    assert heap == rest + multiset{x};
    top := x;
    if rest != multiset{} {
      var best := EarliestExists(rest);
      if best.0 <= x.0 {
        top := best;
      }
    }
    forall e | e in heap
      ensures top.0 <= e.0
    {
      assert e == x || e in rest;
    }
  }

  lemma SixteenIsPowerOfTwo()
    ensures PowerOfTwo(16)
  {
    assert BitAnd(1, 0) == 0;
    assert BitAnd(2, 1) == 0;
    assert BitAnd(4, 3) == 0;
    assert BitAnd(8, 7) == 0;
  }

  /** One callback of the replay at start-up, on a store with no writer attached. */
  method ApplyCall(store: Store, r: Record, t: Reading)
    requires store.Valid() && store.aof == null
    modifies store`shards, store`heap
    ensures store.Valid() && store.Contents() == Restore(old(store.Contents()), r, t)
    ensures old(store.Scheduled()) && store.ttlOn ==> store.Scheduled()
  {
    hide Union, Placed;
    match r
    case Set(k, v) =>
      ghost var run := store.Set(k, v, t.due);
    case SetPxat(k, v, d) =>
      if d > t.due {
        ghost var run := store.SetAbsolute(k, v, d, t.due);
      }
    case Del(k) =>
      var existed, run := store.Delete(k, t.due);
    case PExpireAt(k, d) =>
      if d <= t.due {
        var existed, run := store.Delete(k, t.due);
      } else {
        assert k !in store.Contents() ==> store.Contents() - {k} == store.Contents();
        var ok, run := store.ExpireAt(k, d, t.check);
      }
  }

  /** The readings of a replay of `n` callbacks, two for each. */
  function ReadingsOf(clock: nat -> int, n: nat): (ts: seq<Reading>)
    ensures |ts| == n
  {
    seq(n, i requires 0 <= i < n => Reading(clock(2 * i), clock(2 * i + 1)))
  }

  /**
   * Start-up: replay the file into a fresh store without a writer, then attach the writer. The store
   * holds what the callbacks restore, each at its own clock readings, its deadlines are on the heap, and
   * not one byte was logged again. A negative argument count in the file ends the process (`ok` is false).
   * What comes up is a server at the start of a life.
   */
  method StartUp(file: bytes, writer: AofWriter?, clock: nat -> int) returns (ok: bool, store: Store)
    requires 0 <= clock(0) && forall i, j :: 0 <= i <= j ==> clock(i) <= clock(j)
    ensures ok == ReplayFrom(Start(file)).1
    ensures
      var calls := ReplayFrom(Start(file)).0;
      fresh(store) && store.Valid() && store.Contents() == RestoreAt(calls, ReadingsOf(clock, |calls|))
    ensures store.ttlOn && store.Scheduled()
    ensures ok ==> store.aof == writer
    ensures
      var calls := ReplayFrom(Start(file)).0;
      forall readers :: StartsLife(store.AsState(clock(2 * |calls|), readers), calls, ReadingsOf(clock, |calls|))
  {
    hide Union, Placed, ReplayFrom, Restore, StartsLife, RestoreAt, ReadingsOf;
    SixteenIsPowerOfTwo();
    store := new Store(16, true);
    var calls, count, finished := Replay(file);
    EmptyReading();
    assert calls[..0] == [] && ReadingsOf(clock, 0) == [];
    for i := 0 to |calls|
      invariant store.Valid() && store.aof == null && store.ttlOn && store.Scheduled()
      invariant store.Contents() == RestoreAt(calls[..i], ReadingsOf(clock, i))
    {
      ReadingsPush(calls, clock, i);
      ApplyCall(store, calls[i], Reading(clock(2 * i), clock(2 * i + 1)));
    }
    assert calls[..|calls|] == calls;
    ok := finished;
    if ok {
      store.SetAof(writer);
    }
    forall readers: nat
      ensures StartsLife(store.AsState(clock(2 * |calls|), readers), calls, ReadingsOf(clock, |calls|))
    {
      ReadingsReplay(clock, |calls|);
      UpIsStart(store.AsState(clock(2 * |calls|), readers), calls, ReadingsOf(clock, |calls|));
    }
  }

  lemma ReadingsPush(calls: seq<Record>, clock: nat -> int, i: nat)
    requires i < |calls|
    ensures RestoreAt(calls[..i + 1], ReadingsOf(clock, i + 1))
         == Restore(RestoreAt(calls[..i], ReadingsOf(clock, i)), calls[i], Reading(clock(2 * i), clock(2 * i + 1)))
  {
    hide Restore, RestoreAt;
    var t := Reading(clock(2 * i), clock(2 * i + 1));
    assert calls[..i + 1] == calls[..i] + [calls[i]];
    assert ReadingsOf(clock, i + 1) == ReadingsOf(clock, i) + [t];
    RestorePush(calls[..i], ReadingsOf(clock, i), calls[i], t);
  }

  lemma ReadingsReplay(clock: nat -> int, n: nat)
    requires 0 <= clock(0) && forall i, j :: 0 <= i <= j ==> clock(i) <= clock(j)
    ensures Replays(ReadingsOf(clock, n), n, clock(2 * n)) && 0 <= clock(2 * n) && Ticking(ReadingsOf(clock, n))
  {
  }
}
