/**
 * The store under concurrency (src/store/KvStore.cpp, src/store/TtlManager.cpp): one writer at a time
 * holds the mutation mutex, while readers and the expiry thread remove expired entries on their own.
 *
 * A label is one critical section. The clock is explicit and never goes back.
 */
module StoreRuns {
  import opened ByteStrings
  import opened Aof
  import opened Shards

  /** Where the holder of mutation_mutex_ is. */
  datatype Mutator =
    | Free
    | ToWrite(key: bytes, value: bytes, deadline: int)  // set family: logged, map not yet written
    | ToErase(key: bytes)                               // del: logged, not yet erased
    | ToLogExpire(key: bytes, deadline: int)            // expire: deadline changed, not yet logged
    | ToLogSet(key: bytes, value: bytes)                // persist: deadline removed, not yet logged
    | ToSchedule(key: bytes, deadline: int)             // not yet on the expiry heap

  /** A `get` between its two lock acquisitions. */
  datatype Reader = Calm | SawExpired(key: bytes)

  /** The expiry thread: between popping an entry and the callback for it. */
  datatype Ticker = Resting | Popped(key: bytes, deadline: int)

  datatype State = State(
    shards: seq<Table>,
    now: int,
    log: seq<Record>,  // logged since the server came up
    mutator: Mutator,
    readers: seq<Reader>,
    heap: multiset<(int, bytes)>,
    ticker: Ticker
  )

  datatype Label =
    | Tick(t: int)
    | BeginSet(key: bytes, value: bytes)
    | BeginSetEx(key: bytes, value: bytes, deadline: int)  // set_ex, set_absolute
    | Write
    | BeginDel(key: bytes)
    | EraseKey
    | TouchExpire(key: bytes, deadline: int)               // expire, expire_at, under the shard lock
    | LogExpire
    | TouchPersist(key: bytes)
    | LogPersist
    | Schedule
    | GetFast(r: nat, key: bytes)
    | GetSlow(r: nat)
    | AskTtl(key: bytes)
    | Pop(deadline: int, key: bytes)
    | Callback

  /** The recheck under the exclusive lock that get, expire, persist and the callback share. */
  function DropIfExpired(shards: seq<Table>, k: bytes, now: int): seq<Table>
    requires Placed(shards)
  {
    match Find(shards, k)
    case None => shards
    case Some(e) => if Live(e, now) then shards else Erase(shards, k)
  }

  predicate Enabled(s: State, l: Label) {
    Placed(s.shards) &&
    match l
    case Tick(t) => s.now <= t
    case BeginSet(k, v) => s.mutator == Free
    case BeginSetEx(k, v, d) => s.mutator == Free
    case Write => s.mutator.ToWrite?
    case BeginDel(k) => s.mutator == Free
    case EraseKey => s.mutator.ToErase?
    case TouchExpire(k, d) => s.mutator == Free
    case LogExpire => s.mutator.ToLogExpire?
    case TouchPersist(k) => s.mutator == Free
    case LogPersist => s.mutator.ToLogSet?
    case Schedule => s.mutator.ToSchedule?
    case GetFast(r, k) => r < |s.readers| && s.readers[r] == Calm
    case GetSlow(r) => r < |s.readers| && s.readers[r].SawExpired?
    case AskTtl(k) => true
    case Pop(d, k) =>
      && s.ticker == Resting && (d, k) in s.heap && d <= s.now
      && forall e :: e in s.heap ==> d <= e.0
    case Callback => s.ticker.Popped?
  }

  function Touched(s: State, k: bytes, d: int): State
    requires Placed(s.shards)
  {
    match Find(s.shards, k)
    case None => s
    case Some(e) =>
      if !Live(e, s.now) then s.(shards := Erase(s.shards, k))
      else s.(shards := Put(s.shards, k, Entry(e.value, d)), mutator := ToLogExpire(k, d))
  }

  function Persisted(s: State, k: bytes): State
    requires Placed(s.shards)
  {
    match Find(s.shards, k)
    case None => s
    case Some(e) =>
      if e.deadline == -1 then s
      else if !Live(e, s.now) then s.(shards := Erase(s.shards, k))
      else s.(shards := Put(s.shards, k, Entry(e.value, -1)), mutator := ToLogSet(k, e.value))
  }

  function Step(s: State, l: Label): State
    requires Enabled(s, l)
  {
    match l
    case Tick(t) => s.(now := t)
    case BeginSet(k, v) => s.(log := s.log + [Set(k, v)], mutator := ToWrite(k, v, -1))
    case BeginSetEx(k, v, d) => s.(log := s.log + [SetPxat(k, v, d)], mutator := ToWrite(k, v, d))
    case Write =>
      var m := s.mutator;
      s.(shards := Put(s.shards, m.key, Entry(m.value, m.deadline)),
         mutator := if m.deadline > 0 then ToSchedule(m.key, m.deadline) else Free)
    case BeginDel(k) => s.(log := s.log + [Del(k)], mutator := ToErase(k))
    case EraseKey => s.(shards := Erase(s.shards, s.mutator.key), mutator := Free)
    case TouchExpire(k, d) => Touched(s, k, d)
    case LogExpire =>
      var m := s.mutator;
      s.(log := s.log + [PExpireAt(m.key, m.deadline)], mutator := ToSchedule(m.key, m.deadline))
    case TouchPersist(k) => Persisted(s, k)
    case LogPersist => s.(log := s.log + [Set(s.mutator.key, s.mutator.value)], mutator := Free)
    case Schedule => s.(heap := s.heap + multiset{(s.mutator.deadline, s.mutator.key)}, mutator := Free)
    case GetFast(r, k) =>
      var found := Find(s.shards, k);
      if found.Some? && !Live(found.value, s.now) then s.(readers := s.readers[r := SawExpired(k)]) else s
    case GetSlow(r) =>
      s.(shards := DropIfExpired(s.shards, s.readers[r].key, s.now), readers := s.readers[r := Calm])
    case AskTtl(k) => s
    case Pop(d, k) => s.(heap := s.heap - multiset{(d, k)}, ticker := Popped(k, d))
    case Callback => s.(shards := DropIfExpired(s.shards, s.ticker.key, s.now), ticker := Resting)
  }

  function Init(shardCount: nat, readers: nat, now: int): State {
    State(seq(shardCount, i => map[]), now, [], Free, seq(readers, i => Calm), multiset{}, Resting)
  }

  predicate IsRun(s: State, run: seq<Label>)
    decreases |run|
  {
    run == [] || (Enabled(s, run[0]) && IsRun(Step(s, run[0]), run[1..]))
  }

  function After(s: State, run: seq<Label>): State
    requires IsRun(s, run)
    decreases |run|
  {
    if run == [] then s else After(Step(s, run[0]), run[1..])
  }

  lemma {:induction false} RunAppend(s: State, run: seq<Label>, more: seq<Label>)
    requires IsRun(s, run) && IsRun(After(s, run), more)
    ensures IsRun(s, run + more) && After(s, run + more) == After(After(s, run), more)
    decreases |run|
  {
    hide Enabled, Step;
    if run == [] {
      assert run + more == more;
    } else {
      RunAppend(Step(s, run[0]), run[1..], more);
      assert (run + more)[1..] == run[1..] + more && (run + more)[0] == run[0];
    }
  }

  lemma RunOne(s: State, l: Label)
    requires Enabled(s, l)
    ensures IsRun(s, [l]) && After(s, [l]) == Step(s, l)
  {
    hide Enabled, Step;
    assert [l][1..] == [];
  }

  lemma RunPush(s: State, run: seq<Label>, l: Label)
    requires IsRun(s, run) && Enabled(After(s, run), l)
    ensures IsRun(s, run + [l]) && After(s, run + [l]) == Step(After(s, run), l)
  {
    hide Enabled, Step, IsRun, After;
    RunOne(After(s, run), l);
    RunAppend(s, run, [l]);
  }

  // ---- pieces of work ----

  /** What is in the log already makes no difference to what happens next. */
  lemma StepBehind(s: State, l: Label, before: seq<Record>)
    requires Enabled(s, l)
    ensures
      var behind := s.(log := before + s.log);
      Enabled(behind, l) && Step(behind, l) == Step(s, l).(log := before + Step(s, l).log)
  {
    hide Placed, Find, Put, Erase, DropIfExpired;
  }

  lemma {:induction false} RunBehind(s: State, run: seq<Label>, before: seq<Record>)
    requires IsRun(s, run)
    ensures
      var behind := s.(log := before + s.log);
      IsRun(behind, run) && After(behind, run) == After(s, run).(log := before + After(s, run).log)
    decreases |run|
  {
    hide Enabled, Step;
    if run != [] {
      StepBehind(s, run[0], before);
      RunBehind(Step(s, run[0]), run[1..], before);
    }
  }

  /** The run takes `s` to `s'` and logs `records`; both states are seen from the start of their own piece of work. */
  predicate Works(s: State, run: seq<Label>, s': State, records: seq<Record>) {
    s.log == [] && s'.log == [] && IsRun(s, run) && After(s, run) == s'.(log := records)
  }

  lemma NoWork(s: State)
    requires s.log == []
    ensures Works(s, [], s, [])
  {
  }

  /** One piece of work after the other. */
  lemma WorksOn(
    s: State, run: seq<Label>, s': State, records: seq<Record>, more: seq<Label>, s'': State, later: seq<Record>)
    requires Works(s, run, s', records) && Works(s', more, s'', later)
    ensures Works(s, run + more, s'', records + later)
  {
    hide IsRun, After;
    RunBehind(s', more, records);
    assert records + [] == records;
    RunAppend(s, run, more);
  }

  // ---- what the log means ----

  /** The ideal effect of one record. */
  function Apply(m: Table, r: Record): Table {
    match r
    case Set(k, v) => m[k := Entry(v, -1)]
    case SetPxat(k, v, d) => m[k := Entry(v, d)]
    case Del(k) => m - {k}
    case PExpireAt(k, d) => if k in m then m[k := Entry(m[k].value, d)] else m
  }

  function FoldFrom(base: Table, log: seq<Record>): Table
    decreases |log|
  {
    if log == [] then base else Apply(FoldFrom(base, log[..|log| - 1]), log[|log| - 1])
  }

  function Fold(log: seq<Record>): Table { FoldFrom(map[], log) }

  lemma FoldPush(base: Table, log: seq<Record>, r: Record)
    ensures FoldFrom(base, log + [r]) == Apply(FoldFrom(base, log), r)
  {
    assert (log + [r])[..|log|] == log;
  }

  lemma {:induction false} FoldAppend(base: Table, a: seq<Record>, b: seq<Record>)
    ensures FoldFrom(base, a + b) == FoldFrom(FoldFrom(base, a), b)
    decreases |b|
  {
    if b == [] {
      assert a + b == a;
    } else {
      var n := |b| - 1;
      FoldAppend(base, a, b[..n]);
      assert a + b == a + b[..n] + [b[n]];
      FoldPush(base, a + b[..n], b[n]);
    }
  }

  /** What a client can see of a key at time `t`: its value and deadline while it is live. */
  function Shown(m: Table, k: bytes, t: int): Option<Entry> {
    if k in m && Live(m[k], t) then Some(m[k]) else None
  }

  ghost predicate SameVisible(m1: Table, m2: Table, now: int) {
    forall k :: Shown(m1, k, now) == Shown(m2, k, now)
  }

  /** A key that looks the same in two maps now looks the same for ever. */
  lemma ShownStays(m1: Table, m2: Table, k: bytes, now: int, t: int)
    requires Shown(m1, k, now) == Shown(m2, k, now) && now <= t
    ensures Shown(m1, k, t) == Shown(m2, k, t)
  {
  }

  /** Two maps that look the same now look the same for ever. */
  lemma VisibleStays(m1: Table, m2: Table, now: int, t: int)
    requires SameVisible(m1, m2, now) && now <= t
    ensures SameVisible(m1, m2, t)
  {
    forall k
      ensures Shown(m1, k, t) == Shown(m2, k, t)
    {
      assert Shown(m1, k, now) == Shown(m2, k, now);
    }
  }

  lemma SameAsItself(m: Table, now: int)
    ensures SameVisible(m, m, now)
  {
  }

  lemma SameVisibleSymmetric(m1: Table, m2: Table, now: int)
    requires SameVisible(m1, m2, now)
    ensures SameVisible(m2, m1, now)
  {
    forall k
      ensures Shown(m2, k, now) == Shown(m1, k, now)
    {
      assert Shown(m1, k, now) == Shown(m2, k, now);
    }
  }

  lemma SameIsTransitive(m1: Table, m2: Table, m3: Table, now: int)
    requires SameVisible(m1, m2, now) && SameVisible(m2, m3, now)
    ensures SameVisible(m1, m3, now)
  {
    forall k
      ensures Shown(m1, k, now) == Shown(m3, k, now)
    {
      assert Shown(m1, k, now) == Shown(m2, k, now) == Shown(m3, k, now);
    }
  }

  lemma DropIsInvisible(shards: seq<Table>, k: bytes, now: int)
    requires Placed(shards)
    ensures
      var after := DropIfExpired(shards, k, now);
      && Placed(after) && SameVisible(Union(shards), Union(after), now)
      && (Union(after) == Union(shards)
          || (k in Union(shards) && !Live(Union(shards)[k], now) && Union(after) == Union(shards) - {k}))
  {
    hide Union, Placed, Erase, Find;
    FindIsLookup(shards, k);
    EraseIsRemoval(shards, k);
  }

  // ---- the order in which writers take effect ----

  /**
   * The records whose effect is in the shards: the set family and del log before they write, expire
   * and persist write before they log.
   */
  function Committed(s: State): seq<Record> {
    match s.mutator
    case ToWrite(k, v, d) => if s.log == [] then [] else s.log[..|s.log| - 1]
    case ToErase(k) => if s.log == [] then [] else s.log[..|s.log| - 1]
    case ToLogExpire(k, d) => s.log + [PExpireAt(k, d)]
    case ToLogSet(k, v) => s.log + [Set(k, v)]
    case _ => s.log
  }

  /** A writer that logs first finds its own record at the end of the log. */
  predicate PendingIsLogged(s: State) {
    match s.mutator
    case ToWrite(k, v, d) =>
      s.log != [] && (s.log[|s.log| - 1] == SetPxat(k, v, d) || (s.log[|s.log| - 1] == Set(k, v) && d == -1))
    case ToErase(k) => s.log != [] && s.log[|s.log| - 1] == Del(k)
    case _ => true
  }

  /** The record whose effect a step puts in the shards, if it does. */
  function Commits(s: State, l: Label): seq<Record>
    requires Placed(s.shards)
  {
    match l
    case Write => if s.log == [] then [] else [s.log[|s.log| - 1]]
    case EraseKey => if s.log == [] then [] else [s.log[|s.log| - 1]]
    case TouchExpire(k, d) =>
      var found := Find(s.shards, k);
      if found.Some? && Live(found.value, s.now) then [PExpireAt(k, d)] else []
    case TouchPersist(k) =>
      var found := Find(s.shards, k);
      if found.Some? && found.value.deadline != -1 && Live(found.value, s.now) then [Set(k, found.value.value)] else []
    case _ => []
  }

  lemma BeginCommits(s: State, r: Record, m: Mutator)
    requires s.mutator == Free && (m.ToWrite? || m.ToErase?)
    ensures Committed(s.(log := s.log + [r], mutator := m)) == Committed(s)
  {
    assert (s.log + [r])[..|s.log|] == s.log;
  }

  lemma EndCommits(s: State, shards: seq<Table>, m: Mutator)
    requires s.mutator.ToWrite? || s.mutator.ToErase?
    requires s.log != [] && (m.ToSchedule? || m.Free?)
    ensures Committed(s.(shards := shards, mutator := m)) == Committed(s) + [s.log[|s.log| - 1]]
  {
    assert s.log == s.log[..|s.log| - 1] + [s.log[|s.log| - 1]];
  }

  lemma StepCommits(s: State, l: Label)
    requires Enabled(s, l) && PendingIsLogged(s)
    ensures PendingIsLogged(Step(s, l)) && Committed(Step(s, l)) == Committed(s) + Commits(s, l)
  {
    hide Placed, Find, Put, Erase, DropIfExpired, Committed;
    var s' := Step(s, l);
    match l
    case BeginSet(k, v) => BeginCommits(s, Set(k, v), s'.mutator);
    case BeginSetEx(k, v, d) => BeginCommits(s, SetPxat(k, v, d), s'.mutator);
    case BeginDel(k) => BeginCommits(s, Del(k), s'.mutator);
    case Write => EndCommits(s, s'.shards, s'.mutator);
    case EraseKey => EndCommits(s, s'.shards, s'.mutator);
    case TouchExpire(k, d) => TouchCommits(s, l);
    case TouchPersist(k) => TouchCommits(s, l);
    case _ => CommittedReads(s, s');
  }

  lemma TouchCommits(s: State, l: Label)
    requires Enabled(s, l) && (l.TouchExpire? || l.TouchPersist?)
    ensures Committed(Step(s, l)) == Committed(s) + Commits(s, l)
  {
    hide Placed, Find, Put, Erase;
    assert s.log + [] == s.log;
  }

  /** Logging and scheduling leave what is committed as it is, and so do readers, clock and expiry. */
  lemma CommittedReads(s: State, s': State)
    requires
      || (s'.log == s.log && s'.mutator == s.mutator)
      || (s.mutator.ToLogExpire? && s'.mutator.ToSchedule?
          && s'.log == s.log + [PExpireAt(s.mutator.key, s.mutator.deadline)])
      || (s.mutator.ToLogSet? && s'.mutator.Free? && s'.log == s.log + [Set(s.mutator.key, s.mutator.value)])
      || (s.mutator.ToSchedule? && s'.mutator.Free? && s'.log == s.log)
    ensures Committed(s') == Committed(s) == Committed(s) + []
  {
  }

  // ---- the shards follow the log ----

  /**
   * The shards show `k` as the committed records make of `base`, which is what the server held when it
   * came up.
   */
  predicate Follows(s: State, base: Table, k: bytes) {
    && Placed(s.shards) && PendingIsLogged(s)
    && Shown(Union(s.shards), k, s.now) == Shown(FoldFrom(base, Committed(s)), k, s.now)
  }

  /** What a step that commits a record does to the single map. */
  lemma CommitIsApply(s: State, l: Label)
    requires Enabled(s, l) && PendingIsLogged(s) && Commits(s, l) != []
    ensures
      var m, s' := Union(s.shards), Step(s, l);
      && |Commits(s, l)| == 1 && Placed(s'.shards) && s'.now == s.now
      && Union(s'.shards) == Apply(m, Commits(s, l)[0])
      && (Commits(s, l)[0].PExpireAt? ==> l.TouchExpire? && l.key in m && Live(m[l.key], s.now))
  {
    hide Union, Placed, Find, Put, Erase;
    var m := Union(s.shards);
    match l
    case Write => PutIsUpdate(s.shards, s.mutator.key, Entry(s.mutator.value, s.mutator.deadline));
    case EraseKey => EraseIsRemoval(s.shards, s.mutator.key);
    case TouchExpire(k, d) =>
      FindIsLookup(s.shards, k);
      PutIsUpdate(s.shards, k, Entry(m[k].value, d));
    case TouchPersist(k) =>
      FindIsLookup(s.shards, k);
      PutIsUpdate(s.shards, k, Entry(m[k].value, -1));
  }

  /** A record acts on what is visible: on a live key in the case of PEXPIREAT. */
  lemma ApplySeesTheVisible(m1: Table, m2: Table, r: Record, k: bytes, now: int)
    requires Shown(m1, k, now) == Shown(m2, k, now)
    requires r.PExpireAt? && r.key == k ==> k in m1 && Live(m1[k], now)
    ensures Shown(Apply(m1, r), k, now) == Shown(Apply(m2, r), k, now)
  {
  }

  /**
   * Whatever else happens (the slow half of get, callbacks, a refused expire or persist, logging,
   * scheduling, the clock), no entry that is live at that moment is removed or changed: every key looks
   * the same before and after.
   */
  lemma OnlyWritersAreSeen(s: State, l: Label)
    requires Enabled(s, l) && PendingIsLogged(s) && Commits(s, l) == []
    ensures Placed(Step(s, l).shards)
    ensures SameVisible(Union(s.shards), Union(Step(s, l).shards), Step(s, l).now)
  {
    hide Union, Placed, Find, Put, Erase, DropIfExpired, SameVisible;
    var m := Union(s.shards);
    SameAsItself(m, Step(s, l).now);
    match l
    case GetSlow(r) => DropIsInvisible(s.shards, s.readers[r].key, s.now);
    case Callback => DropIsInvisible(s.shards, s.ticker.key, s.now);
    case TouchExpire(k, d) => RefusalIsDrop(s, k); DropIsInvisible(s.shards, k, s.now);
    case TouchPersist(k) => RefusalIsDrop(s, k); DropIsInvisible(s.shards, k, s.now);
    case _ =>
  }

  /** A refused expire or persist only drops an expired entry, if even that. */
  lemma RefusalIsDrop(s: State, k: bytes)
    requires Placed(s.shards)
    ensures forall d :: Commits(s, TouchExpire(k, d)) == [] ==>
      Touched(s, k, d).shards == DropIfExpired(s.shards, k, s.now)
    ensures Commits(s, TouchPersist(k)) == [] ==>
      Persisted(s, k).shards == s.shards || Persisted(s, k).shards == DropIfExpired(s.shards, k, s.now)
  {
    hide Placed, Find, Put, Erase;
  }

  lemma StepFollows(s: State, l: Label, base: Table, k: bytes)
    requires Follows(s, base, k) && Enabled(s, l)
    ensures Follows(Step(s, l), base, k)
  {
    hide Union, Placed, FoldFrom, Step, Enabled, Commits, Apply, Shown, SameVisible, PendingIsLogged, Committed;
    var s', f := Step(s, l), FoldFrom(base, Committed(s));
    StepCommits(s, l);
    if Commits(s, l) == [] {
      assert Committed(s') == Committed(s);
      OnlyWritersAreSeen(s, l);
      SameAt(Union(s.shards), Union(s'.shards), k, s'.now);
      StepTime(s, l);
      ShownStays(Union(s.shards), f, k, s.now, s'.now);
    } else {
      var r := Commits(s, l)[0];
      CommitIsApply(s, l);
      FoldPush(base, Committed(s), r);
      assert Commits(s, l) == [r];
      ApplySeesTheVisible(Union(s.shards), f, r, k, s.now) by {
        CommittedTouch(s, l);
      }
    }
  }

  lemma CommittedTouch(s: State, l: Label)
    requires Enabled(s, l) && PendingIsLogged(s) && Commits(s, l) != []
    ensures Commits(s, l)[0].PExpireAt? ==> l.TouchExpire? && Commits(s, l)[0].key == l.key
  {
    hide Placed, Find;
  }

  lemma SameAt(m1: Table, m2: Table, k: bytes, now: int)
    requires SameVisible(m1, m2, now)
    ensures Shown(m1, k, now) == Shown(m2, k, now)
  {
  }

  lemma StepTime(s: State, l: Label)
    requires Enabled(s, l)
    ensures s.now <= Step(s, l).now
  {
    hide Placed, Find, Put, Erase, DropIfExpired;
  }

  lemma {:induction false} RunFollows(s: State, run: seq<Label>, base: Table, k: bytes)
    requires Follows(s, base, k) && IsRun(s, run)
    ensures Follows(After(s, run), base, k)
    decreases |run|
  {
    hide Follows, Step, Enabled;
    if run != [] {
      StepFollows(s, run[0], base, k);
      RunFollows(Step(s, run[0]), run[1..], base, k);
    }
  }

  lemma {:induction false} RunTime(s: State, run: seq<Label>)
    requires IsRun(s, run)
    ensures s.now <= After(s, run).now
    decreases |run|
  {
    hide Step, Enabled;
    if run != [] {
      StepTime(s, run[0]);
      RunTime(Step(s, run[0]), run[1..]);
    }
  }

  /** A server at the start of its life: nobody is busy and nothing has been logged in this life. */
  predicate Quiet(s: State) {
    && Placed(s.shards) && s.log == [] && s.mutator == Free && s.ticker == Resting
    && forall r :: 0 <= r < |s.readers| ==> s.readers[r] == Calm
  }

  /**
   * From any start of life, after any interleaving of writers, readers and the expiry thread, whenever
   * the mutation mutex is free: folding the records logged since onto any map that looked like the
   * shards at the start shows the key exactly as the shards do, value and deadline, from now on.
   */
  lemma ShardsFollowTheLog(s0: State, run: seq<Label>, base: Table, k: bytes, t: int)
    requires Quiet(s0) && IsRun(s0, run)
    requires Shown(Union(s0.shards), k, s0.now) == Shown(base, k, s0.now)
    requires After(s0, run).mutator == Free && After(s0, run).now <= t
    ensures
      var s := After(s0, run);
      Placed(s.shards) && Shown(Union(s.shards), k, t) == Shown(FoldFrom(base, s.log), k, t)
  {
    hide Union, FoldFrom, Placed, Shown, IsRun, After;
    StartFollows(s0, base, k);
    RunFollows(s0, run, base, k);
    var s := After(s0, run);
    ShownStays(Union(s.shards), FoldFrom(base, s.log), k, s.now, t);
  }

  lemma StartFollows(s0: State, base: Table, k: bytes)
    requires Quiet(s0) && Shown(Union(s0.shards), k, s0.now) == Shown(base, k, s0.now)
    ensures Follows(s0, base, k)
  {
    hide Union, Placed, Shown;
  }
}
