/** Expiry: no entry escapes the expiry thread, and removal is safe and cannot be observed. */
module ExpiryLaws {
  import opened ByteStrings
  import opened Shards
  import opened StoreRuns

  // ---- coverage ----

  /** Someone will come for an entry with deadline `d`: the heap, its own writer, or the expiry thread. */
  predicate Covered(s: State, k: bytes, d: int) {
    || (d, k) in s.heap
    || s.mutator == ToSchedule(k, d) || s.mutator == ToLogExpire(k, d)
    || s.ticker == Popped(k, d)
  }

  predicate AllCovered(s: State) {
    && Placed(s.shards)
    && (s.ticker.Popped? ==> s.ticker.deadline <= s.now)
    && var m := Union(s.shards);
       forall k :: k in m && m[k].deadline > 0 ==> Covered(s, k, m[k].deadline)
  }

  lemma DropKeepsCovered(s: State, k: bytes, s': State)
    requires AllCovered(s) && s'.shards == DropIfExpired(s.shards, k, s.now)
    requires s'.heap == s.heap && s'.mutator == s.mutator && s'.now == s.now
    requires s'.ticker == s.ticker || (s.ticker.Popped? && s.ticker.key == k && s'.ticker == Resting)
    ensures AllCovered(s')
  {
    hide Union, Placed, DropIfExpired;
    DropIsInvisible(s.shards, k, s.now);
    DropRemoves(s.shards, k, s.now);
    var m, m' := Union(s.shards), Union(s'.shards);
    forall x | x in m' && m'[x].deadline > 0
      ensures Covered(s', x, m'[x].deadline)
    {
      assert x in m && m[x] == m'[x] && Covered(s, x, m[x].deadline);
    }
  }

  /** After the recheck the key is gone or live. */
  lemma DropRemoves(shards: seq<Table>, k: bytes, now: int)
    requires Placed(shards)
    ensures
      var after := DropIfExpired(shards, k, now);
      Placed(after) && (k in Union(after) ==> Live(Union(after)[k], now))
  {
    hide Union, Placed, Find, Erase;
    FindIsLookup(shards, k);
    EraseIsRemoval(shards, k);
  }

  lemma TouchKeepsCovered(s: State, k: bytes, d: int)
    requires AllCovered(s) && s.mutator == Free
    ensures AllCovered(Touched(s, k, d))
  {
    hide Union, Placed, Find, Erase, Put;
    FindIsLookup(s.shards, k);
    EraseIsRemoval(s.shards, k);
    var m := Union(s.shards);
    if k in m {
      PutIsUpdate(s.shards, k, Entry(m[k].value, d));
    }
  }

  lemma PersistKeepsCovered(s: State, k: bytes)
    requires AllCovered(s) && s.mutator == Free
    ensures AllCovered(Persisted(s, k))
  {
    hide Union, Placed, Find, Erase, Put;
    FindIsLookup(s.shards, k);
    EraseIsRemoval(s.shards, k);
    var m := Union(s.shards);
    if k in m {
      PutIsUpdate(s.shards, k, Entry(m[k].value, -1));
    }
  }

  lemma StepKeepsCovered(s: State, l: Label)
    requires AllCovered(s) && Enabled(s, l)
    ensures AllCovered(Step(s, l))
  {
    hide Union, Placed, Find, Erase, Put, Touched, Persisted, DropIfExpired;
    match l
    case Write => PutIsUpdate(s.shards, s.mutator.key, Entry(s.mutator.value, s.mutator.deadline));
    case EraseKey => EraseIsRemoval(s.shards, s.mutator.key);
    case TouchExpire(k, d) => TouchKeepsCovered(s, k, d);
    case TouchPersist(k) => PersistKeepsCovered(s, k);
    case GetSlow(r) => DropKeepsCovered(s, s.readers[r].key, Step(s, l));
    case Callback => DropKeepsCovered(s, s.ticker.key, Step(s, l));
    case _ =>
  }

  lemma {:induction false} RunKeepsCovered(s: State, run: seq<Label>)
    requires AllCovered(s) && IsRun(s, run)
    ensures AllCovered(After(s, run))
    decreases |run|
  {
    hide AllCovered, Step, Enabled;
    if run != [] {
      StepKeepsCovered(s, run[0]);
      RunKeepsCovered(Step(s, run[0]), run[1..]);
    }
  }

  /** A server that comes up with every entry's deadline on its heap. */
  lemma StartCovered(s0: State)
    requires Quiet(s0)
    requires forall k :: k in Union(s0.shards) && Union(s0.shards)[k].deadline > 0 ==>
               (Union(s0.shards)[k].deadline, k) in s0.heap
    ensures AllCovered(s0)
  {
    hide Union, Placed;
  }

  /**
   * TTL coverage: from any start with its deadlines on the heap, in every reachable state each stored
   * entry with a deadline is accounted for.
   */
  lemma NoEntryEscapes(s0: State, run: seq<Label>, k: bytes)
    requires AllCovered(s0) && IsRun(s0, run)
    ensures
      var s := After(s0, run);
      && Placed(s.shards)
      && (k in Union(s.shards) && Union(s.shards)[k].deadline > 0 ==> Covered(s, k, Union(s.shards)[k].deadline))
  {
    hide Union, Placed, Covered;
    RunKeepsCovered(s0, run);
  }

  /**
   * So once the expiry thread has caught up (nobody in between, every heap entry lies ahead) no entry
   * whose deadline has passed is left in any shard.
   */
  lemma CaughtUpMeansSwept(s0: State, run: seq<Label>, k: bytes)
    requires AllCovered(s0) && IsRun(s0, run)
    requires
      var s := After(s0, run);
      s.mutator == Free && s.ticker == Resting && forall e :: e in s.heap ==> s.now < e.0
    ensures
      var s := After(s0, run);
      Placed(s.shards) && (k in Union(s.shards) ==> !(0 < Union(s.shards)[k].deadline <= s.now))
  {
    hide Union, Placed, After, IsRun, AllCovered;
    NoEntryEscapes(s0, run, k);
  }

  // ---- removal is safe and unobservable ----

  /** A writer touches no key but that of the record it commits. */
  lemma WritersTouchTheirKey(s: State, l: Label, k: bytes)
    requires Enabled(s, l) && PendingIsLogged(s) && Commits(s, l) != [] && k != Commits(s, l)[0].key
    ensures Placed(Step(s, l).shards)
    ensures Shown(Union(s.shards), k, s.now) == Shown(Union(Step(s, l).shards), k, s.now)
  {
    hide Union, Placed, Step, Enabled, Commits, PendingIsLogged;
    CommitIsApply(s, l);
  }

  // What each operation answers on a map.

  function GetAnswer(m: Table, k: bytes, now: int): Option<bytes> {
    if k in m && Live(m[k], now) then Some(m[k].value) else None
  }

  /** Seconds left, -1 without deadline, -2 when absent or expired. */
  function TtlAnswer(m: Table, k: bytes, now: int): int {
    if k !in m then -2
    else if m[k].deadline < 0 then -1
    else if m[k].deadline - now <= 0 then -2
    else (m[k].deadline - now) / 1000
  }

  predicate ExpireAnswer(m: Table, k: bytes, now: int) { k in m && Live(m[k], now) }

  predicate PersistAnswer(m: Table, k: bytes, now: int) { k in m && m[k].deadline != -1 && Live(m[k], now) }

  predicate DelAnswer(m: Table, k: bytes) { k in m }

  /** What is shown of a key at a time: its entry, as long as that has no deadline or one that lies ahead. */
  lemma ShownMeans(m: Table, k: bytes, now: int, e: Entry)
    ensures Shown(m, k, now) == Some(e) <==> k in m && m[k] == e && (e.deadline < 0 || now < e.deadline)
    ensures Shown(m, k, now).None? <==> k in m ==> 0 <= m[k].deadline <= now
  {
  }

  /** `r` is the number of full seconds left of the entry shown, -1 if it has no deadline, -2 if none is shown. */
  predicate SecondsLeft(shown: Option<Entry>, now: int, r: int) {
    match shown
    case None => r == -2
    case Some(e) => if e.deadline < 0 then r == -1 else 0 <= r && r * 1000 <= e.deadline - now < r * 1000 + 1000
  }

  /**
   * What the answers say about the entry shown: get its value, ttl the full seconds left, expire that there
   * is one, persist that it has a deadline to lose, count how many keys show one.
   */
  lemma AnswersMean(m: Table, k: bytes, now: int)
    ensures
      var shown := Shown(m, k, now);
      && GetAnswer(m, k, now) == (if shown.Some? then Some(shown.value.value) else None)
      && SecondsLeft(shown, now, TtlAnswer(m, k, now))
      && (ExpireAnswer(m, k, now) <==> shown.Some?)
      && (PersistAnswer(m, k, now) <==> shown.Some? && shown.value.deadline != -1)
      && (k in LiveKeys(m, now) <==> shown.Some?)
  {
  }

  /**
   * Answers depend only on what is visible: get, ttl, expire, persist and count cannot tell whether an
   * expired entry has already been removed.
   */
  lemma AnswersSeeOnlyTheVisible(m1: Table, m2: Table, k: bytes, now: int)
    requires SameVisible(m1, m2, now)
    ensures GetAnswer(m1, k, now) == GetAnswer(m2, k, now)
    ensures TtlAnswer(m1, k, now) == TtlAnswer(m2, k, now)
    ensures ExpireAnswer(m1, k, now) == ExpireAnswer(m2, k, now)
    ensures PersistAnswer(m1, k, now) == PersistAnswer(m2, k, now)
    ensures LiveKeys(m1, now) == LiveKeys(m2, now)
  {
    assert Shown(m1, k, now) == Shown(m2, k, now);
    forall x
      ensures x in LiveKeys(m1, now) <==> x in LiveKeys(m2, now)
    {
      assert Shown(m1, x, now) == Shown(m2, x, now);
    }
  }

  /**
   * `del` can tell: it answers for the physical entry. It agrees with what get would have answered
   * just before, exactly when no expired entry is still stored under the key.
   */
  lemma DelAnswersForTheVisible(m: Table, k: bytes, now: int)
    ensures DelAnswer(m, k) == GetAnswer(m, k, now).Some? <==> !(k in m && m[k].deadline >= 0 && m[k].deadline <= now)
  {
  }

  /** One map shows a key as another does, yet `del` answers differently: the expired entry counts. */
  lemma DelSeesTheExpired(k: bytes, v: bytes, now: nat)
    ensures
      var stale: Table := map[k := Entry(v, now)];
      SameVisible(stale, map[], now) && DelAnswer(stale, k) && !DelAnswer(map[], k)
  {
  }
}
