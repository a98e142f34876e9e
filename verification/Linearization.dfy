/**
 * Answers under concurrency: every operation of the store answers, and takes effect, as if one map were
 * read and changed in a single atomic step. That map is what the server came up with, changed by the
 * committed records in order.
 */
module Linearization {
  import opened ByteStrings
  import opened Shards
  import opened StoreRuns
  import opened ExpiryLaws

  datatype Result = Found(value: Option<bytes>) | Seconds(n: int) | Said(yes: bool)

  /** What a step's own thread returns from what it finds in its shard; None while the operation goes on. */
  function Returns(s: State, l: Label): Option<Result>
    requires Enabled(s, l)
  {
    match l
    case GetFast(_, k) =>
      (match Find(s.shards, k)
       case None => Some(Found(None))
       case Some(e) => if Live(e, s.now) then Some(Found(Some(e.value))) else None)
    case GetSlow(_) => Some(Found(None))
    case AskTtl(k) =>
      (match Find(s.shards, k)
       case None => Some(Seconds(-2))
       case Some(e) =>
         if e.deadline < 0 then Some(Seconds(-1))
         else if e.deadline - s.now <= 0 then Some(Seconds(-2))
         else Some(Seconds((e.deadline - s.now) / 1000)))
    case EraseKey => Some(Said(Find(s.shards, s.mutator.key).Some?))
    case TouchExpire(k, _) =>
      var found := Find(s.shards, k);
      Some(Said(found.Some? && Live(found.value, s.now)))
    case TouchPersist(k) =>
      var found := Find(s.shards, k);
      Some(Said(found.Some? && found.value.deadline != -1 && Live(found.value, s.now)))
    case _ => None
  }

  // ---- the one map ----

  function OneMap(s: State, base: Table): Table { FoldFrom(base, Committed(s)) }

  /** What the operation whose moment this step is answers on the one map. */
  function AtomicAnswer(m: Table, l: Label, now: int): Option<Result> {
    match l
    case GetFast(_, k) => Some(Found(GetAnswer(m, k, now)))
    case AskTtl(k) => Some(Seconds(TtlAnswer(m, k, now)))
    case TouchExpire(k, _) => Some(Said(ExpireAnswer(m, k, now)))
    case TouchPersist(k) => Some(Said(PersistAnswer(m, k, now)))
    case _ => None
  }

  /** What it makes of the one map. `writer` is the holder of the mutation mutex. */
  function AtomicEffect(m: Table, l: Label, writer: Mutator, now: int): Table {
    match l
    case Write => if writer.ToWrite? then m[writer.key := Entry(writer.value, writer.deadline)] else m
    case EraseKey => if writer.ToErase? then m - {writer.key} else m
    case TouchExpire(k, d) => if ExpireAnswer(m, k, now) then m[k := Entry(m[k].value, d)] else m
    case TouchPersist(k) => if PersistAnswer(m, k, now) then m[k := Entry(m[k].value, -1)] else m
    case _ => m
  }

  ghost predicate FollowsAll(s: State, base: Table) { forall k :: Follows(s, base, k) }

  lemma FollowsIsSameVisible(s: State, base: Table)
    requires FollowsAll(s, base)
    ensures Placed(s.shards) && PendingIsLogged(s)
    ensures SameVisible(Union(s.shards), OneMap(s, base), s.now)
  {
    hide Union, Placed, FoldFrom, Committed, PendingIsLogged;
    assert Follows(s, base, []);
    forall k
      ensures Shown(Union(s.shards), k, s.now) == Shown(OneMap(s, base), k, s.now)
    {
      assert Follows(s, base, k);
    }
  }

  lemma StepFollowsAll(s: State, l: Label, base: Table)
    requires FollowsAll(s, base) && Enabled(s, l)
    ensures FollowsAll(Step(s, l), base)
  {
    hide Follows, Step, Enabled;
    forall k
      ensures Follows(Step(s, l), base, k)
    {
      assert Follows(s, base, k);
      StepFollows(s, l, base, k);
    }
  }

  /** The record a step commits, as the one map sees it. */
  lemma CommitsOnOneMap(s: State, l: Label, m: Table)
    requires Enabled(s, l) && PendingIsLogged(s) && SameVisible(Union(s.shards), m, s.now)
    ensures |Commits(s, l)| <= 1
    ensures (if Commits(s, l) == [] then m else Apply(m, Commits(s, l)[0])) == AtomicEffect(m, l, s.mutator, s.now)
  {
    hide Union, Placed, Find;
    if l.TouchExpire? || l.TouchPersist? {
      FindIsLookup(s.shards, l.key);
      assert Shown(Union(s.shards), l.key, s.now) == Shown(m, l.key, s.now);
    }
  }

  /** Each step changes the one map by the whole operation whose moment it is, or not at all. */
  lemma StepIsAtomic(s: State, l: Label, base: Table)
    requires FollowsAll(s, base) && Enabled(s, l)
    ensures OneMap(Step(s, l), base) == AtomicEffect(OneMap(s, base), l, s.mutator, s.now)
  {
    hide Union, Placed, FoldFrom, Committed, Step, Enabled, Commits, Apply, AtomicEffect, PendingIsLogged, Follows;
    FollowsIsSameVisible(s, base);
    StepCommits(s, l);
    CommitsOnOneMap(s, l, OneMap(s, base));
    if Commits(s, l) == [] {
      assert Committed(Step(s, l)) == Committed(s);
    } else {
      assert Commits(s, l) == [Commits(s, l)[0]];
      FoldPush(base, Committed(s), Commits(s, l)[0]);
    }
  }

  /**
   * And it answers for the one map at that moment. A get that found an expired entry answers only after
   * its second lock, but what it will answer is right here.
   */
  lemma AnswerIsAtomic(s: State, l: Label, base: Table)
    requires FollowsAll(s, base) && Enabled(s, l) && AtomicAnswer(OneMap(s, base), l, s.now).Some?
    ensures Returns(s, l).Some? ==> Returns(s, l) == AtomicAnswer(OneMap(s, base), l, s.now)
    ensures Returns(s, l).None? ==>
      && l.GetFast? && Step(s, l).readers[l.r] == SawExpired(l.key)
      && AtomicAnswer(OneMap(s, base), l, s.now) == Some(Found(None))
  {
    hide Union, Placed, FoldFrom, Committed, PendingIsLogged, Find, Follows;
    FollowsIsSameVisible(s, base);
    FindIsLookup(s.shards, l.key);
    assert Shown(Union(s.shards), l.key, s.now) == Shown(OneMap(s, base), l.key, s.now);
  }

  /**
   * Only `del` does not answer for the one map: it says yes for every visible key, and also for an
   * invisible one exactly when an expired entry is still stored.
   */
  lemma DelAnswersForTheStored(s: State, base: Table)
    requires FollowsAll(s, base) && Enabled(s, EraseKey)
    ensures
      var k := s.mutator.key;
      Returns(s, EraseKey) == Some(Said(GetAnswer(OneMap(s, base), k, s.now).Some?
                                        || (k in Union(s.shards) && !Live(Union(s.shards)[k], s.now))))
  {
    hide Union, Placed, FoldFrom, Committed, PendingIsLogged, Find, Follows;
    FollowsIsSameVisible(s, base);
    FindIsLookup(s.shards, s.mutator.key);
    assert Shown(Union(s.shards), s.mutator.key, s.now) == Shown(OneMap(s, base), s.mutator.key, s.now);
  }

  // ---- over whole runs ----

  lemma {:induction false} RunSplit(s: State, run: seq<Label>, i: nat)
    requires IsRun(s, run) && i < |run|
    ensures IsRun(s, run[..i]) && IsRun(s, run[..i + 1]) && Enabled(After(s, run[..i]), run[i])
    ensures After(s, run[..i + 1]) == Step(After(s, run[..i]), run[i])
    decreases |run|
  {
    hide Step, Enabled;
    if i == 0 {
      assert run[..1][1..] == [];
    } else {
      RunSplit(Step(s, run[0]), run[1..], i - 1);
      assert run[..i][1..] == run[1..][..i - 1] && run[..i + 1][1..] == run[1..][..i];
    }
  }

  lemma {:induction false} RunFollowsAll(s: State, run: seq<Label>, base: Table)
    requires FollowsAll(s, base) && IsRun(s, run)
    ensures FollowsAll(After(s, run), base)
    decreases |run|
  {
    hide FollowsAll, Step, Enabled;
    if run != [] {
      StepFollowsAll(s, run[0], base);
      RunFollowsAll(Step(s, run[0]), run[1..], base);
    }
  }

  lemma QuietFollowsAll(s0: State, base: Table)
    requires Quiet(s0) && SameVisible(Union(s0.shards), base, s0.now)
    ensures FollowsAll(s0, base)
  {
    hide Union, Placed;
    forall k
      ensures Follows(s0, base, k)
    {
      assert Shown(Union(s0.shards), k, s0.now) == Shown(base, k, s0.now);
    }
  }

  /** Step `i` of the run is a step of the reader `r`. */
  predicate StepOf(run: seq<Label>, i: nat, r: nat) {
    i < |run| && (run[i].GetFast? || run[i].GetSlow?) && run[i].r == r
  }

  /** A get in its slow half began it: its fast half is in the run, and nothing of this reader since. */
  lemma {:induction false} SlowGetHasBegun(s0: State, run: seq<Label>, i: nat, r: nat) returns (j: nat)
    requires Quiet(s0) && IsRun(s0, run) && i <= |run| && IsRun(s0, run[..i])
    requires r < |After(s0, run[..i]).readers| && After(s0, run[..i]).readers[r].SawExpired?
    ensures j < i && IsRun(s0, run[..j]) && Enabled(After(s0, run[..j]), run[j])
    ensures run[j] == GetFast(r, After(s0, run[..i]).readers[r].key)
    ensures Returns(After(s0, run[..j]), run[j]) == None
    ensures forall h :: j < h < i ==> !StepOf(run, h, r)
    decreases i
  {
    hide Quiet, IsRun, After, Step, Enabled, Returns;
    if i == 0 {
      StartOf(s0);
      assert false;
    } else {
      RunSplit(s0, run, i - 1);
      var before := After(s0, run[..i - 1]);
      ReaderStep(before, run[i - 1], r);
      if StepOf(run, i - 1, r) {
        j := i - 1;
      } else {
        j := SlowGetHasBegun(s0, run, i - 1, r);
      }
    }
  }

  lemma StartOf(s0: State)
    requires Quiet(s0)
    ensures IsRun(s0, []) && After(s0, []) == s0
    ensures forall r :: 0 <= r < |s0.readers| ==> s0.readers[r] == Calm
  {
    hide Placed;
  }

  lemma ReaderStep(s: State, l: Label, r: nat)
    requires Enabled(s, l) && r < |Step(s, l).readers| && Step(s, l).readers[r].SawExpired?
    ensures r < |s.readers|
    ensures (l.GetFast? || l.GetSlow?) && l.r == r ==>
      l == GetFast(r, Step(s, l).readers[r].key) && Returns(s, l) == None
    ensures !((l.GetFast? || l.GetSlow?) && l.r == r) ==> s.readers[r] == Step(s, l).readers[r]
  {
    hide Placed, Find, Put, Erase, DropIfExpired;
  }

  /**
   * Linearization: in every run, of any number of readers and writers with the expiry thread, from any
   * start of life, each get, ttl, expire and persist returns what the one map answers at a moment of its
   * own, and the one map changes only by whole operations at their moments.
   */
  lemma EveryAnswerHasItsMoment(s0: State, run: seq<Label>, base: Table, i: nat) returns (j: nat)
    requires Quiet(s0) && SameVisible(Union(s0.shards), base, s0.now) && IsRun(s0, run) && i < |run|
    ensures j <= i && IsRun(s0, run[..i]) && Enabled(After(s0, run[..i]), run[i]) && IsRun(s0, run[..j])
    ensures
      var before, after := After(s0, run[..i]), Step(After(s0, run[..i]), run[i]);
      OneMap(after, base) == AtomicEffect(OneMap(before, base), run[i], before.mutator, before.now)
    ensures
      var here, there := After(s0, run[..i]), After(s0, run[..j]);
      Returns(here, run[i]).Some? && !run[i].EraseKey? ==>
        && Returns(here, run[i]) == AtomicAnswer(OneMap(there, base), run[j], there.now)
        && (if run[i].GetSlow? then run[j] == GetFast(run[i].r, here.readers[run[i].r].key) else j == i)
        && forall h :: j < h < i && run[i].GetSlow? ==> !StepOf(run, h, run[i].r)
  {
    hide Union, Placed, OneMap, Step, FollowsAll, SameVisible, IsRun, After, Find, Quiet;
    QuietFollowsAll(s0, base);
    RunSplit(s0, run, i);
    var here := After(s0, run[..i]);
    RunFollowsAll(s0, run[..i], base);
    StepIsAtomic(here, run[i], base);
    j := i;
    if run[i].GetSlow? {
      j := SlowGetHasBegun(s0, run, i, run[i].r);
      RunFollowsAll(s0, run[..j], base);
      AnswerIsAtomic(After(s0, run[..j]), run[j], base);
    } else if AtomicAnswer(OneMap(here, base), run[i], here.now).Some? {
      AnswerIsAtomic(here, run[i], base);
    }
  }
}
