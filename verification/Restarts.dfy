/**
 * A server's lives: it comes up by replaying its file, runs with any interleaving, logs behind what it
 * replayed, and goes down in the end, by a clean stop or a crash; then it comes up again.
 */
module Restarts {
  import opened ByteStrings
  import opened Sequences
  import opened Aof
  import opened AofLaws
  import opened Shards
  import opened StoreRuns
  import opened ExpiryLaws
  import opened Recovery

  // ---- coming up ----

  /** A server that has come up by a replay of `calls`, whose callbacks read the clock as `ts` says. */
  ghost predicate CameUp(s0: State, calls: seq<Record>, ts: seq<Reading>) {
    && Quiet(s0) && 0 <= s0.now && Replays(ts, |calls|, s0.now)
    && SameVisible(Union(s0.shards), RestoreAt(calls, ts), s0.now)
  }

  /** What the start-up of src/main.cpp hands over: it has come up, and every deadline is covered. */
  ghost predicate StartsLife(s0: State, calls: seq<Record>, ts: seq<Reading>) {
    CameUp(s0, calls, ts) && AllCovered(s0)
  }

  lemma UpIsStart(s0: State, calls: seq<Record>, ts: seq<Reading>)
    requires Quiet(s0) && 0 <= s0.now && Replays(ts, |calls|, s0.now) && Union(s0.shards) == RestoreAt(calls, ts)
    requires forall k :: k in Union(s0.shards) && Union(s0.shards)[k].deadline > 0 ==>
               (Union(s0.shards)[k].deadline, k) in s0.heap
    ensures StartsLife(s0, calls, ts)
  {
    hide Union, Placed, RestoreAt, Live;
    StartCovered(s0);
    SameAsItself(Union(s0.shards), s0.now);
  }

  /** A server with an empty file has come up by the replay of nothing. */
  lemma FreshServer(shardCount: nat, readers: nat, now: nat)
    requires PowerOfTwo(shardCount)
    ensures CameUp(Init(shardCount, readers, now), [], [])
  {
    hide ShardIndex, PowerOfTwo;
  }

  // The expiry thread runs beside the replay already.

  function Swept(m: Table, keys: set<bytes>, now: int): Table {
    map k | k in m && (k in keys ==> Live(m[k], now)) :: m[k]
  }

  /** The replay when the expiry thread removes expired entries before any callback is through. */
  function RestoreSwept(calls: seq<Record>, ts: seq<Reading>, sweeps: nat -> set<bytes>): Table
    requires |ts| == |calls|
    decreases |calls|
  {
    if calls == [] then map[]
    else
      var n := |calls| - 1;
      Restore(Swept(RestoreSwept(calls[..n], ts[..n], sweeps), sweeps(n), ts[n].check), calls[n], ts[n])
  }

  lemma RestoreSeesTheVisible(m1: Table, m2: Table, r: Record, t: Reading, k: bytes)
    requires Shown(m1, k, t.check) == Shown(m2, k, t.check) && t.due <= t.check
    ensures Shown(Restore(m1, r, t), k, t.check) == Shown(Restore(m2, r, t), k, t.check)
  {
  }

  /** A clock that never goes back: each callback's readings are in order, and before those of later callbacks. */
  predicate Ticking(ts: seq<Reading>) {
    && (forall i :: 0 <= i < |ts| ==> ts[i].due <= ts[i].check)
    && forall i, j :: 0 <= i < j < |ts| ==> ts[i].check <= ts[j].due
  }

  /** What the thread removes makes no difference to what any key looks like in the end. */
  lemma {:induction false} SweepsAreUnseen(
    calls: seq<Record>, ts: seq<Reading>, sweeps: nat -> set<bytes>, k: bytes, now: int)
    requires |ts| == |calls| && Ticking(ts) && forall i :: 0 <= i < |ts| ==> ts[i].check <= now
    ensures Shown(RestoreSwept(calls, ts, sweeps), k, now) == Shown(RestoreAt(calls, ts), k, now)
    decreases |calls|
  {
    hide Restore;
    if calls != [] {
      var n := |calls| - 1;
      var before, t := RestoreSwept(calls[..n], ts[..n], sweeps), ts[n];
      SweepsAreUnseen(calls[..n], ts[..n], sweeps, k, t.check);
      RestoreSeesTheVisible(Swept(before, sweeps(n), t.check), RestoreAt(calls[..n], ts[..n]), calls[n], t, k);
      ShownStays(RestoreSwept(calls, ts, sweeps), RestoreAt(calls, ts), k, t.check, now);
    }
  }

  // ---- what the server logs ----

  /** The server only ever asks for deadlines after the epoch: clock plus a positive TTL. */
  predicate AsksPositive(l: Label) { l.BeginSetEx? || l.TouchExpire? ==> l.deadline > 0 }

  predicate LogsPositive(s: State) {
    Positive(s.log) && (s.mutator.ToLogExpire? ==> s.mutator.deadline > 0)
  }

  lemma StepLogsPositive(s: State, l: Label)
    requires Enabled(s, l) && AsksPositive(l) && LogsPositive(s)
    ensures LogsPositive(Step(s, l))
  {
    hide Find, Placed, Put, Erase;
  }

  lemma {:induction false} RunLogsPositive(s: State, run: seq<Label>)
    requires IsRun(s, run) && LogsPositive(s) && forall i :: 0 <= i < |run| ==> AsksPositive(run[i])
    ensures LogsPositive(After(s, run))
    decreases |run|
  {
    hide LogsPositive, Step, Enabled, AsksPositive;
    if run != [] {
      assert AsksPositive(run[0]);
      StepLogsPositive(s, run[0]);
      RunLogsPositive(Step(s, run[0]), run[1..]);
    }
  }

  lemma LifeIsOrderly(s0: State, run: seq<Label>)
    requires Quiet(s0) && IsRun(s0, run) && forall i :: 0 <= i < |run| ==> AsksPositive(run[i])
    ensures Positive(After(s0, run).log) && s0.now <= After(s0, run).now
  {
    hide IsRun, After, AsksPositive, Placed;
    RunLogsPositive(s0, run);
    RunTime(s0, run);
  }

  lemma PositivePrefix(log: seq<Record>, n: nat)
    requires Positive(log) && n <= |log|
    ensures Positive(log[..n])
  {
  }

  lemma {:induction false} KeptAll(log: seq<Record>)
    requires Positive(log)
    ensures Collect(log, Kept) == log
  {
    if log != [] {
      assert DeadlineOf(log[0]) > 0;
      assert Positive(log[1..]) by {
        assert forall i :: 0 <= i < |log| - 1 ==> log[1..][i] == log[i + 1];
      }
      KeptAll(log[1..]);
      assert [log[0]] + log[1..] == log;
    }
  }

  predicate AllFit(log: seq<Record>) { forall i :: 0 <= i < |log| ==> Fits(log[i]) }

  lemma PositiveAppend(a: seq<Record>, b: seq<Record>)
    requires Positive(a) && Positive(b)
    ensures Positive(a + b)
  {
  }

  // ---- one life ----

  /** The readings of a server's whole file: the replayed records', and this life's records at face value. */
  function Lived(ts: seq<Reading>, n: nat): seq<Reading> { ts + Uniform(n, 0) }

  /**
   * The shards at every moment of a life with the mutex free, for every key: what the records of this life
   * make, at face value, of what the replay made of those before.
   */
  lemma ShardsFollowTheFile(s0: State, calls: seq<Record>, ts: seq<Reading>, run: seq<Label>, k: bytes, t: int)
    requires CameUp(s0, calls, ts) && IsRun(s0, run)
    requires After(s0, run).mutator == Free && After(s0, run).now <= t
    ensures
      var s := After(s0, run);
      Placed(s.shards) && Shown(Union(s.shards), k, t) == Shown(FoldFrom(RestoreAt(calls, ts), s.log), k, t)
  {
    hide Union, FoldFrom, Placed, Shown, IsRun, After, RestoreAt;
    SameAt(Union(s0.shards), RestoreAt(calls, ts), k, s0.now);
    ShardsFollowTheLog(s0, run, RestoreAt(calls, ts), k, t);
  }

  lemma LivedReads(s0: State, calls: seq<Record>, ts: seq<Reading>, log: seq<Record>, t: int)
    requires CameUp(s0, calls, ts) && s0.now <= t
    ensures |Lived(ts, |log|)| == |calls + log|
    ensures NoLater(Uniform(|calls + log|, 0), Lived(ts, |log|)) && ReadBy(Lived(ts, |log|), t)
  {
    hide SameVisible, RestoreAt, Quiet, Union;
  }

  /**
   * The file is a faithful history, exactly when: after any interleaving in any life, whenever the mutation
   * mutex is free, the ideal meaning of the whole file shows the key as the shards do, value and deadline,
   * if and only if the key's story agrees. The story is that of its records, taken at face value and as
   * this server has taken them.
   */
  lemma LogIsFaithful(s0: State, calls: seq<Record>, ts: seq<Reading>, run: seq<Label>, k: bytes, t: int)
    requires CameUp(s0, calls, ts) && IsRun(s0, run) && Positive(calls)
    requires forall i :: 0 <= i < |run| ==> AsksPositive(run[i])
    requires After(s0, run).mutator == Free && After(s0, run).now <= t
    ensures
      var s := After(s0, run);
      var n := |calls + s.log|;
      && Placed(s.shards) && |Lived(ts, |s.log|)| == n
      && (Shown(Union(s.shards), k, t) == Shown(Fold(calls + s.log), k, t)
          <==> Agrees(StoryOf(calls + s.log, Uniform(n, 0), Lived(ts, |s.log|), k), t))
  {
    hide Union, Fold, FoldFrom, Placed, IsRun, After, RestoreAt, StoryOf, Agrees, Quiet, Positive, Shown, SameVisible,
      AsksPositive, NoLater, ReadBy, Lived;
    LifeIsOrderly(s0, run);
    var log := After(s0, run).log;
    var whole := calls + log;
    PositiveAppend(calls, log);
    LivedReads(s0, calls, ts, log, t);
    ShardsFollowTheFile(s0, calls, ts, run, k, t);
    LivedIsReading(calls, ts, log);
    FoldIsReading(whole);
    ReadingsAgreeExactly(whole, Uniform(|whole|, 0), Lived(ts, |log|), k, t);
  }

  lemma LivedIsReading(calls: seq<Record>, ts: seq<Reading>, log: seq<Record>)
    requires |ts| == |calls| && Positive(calls) && Positive(log)
    ensures |Lived(ts, |log|)| == |calls + log|
    ensures FoldFrom(RestoreAt(calls, ts), log) == RestoreAt(calls + log, Lived(ts, |log|))
  {
    hide RestoreAt, FoldFrom, Positive;
    FoldIsEpochReading(calls, ts, log);
  }

  /** In particular a key that was recovered at the start stays faithful through the whole life. */
  lemma RecoveredStaysFaithful(s0: State, calls: seq<Record>, ts: seq<Reading>, run: seq<Label>, k: bytes, t: int)
    requires CameUp(s0, calls, ts) && IsRun(s0, run) && Positive(calls)
    requires After(s0, run).mutator == Free && After(s0, run).now <= t
    requires Agrees(StoryOf(calls, Uniform(|calls|, 0), ts, k), s0.now)
    ensures
      var s := After(s0, run);
      Placed(s.shards) && Shown(Union(s.shards), k, t) == Shown(Fold(calls + s.log), k, t)
  {
    hide Union, FoldFrom, Placed, IsRun, After, RestoreAt, StoryOf, Agrees, Positive, Shown;
    FoldAppend(map[], calls, After(s0, run).log);
    RecoveryIsExact(calls, ts, k, s0.now);
    SameAt(Union(s0.shards), RestoreAt(calls, ts), k, s0.now);
    ShardsFollowTheLog(s0, run, Fold(calls), k, t);
  }

  // ---- from life to life, through the bytes of the file ----

  /** What the file of one life becomes for the next: the callbacks are called with the records, all of them. */
  lemma FileGivesLogBack(log: seq<Record>, cut: nat)
    requires AllFit(log) && Positive(log) && cut <= |Log(log)|
    ensures ReplayFrom(Start(Log(log)[..cut])).0 == log[..Survivors(log, cut)]
    ensures cut == |Log(log)| ==> Survivors(log, cut) == |log|
  {
    hide ReplayFrom, Log, Fits, Collect, Survivors;
    var survivors := log[..Survivors(log, cut)];
    ReplayOfCut(log, cut);
    assert Positive(survivors);
    KeptAll(survivors);
    if cut == |Log(log)| && log != [] {
      assert log[..|log|] == log;
      SurvivorsIsLongest(log, cut, |log|);
    }
  }

  /** The heart of both restarts: the records of two lives, as the server has taken them and as the next replay does. */
  lemma NextReplayIsExact(
    s0: State, calls: seq<Record>, ts: seq<Reading>, log: seq<Record>, us: seq<Reading>, k: bytes, now: int)
    requires CameUp(s0, calls, ts) && Positive(calls) && Positive(log)
    requires Replays(us, |calls + log|, now) && forall i :: 0 <= i < |us| ==> s0.now <= us[i].due
    ensures |Lived(ts, |log|)| == |calls + log|
    ensures Shown(RestoreAt(calls + log, us), k, now) == Shown(FoldFrom(RestoreAt(calls, ts), log), k, now)
            <==> Agrees(StoryOf(calls + log, Lived(ts, |log|), us, k), now)
  {
    hide RestoreAt, FoldFrom, Agrees, StoryOf, Positive, Shown, SameVisible, Quiet, Union;
    LivedIsReading(calls, ts, log);
    PositiveAppend(calls, log);
    ReadingsAgreeExactly(calls + log, Lived(ts, |log|), us, k, now);
  }

  /**
   * Restart. A server came up from the records `calls`, runs with any interleaving until the mutation mutex
   * is free, and its file, old records and new, is replayed by a later start; `ts` and `us` are what the
   * callbacks of the two replays read from the clock, whatever passes meanwhile. The restarted store shows
   * a key as the old shards would have, if and only if the key's story agrees. With no records before this
   * is the first life; as `calls` and `ts` are arbitrary, it is every later life too.
   */
  lemma RestartIsExact(
    s0: State, calls: seq<Record>, ts: seq<Reading>, run: seq<Label>, k: bytes, us: seq<Reading>, now: int)
    requires CameUp(s0, calls, ts) && IsRun(s0, run) && Positive(calls)
    requires forall i :: 0 <= i < |run| ==> AsksPositive(run[i])
    requires
      var s := After(s0, run);
      && s.mutator == Free && s.now <= now && AllFit(calls + s.log)
      && Replays(us, |calls + s.log|, now) && forall i :: 0 <= i < |us| ==> s.now <= us[i].due
    ensures
      var s := After(s0, run);
      var again := ReplayFrom(Start(Log(calls + s.log))).0;
      && Placed(s.shards) && again == calls + s.log && |Lived(ts, |s.log|)| == |again|
      && (Shown(RestoreAt(again, us), k, now) == Shown(Union(s.shards), k, now)
          <==> Agrees(StoryOf(again, Lived(ts, |s.log|), us, k), now))
  {
    hide Union, Placed, FoldFrom, RestoreAt, StoryOf, Agrees, ReplayFrom, Log, AllFit, Positive, Survivors, Quiet,
      Replays, AsksPositive, IsRun, After, Shown, SameVisible, Lived;
    LifeIsOrderly(s0, run);
    var log := After(s0, run).log;
    var whole := calls + log;
    PositiveAppend(calls, log);
    FileGivesLogBack(whole, |Log(whole)|);
    assert Log(whole)[..|Log(whole)|] == Log(whole) && whole[..|whole|] == whole;
    ShardsFollowTheFile(s0, calls, ts, run, k, now);
    NextReplayIsExact(s0, calls, ts, log, us, k, now);
  }

  // ---- crashes ----

  lemma {:induction false} CommittedGrows(s: State, run: seq<Label>)
    requires PendingIsLogged(s) && IsRun(s, run)
    ensures PendingIsLogged(After(s, run)) && Committed(s) <= Committed(After(s, run))
    decreases |run|
  {
    hide PendingIsLogged, Committed, Step, Enabled, Commits;
    if run != [] {
      StepCommits(s, run[0]);
      CommittedGrows(Step(s, run[0]), run[1..]);
    }
  }

  lemma CommitsOne(s: State, l: Label)
    requires Placed(s.shards)
    ensures |Commits(s, l)| <= 1
  {
    hide Placed, Find;
  }

  /** Every prefix of what is committed was once all that was committed. */
  lemma {:induction false} CommittedMoment(s: State, run: seq<Label>, n: nat) returns (past: seq<Label>)
    requires PendingIsLogged(s) && IsRun(s, run) && |Committed(s)| <= n <= |Committed(After(s, run))|
    ensures past <= run && IsRun(s, past) && Committed(After(s, past)) == Committed(After(s, run))[..n]
    ensures After(s, past).now <= After(s, run).now
    decreases |run|
  {
    hide PendingIsLogged, Committed, Step, Commits;
    CommittedGrows(s, run);
    RunTime(s, run);
    if |Committed(s)| == n {
      past := [];
    } else {
      var s' := Step(s, run[0]);
      StepCommits(s, run[0]);
      CommitsOne(s, run[0]);
      var later := CommittedMoment(s', run[1..], n);
      past := [run[0]] + later;
      assert past[1..] == later;
    }
  }

  /** The step that makes visible what a writer has logged already. */
  function Pending(s: State): seq<Label> {
    if s.mutator.ToWrite? then [Write] else if s.mutator.ToErase? then [EraseKey] else []
  }

  /**
   * Every prefix of the log was once all that was committed: at some moment of the run or, if the run
   * stopped between logging and writing, right after it.
   */
  lemma LoggedMoment(s0: State, run: seq<Label>, n: nat) returns (past: seq<Label>)
    requires Quiet(s0) && IsRun(s0, run) && n <= |After(s0, run).log|
    ensures past <= run || past == run + Pending(After(s0, run))
    ensures IsRun(s0, past) && Committed(After(s0, past)) == After(s0, run).log[..n]
    ensures After(s0, past).now <= After(s0, run).now
  {
    hide IsRun, After, Step, Enabled;
    var s := After(s0, run);
    CommittedGrows(s0, run);
    if n <= |Committed(s)| {
      past := CommittedMoment(s0, run, n);
      assert Committed(s)[..n] == s.log[..n];
    } else {
      var l := Pending(s)[0];
      RunPlaced(s0, run);
      PendingEnabled(s);
      RunPush(s0, run, l);
      StepCommits(s, l);
      assert s.log[..n] == s.log == s.log[..|s.log| - 1] + [s.log[|s.log| - 1]];
      past := run + [l];
    }
  }

  lemma PendingEnabled(s: State)
    requires Placed(s.shards) && Pending(s) != []
    ensures Enabled(s, Pending(s)[0]) && Step(s, Pending(s)[0]).now == s.now
  {
  }

  lemma RunPlaced(s0: State, run: seq<Label>)
    requires Quiet(s0) && IsRun(s0, run)
    ensures Placed(After(s0, run).shards)
  {
    hide Placed, Union, IsRun, After;
    StartFollows(s0, Union(s0.shards), []);
    RunFollows(s0, run, Union(s0.shards), []);
  }

  /**
   * Crash. The server stops anywhere, even in the middle of a write, and its file is cut at any byte of
   * what this life has written. There is a moment of the run at which exactly the surviving records were
   * committed; and the restarted store shows a key as the shards of that moment would have, if and only if
   * the key's story up to there agrees.
   */
  lemma CrashIsExact(
    s0: State, calls: seq<Record>, ts: seq<Reading>, run: seq<Label>, cut: nat, k: bytes, us: seq<Reading>, now: int)
    returns (past: seq<Label>)
    requires CameUp(s0, calls, ts) && IsRun(s0, run) && Positive(calls)
    requires forall i :: 0 <= i < |run| ==> AsksPositive(run[i])
    requires
      var s := After(s0, run);
      && s.now <= now && AllFit(calls + s.log) && |Log(calls)| <= cut <= |Log(calls + s.log)|
      && Replays(us, Survivors(calls + s.log, cut), now) && forall i :: 0 <= i < |us| ==> s.now <= us[i].due
    ensures (past <= run || past == run + Pending(After(s0, run))) && IsRun(s0, past)
    ensures
      var moment, again := After(s0, past), ReplayFrom(Start(Log(calls + After(s0, run).log)[..cut])).0;
      && Placed(moment.shards) && again == calls + Committed(moment) && |us| == |again|
      && |Lived(ts, |Committed(moment)|)| == |again|
      && (Shown(RestoreAt(again, us), k, now) == Shown(Union(moment.shards), k, now)
          <==> Agrees(StoryOf(again, Lived(ts, |Committed(moment)|), us, k), now))
  {
    hide Union, Placed, FoldFrom, RestoreAt, StoryOf, Agrees, ReplayFrom, Log, AllFit, Survivors, Quiet, AsksPositive,
      IsRun, After, Committed, Pending, Positive, Shown, SameVisible, Lived;
    LifeIsOrderly(s0, run);
    var log := After(s0, run).log;
    var whole := calls + log;
    PositiveAppend(calls, log);
    FileGivesLogBack(whole, cut);
    SurvivorsOfThisLife(calls, log, cut);
    var n := Survivors(whole, cut) - |calls|;
    past := LoggedMoment(s0, run, n);
    assert whole[..|calls| + n] == calls + log[..n];
    assert Positive(log[..n]) by {
      PositivePrefix(log, n);
    }
    NextReplayIsExact(s0, calls, ts, log[..n], us, k, now);
    MomentShows(s0, calls, ts, past, k, now);
  }

  lemma SurvivorsOfThisLife(calls: seq<Record>, log: seq<Record>, cut: nat)
    requires |Log(calls)| <= cut
    ensures |calls| <= Survivors(calls + log, cut)
  {
    hide Log, Survivors;
    assert (calls + log)[..|calls|] == calls;
    if calls != [] {
      SurvivorsIsLongest(calls + log, cut, |calls|);
    }
  }

  /** The shards at a moment, with the mutex free or not, show what the committed records make of the replayed ones. */
  lemma MomentShows(s0: State, calls: seq<Record>, ts: seq<Reading>, past: seq<Label>, k: bytes, now: int)
    requires CameUp(s0, calls, ts) && IsRun(s0, past) && After(s0, past).now <= now
    ensures
      var m := After(s0, past);
      && Placed(m.shards)
      && Shown(Union(m.shards), k, now) == Shown(FoldFrom(RestoreAt(calls, ts), Committed(m)), k, now)
  {
    hide Union, FoldFrom, Placed, Shown, IsRun, After, RestoreAt, Committed, PendingIsLogged, SameVisible;
    var m, base := After(s0, past), RestoreAt(calls, ts);
    SameAt(Union(s0.shards), base, k, s0.now);
    StartFollows(s0, base, k);
    RunFollows(s0, past, base, k);
    ShownStays(Union(m.shards), FoldFrom(base, Committed(m)), k, m.now, now);
  }

  // ---- a second restart ----

  /**
   * Why it matters how a server has taken its records. One that came up at `t1`, after a newer value had
   * expired, shows the older value, against the meaning of its own file. The next restart agrees with it,
   * although a replay at that time does not recover the key from the file.
   */
  lemma SecondRestartAgrees(s0: State, k: bytes, older: bytes, newer: bytes, d: int, t1: int, t2: int)
    requires 0 < d <= t1 <= s0.now <= t2 && CameUp(s0, [Set(k, older), SetPxat(k, newer, d)], Uniform(2, t1))
    ensures
      var log := [Set(k, older), SetPxat(k, newer, d)];
      && Shown(Union(s0.shards), k, t2) == Some(Entry(older, -1)) == Shown(RestoreAll(log, t2), k, t2)
      && Shown(Fold(log), k, t2) == None
      && !Agrees(StoryOf(log, Uniform(2, 0), Uniform(2, t2), k), t2)
      && Agrees(StoryOf(log, Uniform(2, t1), Uniform(2, t2), k), t2)
  {
    hide Union, Placed, Fold, RestoreAt, StoryOf, Agrees;
    var log := [Set(k, older), SetPxat(k, newer, d)];
    OverwrittenValueReturns(k, older, newer, d, t1);
    OverwrittenValueReturns(k, older, newer, d, t2);
    SameAt(Union(s0.shards), RestoreAll(log, t1), k, s0.now);
    assert Positive(log) by {
      assert DeadlineOf(log[0]) > 0 && DeadlineOf(log[1]) > 0;
    }
    RecoveryIsExact(log, Uniform(2, t2), k, t2);
    ReadingsAgreeExactly(log, Uniform(2, t1), Uniform(2, t2), k, t2);
  }
}
