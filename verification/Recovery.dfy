/**
 * Replay: what the callbacks of src/main.cpp make of a log when each reads the clock for itself, and how
 * two readings of one log compare. The log's ideal meaning, a running server and a replay are all readings
 * of a log; they differ in when each record was read.
 */
module Recovery {
  import opened ByteStrings
  import opened Aof
  import opened Shards
  import opened StoreRuns

  // ---- the callbacks ----

  /** The clock in one callback: when the deadline is compared, and when `expire_at` checks the entry. */
  datatype Reading = Reading(due: int, check: int)

  /** What one callback does to the store's single map. */
  function Restore(m: Table, r: Record, t: Reading): Table {
    match r
    case Set(k, v) => m[k := Entry(v, -1)]
    case SetPxat(k, v, d) => if d <= t.due then m else m[k := Entry(v, d)]
    case Del(k) => m - {k}
    case PExpireAt(k, d) =>
      if d <= t.due then m - {k}
      else if k !in m then m
      else if !Live(m[k], t.check) then m - {k}
      else m[k := Entry(m[k].value, d)]
  }

  function RestoreAt(log: seq<Record>, ts: seq<Reading>): Table
    requires |ts| == |log|
    decreases |log|
  {
    if log == [] then map[]
    else
      var n := |log| - 1;
      Restore(RestoreAt(log[..n], ts[..n]), log[n], ts[n])
  }

  lemma RestorePush(log: seq<Record>, ts: seq<Reading>, r: Record, t: Reading)
    requires |ts| == |log|
    ensures RestoreAt(log + [r], ts + [t]) == Restore(RestoreAt(log, ts), r, t)
  {
    assert (log + [r])[..|log|] == log && (ts + [t])[..|ts|] == ts;
  }

  /** All callbacks at one time. */
  function Uniform(n: nat, now: int): seq<Reading> { seq(n, i => Reading(now, now)) }

  function RestoreAll(log: seq<Record>, now: int): Table { RestoreAt(log, Uniform(|log|, now)) }

  // ---- the ideal meaning is a reading, too ----

  function DeadlineOf(r: Record): int { if r.SetPxat? || r.PExpireAt? then r.deadline else 1 }

  /** Every deadline written to the log is a time after the epoch, as clock plus TTL always is. */
  predicate Positive(log: seq<Record>) { forall i :: 0 <= i < |log| ==> DeadlineOf(log[i]) > 0 }

  lemma {:induction false} RestoredDeadlines(log: seq<Record>, ts: seq<Reading>, k: bytes)
    requires |ts| == |log| && Positive(log)
    ensures
      var m := RestoreAt(log, ts);
      k in m ==> m[k].deadline == -1 || m[k].deadline > 0
    decreases |log|
  {
    if log != [] {
      var n := |log| - 1;
      assert DeadlineOf(log[n]) > 0;
      RestoredDeadlines(log[..n], ts[..n], k);
    }
  }

  /** Read at the epoch, every record means what it says. */
  lemma {:induction false} FoldIsEpochReading(log: seq<Record>, ts: seq<Reading>, since: seq<Record>)
    requires |ts| == |log| && Positive(log) && Positive(since)
    ensures FoldFrom(RestoreAt(log, ts), since) == RestoreAt(log + since, ts + Uniform(|since|, 0))
    decreases |since|
  {
    if since == [] {
      assert log + since == log && ts + Uniform(0, 0) == ts;
    } else {
      var n := |since| - 1;
      var before, r := since[..n], since[n];
      FoldIsEpochReading(log, ts, before);
      assert log + since == log + before + [r];
      assert ts + Uniform(n + 1, 0) == ts + Uniform(n, 0) + [Reading(0, 0)];
      RestorePush(log + before, ts + Uniform(n, 0), r, Reading(0, 0));
      assert DeadlineOf(r) > 0;
      assert Positive(log + before);
      RestoredDeadlines(log + before, ts + Uniform(n, 0), r.key);
    }
  }

  lemma FoldIsReading(log: seq<Record>)
    requires Positive(log)
    ensures Fold(log) == RestoreAt(log, Uniform(|log|, 0))
  {
    hide RestoreAt, Positive, FoldFrom;
    FoldIsEpochReading([], [], log);
    assert [] + log == log && [] + Uniform(|log|, 0) == Uniform(|log|, 0);
    EmptyReading();
  }

  lemma EmptyReading()
    ensures RestoreAt([], []) == map[]
  {
  }

  // ---- one key, read twice ----

  /** A record of the key that an earlier and a later reading of the log take differently, or that builds on one. */
  datatype Event =
    | Overlooked(value: bytes, deadline: int)  // SET PXAT: stored by the earlier reading, expired for the later
    | Prolonged(deadline: int)                 // PEXPIREAT: prolongs for both
    | Deleted(deadline: int)                   // PEXPIREAT: prolongs for the earlier, deletes for the later
    | Refused(deadline: int)                   // PEXPIREAT: deletes for the earlier, prolongs for the later

  /** `base` is what both readings held at the key's last record they took alike; `since` came after it. */
  datatype Story = Story(base: Option<Entry>, since: seq<Event>)

  function Then(h: Story, e: Event): Story { h.(since := h.since + [e]) }

  /** The entry with another deadline, if there is one. */
  function Moved(e: Option<Entry>, d: int): Option<Entry> {
    if e.Some? then Some(Entry(e.value.value, d)) else None
  }

  /** What the earlier reading has left of the key. */
  function Earlier(h: Story): Option<Entry>
    decreases |h.since|
  {
    if h.since == [] then h.base
    else
      var before := Earlier(h.(since := h.since[..|h.since| - 1]));
      match h.since[|h.since| - 1]
      case Overlooked(v, d) => Some(Entry(v, d))
      case Refused(_) => None
      case Prolonged(d) => Moved(before, d)
      case Deleted(d) => Moved(before, d)
  }

  /** What the later reading has left of it. */
  function Later(h: Story): Option<Entry>
    decreases |h.since|
  {
    if h.since == [] then h.base
    else
      var before := Later(h.(since := h.since[..|h.since| - 1]));
      match h.since[|h.since| - 1]
      case Overlooked(_, _) => before
      case Deleted(_) => None
      case Prolonged(d) => Moved(before, d)
      case Refused(d) => Moved(before, d)
  }

  /** A PEXPIREAT deletes when it is due itself, or when what it finds has expired already. */
  predicate Deletes(found: Option<Entry>, d: int, t: Reading) {
    d <= t.due || (found.Some? && !Live(found.value, t.check))
  }

  /** How one more record of the key continues its story. */
  function Continue(h: Story, r: Record, ta: Reading, tb: Reading): Story {
    match r
    case Set(_, v) => Story(Some(Entry(v, -1)), [])
    case Del(_) => Story(None, [])
    case SetPxat(_, v, d) =>
      if d > tb.due then Story(Some(Entry(v, d)), [])
      else if d > ta.due then Then(h, Overlooked(v, d))
      else h
    case PExpireAt(_, d) =>
      var early, late := Deletes(Earlier(h), d, ta), Deletes(Later(h), d, tb);
      if early && late then Story(None, [])
      else Then(h, if early then Refused(d) else if late then Deleted(d) else Prolonged(d))
  }

  /** The story of a key in a log that was read with `a` and is read with `b`. */
  function StoryOf(log: seq<Record>, a: seq<Reading>, b: seq<Reading>, k: bytes): Story
    requires |a| == |b| == |log|
    decreases |log|
  {
    if log == [] then Story(None, [])
    else
      var n := |log| - 1;
      var h := StoryOf(log[..n], a[..n], b[..n], k);
      if log[n].key == k then Continue(h, log[n], a[n], b[n]) else h
  }

  /** `b` read each record no earlier than `a`. */
  predicate NoLater(a: seq<Reading>, b: seq<Reading>) {
    |a| == |b| && forall i :: 0 <= i < |a| ==> a[i].due <= b[i].due
  }

  predicate ReadBy(ts: seq<Reading>, now: int) { forall i :: 0 <= i < |ts| ==> ts[i].due <= now }

  function Lookup(m: Table, k: bytes): Option<Entry> { if k in m then Some(m[k]) else None }

  lemma ThenReads(h: Story, e: Event)
    ensures Earlier(Then(h, e)) ==
      if e.Overlooked? then Some(Entry(e.value, e.deadline))
      else if e.Refused? then None
      else Moved(Earlier(h), e.deadline)
    ensures Later(Then(h, e)) ==
      if e.Overlooked? then Later(h) else if e.Deleted? then None else Moved(Later(h), e.deadline)
  {
    assert (h.since + [e])[..|h.since|] == h.since;
    assert h.(since := h.since) == h;
  }

  lemma {:induction false} StoryReads(log: seq<Record>, a: seq<Reading>, b: seq<Reading>, k: bytes)
    requires |log| == |a| && NoLater(a, b)
    ensures Lookup(RestoreAt(log, a), k) == Earlier(StoryOf(log, a, b, k))
    ensures Lookup(RestoreAt(log, b), k) == Later(StoryOf(log, a, b, k))
    decreases |log|
  {
    hide Earlier, Later, Continue, Restore;
    if log == [] {
      NothingSince(Story(None, []));
    } else {
      var n := |log| - 1;
      var h, r := StoryOf(log[..n], a[..n], b[..n], k), log[n];
      StoryReads(log[..n], a[..n], b[..n], k);
      RestoreReads(RestoreAt(log[..n], a[..n]), r, a[n], k);
      RestoreReads(RestoreAt(log[..n], b[..n]), r, b[n], k);
      if r.key == k {
        ContinueReads(h, r, a[n], b[n]);
      }
    }
  }

  /** What a callback makes of what it finds under its key. */
  function RestoreOne(found: Option<Entry>, r: Record, t: Reading): Option<Entry> {
    match r
    case Set(_, v) => Some(Entry(v, -1))
    case SetPxat(_, v, d) => if d <= t.due then found else Some(Entry(v, d))
    case Del(_) => None
    case PExpireAt(_, d) => if Deletes(found, d, t) then None else Moved(found, d)
  }

  lemma RestoreReads(m: Table, r: Record, t: Reading, k: bytes)
    ensures Lookup(Restore(m, r, t), k) == if r.key == k then RestoreOne(Lookup(m, k), r, t) else Lookup(m, k)
  {
  }

  lemma ContinueReads(h: Story, r: Record, ta: Reading, tb: Reading)
    requires ta.due <= tb.due
    ensures Earlier(Continue(h, r, ta, tb)) == RestoreOne(Earlier(h), r, ta)
    ensures Later(Continue(h, r, ta, tb)) == RestoreOne(Later(h), r, tb)
  {
    hide Earlier, Later, Then;
    NothingSince(Continue(h, r, ta, tb));
    match r
    case SetPxat(_, v, d) => ThenReads(h, Overlooked(v, d));
    case PExpireAt(_, d) =>
      ThenReads(h, Prolonged(d));
      ThenReads(h, Deleted(d));
      ThenReads(h, Refused(d));
    case _ =>
  }

  lemma NothingSince(h: Story)
    ensures h.since == [] ==> Earlier(h) == h.base == Later(h)
  {
  }

  // ---- when the two readings agree ----

  predicate Passed(d: int, t: int) { 0 <= d <= t }

  predicate HasDeleted(since: seq<Event>) { exists i :: 0 <= i < |since| && since[i].Deleted? }

  /** The value under the key for the earlier reading: the last overlooked one, or the base's; none after a refusal. */
  function ValueHeld(h: Story): Option<bytes>
    decreases |h.since|
  {
    if h.since == [] then (if h.base.Some? then Some(h.base.value.value) else None)
    else
      match h.since[|h.since| - 1]
      case Overlooked(v, _) => Some(v)
      case Refused(_) => None
      case _ => ValueHeld(h.(since := h.since[..|h.since| - 1]))
  }

  /** The deadline of the key for the later reading, if it has kept the base. */
  function DeadlineKept(h: Story): int
    requires h.base.Some?
    decreases |h.since|
  {
    if h.since == [] then h.base.value.deadline
    else
      match h.since[|h.since| - 1]
      case Prolonged(d) => d
      case Refused(d) => d
      case _ => DeadlineKept(h.(since := h.since[..|h.since| - 1]))
  }

  /**
   * When both readings show the key alike at `now`, read off its records. Nothing after the base is fine.
   * If the last record took the key away from the earlier reading, or its deadline has passed, the later
   * reading must have nothing left: no base, a deletion, or a deadline that has passed too. Otherwise the
   * later reading must still have the base, undeleted, and its value must be the one the earlier holds.
   */
  predicate Agrees(h: Story, now: int) {
    h.since == [] ||
    var last := h.since[|h.since| - 1];
    if last.Refused? || Passed(last.deadline, now) then
      h.base.None? || HasDeleted(h.since) || Passed(DeadlineKept(h), now)
    else
      match ValueHeld(h)
      case None => h.base.None? || HasDeleted(h.since)
      case Some(v) => h.base.Some? && !HasDeleted(h.since) && h.base.value.value == v
  }

  lemma {:induction false} LaterShape(h: Story)
    ensures Later(h).Some? <==> h.base.Some? && !HasDeleted(h.since)
    ensures Later(h).Some? ==> Later(h).value == Entry(h.base.value.value, DeadlineKept(h))
    decreases |h.since|
  {
    if h.since != [] {
      var n := |h.since| - 1;
      var before := h.(since := h.since[..n]);
      LaterShape(before);
      if i :| 0 <= i < n && before.since[i].Deleted? {
        assert h.since[i].Deleted?;
      }
      if i :| 0 <= i < n && h.since[i].Deleted? {
        assert before.since[i].Deleted?;
      }
    }
  }

  lemma {:induction false} EarlierShape(h: Story)
    ensures Earlier(h).Some? <==> ValueHeld(h).Some?
    ensures Earlier(h).Some? ==> Earlier(h).value.value == ValueHeld(h).value
    ensures Earlier(h).Some? && h.since != [] ==> Earlier(h).value.deadline == h.since[|h.since| - 1].deadline
    decreases |h.since|
  {
    if h.since != [] {
      EarlierShape(h.(since := h.since[..|h.since| - 1]));
    }
  }

  lemma LastEvent(h: Story)
    requires h.since != []
    ensures
      var last := h.since[|h.since| - 1];
      && (last.Refused? ==> ValueHeld(h).None?)
      && (last.Deleted? ==> HasDeleted(h.since))
      && (h.base.Some? && (last.Prolonged? || last.Refused?) ==> DeadlineKept(h) == last.deadline)
  {
  }

  predicate OverlookedHavePassed(h: Story, now: int) {
    forall i :: 0 <= i < |h.since| && h.since[i].Overlooked? ==> Passed(h.since[i].deadline, now)
  }

  function ShownEntry(e: Option<Entry>, now: int): Option<Entry> {
    if e.Some? && Live(e.value, now) then e else None
  }

  lemma AgreesExactly(h: Story, now: int)
    requires OverlookedHavePassed(h, now)
    ensures ShownEntry(Earlier(h), now) == ShownEntry(Later(h), now) <==> Agrees(h, now)
  {
    hide Earlier, Later, ValueHeld, HasDeleted, DeadlineKept;
    EarlierShape(h);
    LaterShape(h);
    if h.since == [] {
      NothingSince(h);
    } else {
      LastEvent(h);
    }
  }

  lemma {:induction false} StoryIsPast(log: seq<Record>, a: seq<Reading>, b: seq<Reading>, k: bytes, now: int)
    requires |a| == |b| == |log| && Positive(log) && ReadBy(b, now)
    ensures OverlookedHavePassed(StoryOf(log, a, b, k), now)
    decreases |log|
  {
    hide Earlier, Later;
    if log != [] {
      var n := |log| - 1;
      assert DeadlineOf(log[n]) > 0 && b[n].due <= now;
      StoryIsPast(log[..n], a[..n], b[..n], k, now);
    }
  }

  /**
   * Two readings of one log, for every log, key and time and all clock readings of either: they show the
   * key alike, value and deadline, if and only if its story agrees.
   */
  lemma ReadingsAgreeExactly(log: seq<Record>, a: seq<Reading>, b: seq<Reading>, k: bytes, now: int)
    requires |log| == |a| && NoLater(a, b) && Positive(log) && ReadBy(b, now)
    ensures Shown(RestoreAt(log, a), k, now) == Shown(RestoreAt(log, b), k, now)
            <==> Agrees(StoryOf(log, a, b, k), now)
  {
    hide RestoreAt, StoryOf, Agrees, Positive, ReadBy, Earlier, Later, OverlookedHavePassed;
    StoryReads(log, a, b, k);
    StoryIsPast(log, a, b, k, now);
    AgreesExactly(StoryOf(log, a, b, k), now);
  }

  // ---- recovery ----

  /** A replay that runs after the epoch and is over by `now`. */
  predicate Replays(ts: seq<Reading>, n: nat, now: int) {
    |ts| == n && ReadBy(ts, now) && forall i :: 0 <= i < n ==> 0 <= ts[i].due
  }

  /**
   * Exact recovery, for every log and key and whatever the callbacks read from the clock: replay shows the
   * key as the log means it, value and deadline, if and only if the key's story agrees.
   */
  lemma RecoveryIsExact(log: seq<Record>, ts: seq<Reading>, k: bytes, now: int)
    requires Positive(log) && Replays(ts, |log|, now)
    ensures Shown(RestoreAt(log, ts), k, now) == Shown(Fold(log), k, now)
            <==> Agrees(StoryOf(log, Uniform(|log|, 0), ts, k), now)
  {
    hide RestoreAt, StoryOf, Agrees, Positive, Fold;
    FoldIsReading(log);
    ReadingsAgreeExactly(log, Uniform(|log|, 0), ts, k, now);
  }

  /**
   * With a reading per callback a deadline may pass while the replay runs. The outcome is that of a replay
   * at one time, after it, if and only if the story of the two readings agrees.
   */
  lemma OneReadingIsExact(log: seq<Record>, ts: seq<Reading>, k: bytes, now: int)
    requires Positive(log) && |ts| == |log| && ReadBy(ts, now)
    ensures Shown(RestoreAt(log, ts), k, now) == Shown(RestoreAll(log, now), k, now)
            <==> Agrees(StoryOf(log, ts, Uniform(|log|, now), k), now)
  {
    hide RestoreAt, StoryOf, Agrees, Positive;
    ReadingsAgreeExactly(log, ts, Uniform(|log|, now), k, now);
  }

  predicate AllAhead(log: seq<Record>, now: int) {
    forall i :: 0 <= i < |log| && (log[i].SetPxat? || log[i].PExpireAt?) ==> now < log[i].deadline
  }

  /** A restart that is over before any logged deadline has passed recovers everything. */
  lemma {:induction false} EarlyRestartRecovers(log: seq<Record>, ts: seq<Reading>, now: int)
    requires 0 <= now && AllAhead(log, now) && |ts| == |log|
    requires forall i :: 0 <= i < |ts| ==> ts[i].due <= now && ts[i].check <= now
    ensures RestoreAt(log, ts) == Fold(log)
    ensures forall k :: k in Fold(log) ==> Live(Fold(log)[k], now)
    decreases |log|
  {
    if log != [] {
      var n := |log| - 1;
      assert AllAhead(log[..n], now) && (log[n].SetPxat? || log[n].PExpireAt? ==> now < log[n].deadline);
      EarlyRestartRecovers(log[..n], ts[..n], now);
    }
  }

  // ---- a replay at one time ----

  /** What stories look like when the log is replayed at one time: every deadline lies on its side of it. */
  predicate Timely(h: Story, now: int) {
    && (h.base.Some? ==> Live(h.base.value, now))
    && forall i :: 0 <= i < |h.since| ==>
         && 0 < h.since[i].deadline && !h.since[i].Refused?
         && (h.since[i].Prolonged? <==> now < h.since[i].deadline)
  }

  lemma TimelyReads(h: Story, now: int)
    requires Timely(h, now) && 0 <= now
    ensures Earlier(h).Some? ==> Live(Earlier(h).value, 0)
    ensures Later(h).Some? ==> Live(Later(h).value, now)
  {
    hide Earlier, Later, ValueHeld, HasDeleted, DeadlineKept;
    EarlierShape(h);
    LaterShape(h);
    NothingSince(h);
    if h.base.Some? {
      TimelyDeadline(h, now);
    }
  }

  lemma {:induction false} TimelyDeadline(h: Story, now: int)
    requires Timely(h, now) && h.base.Some?
    ensures DeadlineKept(h) < 0 || now < DeadlineKept(h)
    decreases |h.since|
  {
    if h.since != [] {
      TimelyDeadline(h.(since := h.since[..|h.since| - 1]), now);
    }
  }

  lemma {:induction false} StoryIsTimely(log: seq<Record>, k: bytes, now: int)
    requires Positive(log) && 0 <= now
    ensures Timely(StoryOf(log, Uniform(|log|, 0), Uniform(|log|, now), k), now)
    decreases |log|
  {
    hide Earlier, Later;
    if log != [] {
      var n := |log| - 1;
      assert Uniform(n + 1, 0)[..n] == Uniform(n, 0) && Uniform(n + 1, now)[..n] == Uniform(n, now);
      StoryIsTimely(log[..n], k, now);
      assert DeadlineOf(log[n]) > 0;
      TimelyReads(StoryOf(log[..n], Uniform(n, 0), Uniform(n, now), k), now);
    }
  }

  /** After the key's base record no SET PXAT has expired, and no PEXPIREAT that has is followed by a last one ahead. */
  predicate Undisturbed(since: seq<Event>) {
    && (forall i :: 0 <= i < |since| ==> !since[i].Overlooked?)
    && (since != [] && since[|since| - 1].Prolonged? ==> !HasDeleted(since))
  }

  lemma {:induction false} NothingOverlooked(h: Story)
    requires forall i :: 0 <= i < |h.since| ==> !h.since[i].Overlooked? && !h.since[i].Refused?
    ensures ValueHeld(h) == if h.base.Some? then Some(h.base.value.value) else None
    decreases |h.since|
  {
    if h.since != [] {
      NothingOverlooked(h.(since := h.since[..|h.since| - 1]));
    }
  }

  /** Such a key is always recovered by a replay at one time. */
  lemma UndisturbedRecovers(log: seq<Record>, k: bytes, now: int)
    requires Positive(log) && 0 <= now
    requires Undisturbed(StoryOf(log, Uniform(|log|, 0), Uniform(|log|, now), k).since)
    ensures Shown(RestoreAll(log, now), k, now) == Shown(Fold(log), k, now)
  {
    hide RestoreAt, StoryOf, Positive, Fold, ValueHeld, DeadlineKept;
    var h := StoryOf(log, Uniform(|log|, 0), Uniform(|log|, now), k);
    StoryIsTimely(log, k, now);
    NothingOverlooked(h);
    RecoveryIsExact(log, Uniform(|log|, now), k, now);
  }

  // ---- when it goes wrong ----

  lemma RestoreTwo(r1: Record, r2: Record, t1: Reading, t2: Reading)
    ensures RestoreAt([r1, r2], [t1, t2]) == Restore(Restore(map[], r1, t1), r2, t2)
    ensures Fold([r1, r2]) == Apply(Apply(map[], r1), r2)
  {
    assert [r1, r2] == [] + [r1] + [r2] && [t1, t2] == [] + [t1] + [t2];
    RestorePush([], [], r1, t1);
    RestorePush([] + [r1], [] + [t1], r2, t2);
    FoldPush(map[], [], r1);
    FoldPush(map[], [] + [r1], r2);
  }

  lemma UniformTwo(now: int)
    ensures Uniform(2, now) == [Reading(now, now), Reading(now, now)]
  {
  }

  /** A key whose life was prolonged is lost when the server restarts after its first deadline. */
  lemma ProlongedKeyIsLost(k: bytes, v: bytes, first: int, second: int, now: int)
    requires 0 < first <= now < second
    ensures
      var log := [SetPxat(k, v, first), PExpireAt(k, second)];
      && Shown(Fold(log), k, now) == Some(Entry(v, second))
      && Shown(RestoreAll(log, now), k, now) == None
  {
    UniformTwo(now);
    RestoreTwo(SetPxat(k, v, first), PExpireAt(k, second), Reading(now, now), Reading(now, now));
  }

  /** An overwritten value comes back when the server restarts after the newer value has expired. */
  lemma OverwrittenValueReturns(k: bytes, older: bytes, newer: bytes, d: int, now: int)
    requires 0 < d <= now
    ensures
      var log := [Set(k, older), SetPxat(k, newer, d)];
      && Shown(Fold(log), k, now) == None
      && Shown(RestoreAll(log, now), k, now) == Some(Entry(older, -1))
  {
    UniformTwo(now);
    RestoreTwo(Set(k, older), SetPxat(k, newer, d), Reading(now, now), Reading(now, now));
  }

  /** A newer value that expires while the replay runs is still taken by it, and skipped by one at a later time. */
  lemma DeadlineDuringReplay(k: bytes, older: bytes, newer: bytes, d: int, t1: Reading, t2: Reading, now: int)
    requires 0 < d && t2.due < d <= now
    ensures
      var log := [Set(k, older), SetPxat(k, newer, d)];
      && Shown(RestoreAt(log, [t1, t2]), k, now) == None
      && Shown(RestoreAll(log, now), k, now) == Some(Entry(older, -1))
  {
    RestoreTwo(Set(k, older), SetPxat(k, newer, d), t1, t2);
    OverwrittenValueReturns(k, older, newer, d, now);
  }
}
