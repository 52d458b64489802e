/** The device manager: boot initialization, reads, reinitialization and late retries of the
    configured devices.  What each driver call does is arbitrary. */
module DeviceLifecycle {
  import opened Common

  datatype State = Ready | ReinitializePending

  /** A driver call returns, raises the OSError that counts as a device failure, or raises anything
      else, which no handler here catches. */
  datatype Outcome = Fine | OsError | Escapes

  /** What has happened to a device since it became active. */
  datatype Reading = Read | Missed | Reinitialized

  /** What a read adds to the history. */
  function ReadingOf(answer: Outcome): seq<Reading> {
    match answer
    case Fine => [Read]
    case OsError => [Missed]
    case Escapes => []
  }

  /** The failures since the last success or reinitialization. */
  function Trailing(history: seq<Reading>): nat {
    if history == [] || history[|history| - 1] != Missed then 0 else 1 + Trailing(history[..|history| - 1])
  }

  function Count(history: seq<Reading>, what: Reading): nat {
    if history == [] then 0
    else Count(history[..|history| - 1], what) + (if history[|history| - 1] == what then 1 else 0)
  }

  lemma {:induction false} Appended(history: seq<Reading>, r: Reading)
    ensures Trailing(history + [r]) == if r == Missed then Trailing(history) + 1 else 0
    ensures forall what :: Count(history + [r], what) == Count(history, what) + (if r == what then 1 else 0)
  {
  }

  datatype Reported = Running(state: State, readCount: nat, failures: nat) | InitializationFailed(attemptsUsed: nat)

  datatype Status = Status(id: string, reported: Reported)

  class ManagedDevice {
    const id: string
    var state: State
    var initializationAttemptsUsed: nat
    var consecutiveReadFailures: nat
    var totalReadFailures: nat
    var readCount: nat
    var successfulReadCount: nat
    var lastReadMs: Option<int>
    var lastSuccessfulReadMs: Option<int>
    var reinitializePending: bool
    var reinitFailureLogged: bool
    ghost var history: seq<Reading>

    /** The counters are those of the history; the flag and the state agree; a ready device is below
        the failure threshold and a pending one exactly at it. */
    ghost predicate Sound(threshold: nat)
      reads this
    {
      && successfulReadCount == Count(history, Read)
      && totalReadFailures == Count(history, Missed)
      && readCount == successfulReadCount + totalReadFailures
      && consecutiveReadFailures == Trailing(history)
      && (reinitializePending <==> state == ReinitializePending)
      && (if reinitializePending then consecutiveReadFailures == threshold else consecutiveReadFailures < threshold)
      && (reinitFailureLogged ==> reinitializePending)
      && (lastReadMs.None? <==> readCount == 0)
      && (lastSuccessfulReadMs.None? <==> successfulReadCount == 0)
    }

    constructor (id: string, attemptsUsed: nat)
      ensures this.id == id && history == [] && initializationAttemptsUsed == attemptsUsed
      ensures forall threshold: nat :: threshold > 0 ==> Sound(threshold)
    {
      this.id := id;
      state := Ready;
      initializationAttemptsUsed := attemptsUsed;
      consecutiveReadFailures, totalReadFailures, readCount, successfulReadCount := 0, 0, 0, 0;
      lastReadMs, lastSuccessfulReadMs := None, None;
      reinitializePending, reinitFailureLogged := false, false;
      history := [];
    }

    function Report(): Reported
      reads this
    {
      Running(state, readCount, totalReadFailures)
    }

    method MarkReinitializePending()
      modifies `reinitializePending, `state
      ensures reinitializePending && state == ReinitializePending
    {
      reinitializePending := true;
      state := ReinitializePending;
    }

    method ClearReinitializePending()
      modifies `reinitializePending, `state, `consecutiveReadFailures, `reinitFailureLogged
      ensures !reinitializePending && state == Ready && consecutiveReadFailures == 0 && !reinitFailureLogged
    {
      reinitializePending := false;
      state := Ready;
      consecutiveReadFailures := 0;
      reinitFailureLogged := false;
    }

    method RecordReadFailure()
      modifies `consecutiveReadFailures, `totalReadFailures
      ensures consecutiveReadFailures == old(consecutiveReadFailures) + 1
      ensures totalReadFailures == old(totalReadFailures) + 1
    {
      consecutiveReadFailures := consecutiveReadFailures + 1;
      totalReadFailures := totalReadFailures + 1;
    }

    /** A read has been counted, and nothing yet of how it went. */
    ghost predicate Reading(threshold: nat)
      reads this
    {
      && successfulReadCount == Count(history, Read)
      && totalReadFailures == Count(history, Missed)
      && readCount == successfulReadCount + totalReadFailures + 1
      && consecutiveReadFailures == Trailing(history) < threshold
      && !reinitializePending && state == Ready && !reinitFailureLogged && lastReadMs.Some?
      && (lastSuccessfulReadMs.None? <==> successfulReadCount == 0)
    }

    method ReadSucceeded(threshold: nat, now: int)
      requires Reading(threshold)
      modifies `successfulReadCount, `lastSuccessfulReadMs, `consecutiveReadFailures, `history
      ensures Sound(threshold) && history == old(history) + [Read]
      ensures successfulReadCount == old(successfulReadCount) + 1 && lastSuccessfulReadMs == Some(now)
    {
      Appended(history, Read);
      successfulReadCount := successfulReadCount + 1;
      lastSuccessfulReadMs := Some(now);
      consecutiveReadFailures := 0;
      history := history + [Read];
    }

    method ReadFailed(threshold: nat)
      requires Reading(threshold)
      modifies `consecutiveReadFailures, `totalReadFailures, `reinitializePending, `state, `history
      ensures Sound(threshold) && history == old(history) + [Missed]
      ensures totalReadFailures == old(totalReadFailures) + 1
      ensures reinitializePending <==> old(consecutiveReadFailures) + 1 == threshold
    {
      Appended(history, Missed);
      RecordReadFailure();
      history := history + [Missed];
      if consecutiveReadFailures >= threshold {
        MarkReinitializePending();
      }
    }

    /** `_process_normal_read`: one read of a device that is not pending. */
    method NormalRead(threshold: nat, answer: Outcome, now: int) returns (previousFailures: nat)
      requires Sound(threshold) && threshold > 0 && !reinitializePending
      modifies this
      ensures !answer.Escapes? ==> Sound(threshold)
      ensures history == old(history) + ReadingOf(answer)
      ensures readCount == old(readCount) + 1 && lastReadMs == Some(now)
      ensures successfulReadCount == old(successfulReadCount) + (if answer.Fine? then 1 else 0)
      ensures totalReadFailures == old(totalReadFailures) + (if answer.OsError? then 1 else 0)
      ensures lastSuccessfulReadMs == if answer.Fine? then Some(now) else old(lastSuccessfulReadMs)
      ensures previousFailures == old(consecutiveReadFailures)
      ensures reinitializePending <==> answer.OsError? && old(consecutiveReadFailures) + 1 == threshold
      ensures initializationAttemptsUsed == old(initializationAttemptsUsed)
    {
      readCount := readCount + 1;
      lastReadMs := Some(now);
      previousFailures := consecutiveReadFailures;
      match answer
      case Fine => ReadSucceeded(threshold, now);
      case OsError => ReadFailed(threshold);
      case Escapes =>
    }

    /** `_process_reinitialization` once the driver has answered: the first failure of an outage is
        flagged for a warning and the rest are not. */
    method Reinitialize(threshold: nat, result: Outcome) returns (warn: bool)
      requires Sound(threshold) && threshold > 0 && reinitializePending
      modifies this
      ensures Sound(threshold)
      ensures history == if result.Fine? then old(history) + [Reinitialized] else old(history)
      ensures reinitializePending <==> !result.Fine?
      ensures warn <==> result.OsError? && !old(reinitFailureLogged)
      ensures reinitFailureLogged <==> result.OsError? || (result.Escapes? && old(reinitFailureLogged))
      ensures readCount == old(readCount) && initializationAttemptsUsed == old(initializationAttemptsUsed)
    {
      Appended(history, Reinitialized);
      warn := false;
      if result.Fine? {
        ClearReinitializePending();
        history := history + [Reinitialized];
      } else if result.OsError? {
        warn := !reinitFailureLogged;
        if warn {
          reinitFailureLogged := true;
        }
      }
    }
  }

  // ---------------------------------------------------------------------------------------
  // Membership and order
  // ---------------------------------------------------------------------------------------

  predicate Distinct(ids: seq<string>) {
    forall i, j :: 0 <= i < j < |ids| ==> ids[i] != ids[j]
  }

  function Ids(active: seq<ManagedDevice>): seq<string> {
    seq(|active|, i requires 0 <= i < |active| => active[i].id)
  }

  predicate Precedes(config: seq<string>, a: string, b: string) {
    forall k, l :: 0 <= k < |config| && 0 <= l < |config| && config[k] == a && config[l] == b ==> k < l
  }

  /** The listed ids are in the order of the configuration. */
  predicate InOrder(config: seq<string>, ids: seq<string>) {
    forall i, j :: 0 <= i < j < |ids| ==> Precedes(config, ids[i], ids[j])
  }

  /** Every id of `before` is configured ahead of every id of `after`. */
  predicate AllPrecede(config: seq<string>, before: seq<string>, after: set<string>) {
    forall a, b :: a in before && b in after ==> Precedes(config, a, b)
  }

  lemma {:induction false} NextPrefix(config: seq<string>, n: nat)
    requires n < |config|
    ensures forall id :: id in config[..n + 1] <==> id in config[..n] || id == config[n]
  {
  }

  lemma {:induction false} LastInOrder(config: seq<string>, n: nat, ids: seq<string>)
    requires Distinct(config) && n < |config| && InOrder(config, ids)
    requires forall id :: id in ids ==> id in config[..n]
    ensures InOrder(config, ids + [config[n]])
  {
    forall i | 0 <= i < |ids|
      ensures Precedes(config, ids[i], config[n])
    {
      assert ids[i] in ids;
      var m :| 0 <= m < n && config[..n][m] == ids[i];
      assert config[m] == ids[i];
    }
  }

  function Elements(ids: seq<string>): set<string> { set id | id in ids }

  /** Recovered devices go to the end of the list. */
  lemma {:induction false} AppendedInOrder(config: seq<string>, active: seq<string>, recovered: seq<string>)
    requires InOrder(config, active) && InOrder(config, recovered)
    ensures InOrder(config, active + recovered) <==> AllPrecede(config, active, Elements(recovered))
  {
    var all := active + recovered;
    if InOrder(config, all) {
      forall i, j | 0 <= i < |active| && 0 <= j < |recovered|
        ensures Precedes(config, active[i], recovered[j])
      {
        assert Precedes(config, all[i], all[|active| + j]);
      }
    }
  }

  /** Each of the first `n` configured ids is among the active ones, once, or among the failed ones,
      and not both; nothing else is either. */
  predicate Partition(config: seq<string>, n: nat, active: seq<string>, failed: set<string>) {
    && n <= |config| && Distinct(config) && Distinct(active)
    && (forall id :: id in active ==> id in config[..n] && id !in failed)
    && (forall id :: id in failed ==> id in config[..n])
    && (forall k :: 0 <= k < n ==> config[k] in active || config[k] in failed)
  }

  lemma {:induction false} OneMore(config: seq<string>, n: nat, active: seq<string>, failed: set<string>)
    requires Partition(config, n, active, failed) && n < |config|
    ensures Partition(config, n + 1, active + [config[n]], failed)
    ensures Partition(config, n + 1, active, failed + {config[n]})
  {
  }

  /** A failed device recovers. */
  lemma {:induction false} Promoted(config: seq<string>, n: nat, active: seq<string>, failed: set<string>, id: string)
    requires Partition(config, n, active, failed) && id in failed
    ensures Partition(config, n, active + [id], failed - {id})
  {
  }

  /** The devices recovered among the first `n` configured ones. */
  predicate Recovering(config: seq<string>, n: nat, recovered: seq<string>, failed: set<string>)
    requires n <= |config|
  {
    InOrder(config, recovered) && forall id :: id in recovered ==> id in config[..n] && id in failed
  }

  lemma {:induction false} RecoveringNext(config: seq<string>, n: nat, recovered: seq<string>, failed: set<string>)
    requires Distinct(config) && n < |config| && Recovering(config, n, recovered, failed)
    ensures Recovering(config, n + 1, recovered, failed)
    ensures config[n] in failed ==> Recovering(config, n + 1, recovered + [config[n]], failed)
  {
    NextPrefix(config, n);
    LastInOrder(config, n, recovered);
  }

  lemma {:induction false} RecoveredInOrder(config: seq<string>, active: seq<string>, recovered: seq<string>,
          failed: set<string>)
    requires InOrder(config, active) && InOrder(config, recovered) && forall id :: id in recovered ==> id in failed
    ensures InOrder(config, active + recovered) <==> AllPrecede(config, active, Elements(recovered))
    ensures AllPrecede(config, active, failed) ==> InOrder(config, active + recovered)
  {
    AppendedInOrder(config, active, recovered);
  }

  /** The active devices stay in configuration order, whichever of the failed ones recover, exactly
      when every active device is configured ahead of every failed one. */
  lemma {:induction false} RecoveryKeepsOrderExactly(config: seq<string>, active: seq<string>, failed: set<string>)
    requires Partition(config, |config|, active, failed) && InOrder(config, active)
    ensures (forall recovered :: InOrder(config, recovered) && Elements(recovered) <= failed ==>
               InOrder(config, active + recovered))
            <==> AllPrecede(config, active, failed)
  {
    forall recovered | InOrder(config, recovered) && Elements(recovered) <= failed
      ensures InOrder(config, active + recovered) <==> AllPrecede(config, active, Elements(recovered))
    {
      AppendedInOrder(config, active, recovered);
    }
    forall a, f | a in active && f in failed && !Precedes(config, a, f)
      ensures InOrder(config, [f]) && Elements([f]) <= failed && !InOrder(config, active + [f])
    {
      assert f in Elements([f]);
      AppendedInOrder(config, active, [f]);
    }
  }

  /** The documented order does fail: of two devices, the first is late to initialize and recovers. */
  lemma {:induction false} RecoveryOutOfOrder()
    ensures var config := ["a", "b"];
            && Partition(config, 2, ["b"], {"a"}) && InOrder(config, ["b"])
            && Partition(config, 2, ["b"] + ["a"], {}) && !InOrder(config, ["b"] + ["a"])
  {
    var config := ["a", "b"];
    assert config[0] == "a" && config[1] == "b";
    assert !Precedes(config, "b", "a");
    Promoted(config, 2, ["b"], {"a"}, "a");
    assert {"a"} - {"a"} == {};
    assert (["b"] + ["a"])[0] == "b" && (["b"] + ["a"])[1] == "a";
  }

  lemma {:induction false} DistinctCount(ids: seq<string>)
    requires Distinct(ids)
    ensures |Elements(ids)| == |ids|
  {
    if ids != [] {
      var front, last := ids[..|ids| - 1], ids[|ids| - 1];
      DistinctCount(front);
      assert last !in front;
      assert Elements(ids) == Elements(front) + {last};
    }
  }

  /** The counts of a partition add up. */
  lemma {:induction false} PartitionCounts(config: seq<string>, active: seq<string>, failed: set<string>)
    requires Partition(config, |config|, active, failed)
    ensures |active| + |failed| == |config|
  {
    DistinctCount(config);
    DistinctCount(active);
    assert config[..|config|] == config;
    assert Elements(config) == Elements(active) + failed && Elements(active) !! failed;
  }

  lemma {:induction false} Elsewhere(active: seq<ManagedDevice>, i: nat)
    requires i < |active| && Distinct(Ids(active))
    ensures forall j :: 0 <= j < |active| && j != i ==> active[j] != active[i]
  {
    forall j | 0 <= j < |active| && j != i
      ensures active[j] != active[i]
    {
      assert Ids(active)[j] != Ids(active)[i];
    }
  }

  lemma {:induction false} DistinctIds(active: seq<ManagedDevice>, n: nat)
    requires Distinct(Ids(active)) && n < |active|
    ensures forall j :: 0 <= j < n ==> active[j].id != active[n].id
    ensures active[n].id in Ids(active)
  {
    assert Ids(active)[n] == active[n].id;
    forall j | 0 <= j < n
      ensures active[j].id != active[n].id
    {
      assert Ids(active)[j] != Ids(active)[n];
    }
  }

  lemma {:induction false} Listed(active: seq<ManagedDevice>)
    ensures forall i :: 0 <= i < |active| ==> active[i].id in Ids(active)
    ensures forall id :: id in Ids(active) ==> exists i :: 0 <= i < |active| && active[i].id == id
  {
    forall i | 0 <= i < |active|
      ensures active[i].id in Ids(active)
    {
      assert Ids(active)[i] == active[i].id;
    }
  }

  /** The indices below `n` of the devices that are READY. */
  ghost function ReadyIndices(active: seq<ManagedDevice>, n: nat): set<nat>
    requires n <= |active|
    reads active
  {
    set i: nat | i < n && active[i].state == Ready
  }

  lemma {:induction false} ReadyStep(active: seq<ManagedDevice>, n: nat)
    requires n < |active|
    ensures |ReadyIndices(active, n + 1)| == |ReadyIndices(active, n)| + (if active[n].state == Ready then 1 else 0)
  {
    assert ReadyIndices(active, n + 1) == ReadyIndices(active, n) + (if active[n].state == Ready then {n} else {});
  }

  /** What is known of an active device: the attempts its initialization took and what has happened to
      it since. */
  datatype Standing = Standing(id: string, attemptsUsed: nat, history: seq<Reading>)

  ghost function Standings(active: seq<ManagedDevice>): (standings: seq<Standing>)
    reads active
    ensures |standings| == |active|
  {
    seq(|active|, i requires 0 <= i < |active| reads active =>
      Standing(active[i].id, active[i].initializationAttemptsUsed, active[i].history))
  }

  lemma {:induction false} StandingsAppended(active: seq<ManagedDevice>, device: ManagedDevice)
    ensures Standings(active + [device])
            == Standings(active) + [Standing(device.id, device.initializationAttemptsUsed, device.history)]
    ensures Ids(active + [device]) == Ids(active) + [device.id]
  {
  }

  // ---------------------------------------------------------------------------------------
  // A device's turn
  // ---------------------------------------------------------------------------------------

  /** A turn at initializing a device: the call at `c` creates its driver, and the `used` calls after it
      are attempts to initialize it.  It ends at the first call that returns anything but an OSError,
      at a failed creation, and at the last attempt allowed. */
  ghost predicate Ends(driver: nat -> Outcome, attempts: nat, c: nat, used: nat, how: Outcome) {
    && used <= attempts && driver(c + used) == how
    && (if used == 0 then how != Fine else driver(c) == Fine)
    && (forall k :: c < k < c + used ==> driver(k) == OsError)
    && (how == OsError ==> used == 0 || used == attempts)
  }

  /** The driver's answers settle how a turn ends and after how many attempts. */
  lemma {:induction false} EndsOnce(driver: nat -> Outcome, attempts: nat, c: nat) returns (used: nat, how: Outcome)
    requires attempts > 0
    ensures Ends(driver, attempts, c, used, how)
    ensures forall u, h :: Ends(driver, attempts, c, u, h) ==> u == used && h == how
  {
    used, how := 0, driver(c);
    if how == Fine {
      used, how := 1, driver(c + 1);
      while used < attempts && how == OsError
        invariant 1 <= used <= attempts && how == driver(c + used)
        invariant forall k: nat :: c < k < c + used ==> driver(k) == OsError
      {
        used := used + 1;
        how := driver(c + used);
      }
    }
  }

  /** The record of a device that has not yet initialized. */
  datatype Failure = Failure(attemptsUsed: nat, warned: bool)

  lemma {:induction false} NotYet(config: seq<string>, n: nat, active: seq<ManagedDevice>, failed: set<string>)
    requires n < |config| && Partition(config, n, Ids(active), failed)
    ensures config[n] !in failed && forall x :: x in Standings(active) ==> x.id != config[n]
  {
    forall i | 0 <= i < |active|
      ensures active[i].id != config[n]
    {
      assert Ids(active)[i] in Ids(active);
    }
  }

  /** The device has had its turn, in the calls from `c` to before `next`: it is active exactly when
      the last of them returned, and failed exactly when the turn failed, with the attempts made. */
  ghost predicate Tried(driver: nat -> Outcome, attempts: nat, id: string, c: nat, next: nat,
                        active: seq<Standing>, failed: map<string, Failure>)
  {
    && c < next
    && (Standing(id, next - c - 1, []) in active <==> Ends(driver, attempts, c, next - c - 1, Fine))
    && (forall x :: x in active && x.id == id ==> x == Standing(id, next - c - 1, []))
    && (id in failed <==> Ends(driver, attempts, c, next - c - 1, OsError))
    && (id in failed ==> failed[id] == Failure(next - c - 1, false))
  }

  /** Each of these devices has had its turn: the calls of the `k`th begin at `starts[k]` and end before
      `starts[k + 1]`. */
  ghost predicate TriedEach(driver: nat -> Outcome, attempts: nat, ids: seq<string>, starts: seq<nat>,
                            active: seq<Standing>, failed: map<string, Failure>)
  {
    && |starts| == |ids| + 1
    && (forall k :: 0 <= k < |ids| ==> Tried(driver, attempts, ids[k], starts[k], starts[k + 1], active, failed))
  }

  lemma {:induction false} TriedNext(driver: nat -> Outcome, attempts: nat, config: seq<string>, n: nat, starts: seq<nat>,
          next: nat, how: Outcome, active: seq<Standing>, failed: map<string, Failure>)
    requires n < |config| && Distinct(config) && TriedEach(driver, attempts, config[..n], starts, active, failed)
    requires starts[n] < next && Ends(driver, attempts, starts[n], next - starts[n] - 1, how) && how != Escapes
    requires (forall x :: x in active ==> x.id != config[n]) && config[n] !in failed
    ensures TriedEach(driver, attempts, config[..n + 1], starts + [next],
                      active + (if how == Fine then [Standing(config[n], next - starts[n] - 1, [])] else []),
                      if how == OsError then failed[config[n] := Failure(next - starts[n] - 1, false)] else failed)
  {
  }

  // ---------------------------------------------------------------------------------------
  // A pass of late retries
  // ---------------------------------------------------------------------------------------

  /** What a retry pass reports of a device. */
  datatype RetryResult =
    | BootRecovered(id: string, attemptsUsed: nat)
    | BootRecoveryFailed(id: string, attemptsUsed: nat, warn: bool)

  function ResultIds(results: seq<RetryResult>): seq<string> {
    seq(|results|, i requires 0 <= i < |results| => results[i].id)
  }

  lemma {:induction false} ResultAppended(results: seq<RetryResult>, result: RetryResult)
    ensures ResultIds(results + [result]) == ResultIds(results) + [result.id]
    ensures forall x :: x in results + [result] <==> x in results || x == result
  {
  }

  /** A retry pass, so far: the devices it has recovered, what it reports, and the lists it leaves. */
  datatype Pass = Pass(recovered: seq<string>, results: seq<RetryResult>, active: seq<Standing>, failed: map<string, Failure>)

  /** The device has had its turn in a pass begun with the record `before`, in the calls from `c` to
      before `next`.  A device that was not failed has none.  Any other makes one attempt, which
      recovers it or is added to its record; only its first failure in a pass carries a warning. */
  ghost predicate Retried(driver: nat -> Outcome, id: string, c: nat, next: nat, before: map<string, Failure>, pass: Pass) {
    if id !in before then
      && next == c && id !in pass.recovered && id !in pass.failed && id !in ResultIds(pass.results)
    else
      && c < next
      && var used, made := next - c - 1, before[id].attemptsUsed + (next - c - 1);
      && (Ends(driver, 1, c, used, Fine) || Ends(driver, 1, c, used, OsError))
      && (id in pass.recovered <==> Ends(driver, 1, c, used, Fine))
      && (id in pass.failed <==> Ends(driver, 1, c, used, OsError))
      && (id in pass.recovered ==> Standing(id, made, []) in pass.active && BootRecovered(id, made) in pass.results)
      && (id in pass.failed ==>
            && pass.failed[id] == Failure(made, true)
            && BootRecoveryFailed(id, made, !before[id].warned) in pass.results)
  }

  /** A pass has come past the first `n` configured devices: its reports are those of the devices that
      were failed, in order, and the ones still to come stand as they did. */
  ghost predicate Retrying(driver: nat -> Outcome, config: seq<string>, n: nat, starts: seq<nat>,
                           before: map<string, Failure>, pass: Pass)
  {
    && n <= |config| && |starts| == n + 1
    && Recovering(config, n, pass.recovered, before.Keys) && Recovering(config, n, ResultIds(pass.results), before.Keys)
    && pass.failed.Keys <= before.Keys
    && (forall id :: id in before && id !in config[..n] ==> id in pass.failed && pass.failed[id] == before[id])
    && (forall k :: 0 <= k < n ==> Retried(driver, config[k], starts[k], starts[k + 1], before, pass))
  }

  /** One more result, and what goes with it, for the device `id`. */
  ghost predicate Advances(id: string, pass: Pass, after: Pass) {
    && after.recovered in {pass.recovered, pass.recovered + [id]}
    && ResultIds(after.results) == ResultIds(pass.results) + [id]
    && (forall x :: x in pass.active ==> x in after.active)
    && (forall x :: x in pass.results ==> x in after.results)
    && (forall x :: x != id ==>
          (x in after.failed <==> x in pass.failed) && (x in pass.failed ==> after.failed[x] == pass.failed[x]))
  }

  /** The turns of other devices leave a device as its own turn left it. */
  lemma {:induction false} RetriedStays(driver: nat -> Outcome, id: string, c: nat, next: nat, before: map<string, Failure>,
          pass: Pass, after: Pass, other: string)
    requires id != other && Retried(driver, id, c, next, before, pass) && Advances(other, pass, after)
    ensures Retried(driver, id, c, next, before, after)
  {
  }

  lemma {:induction false} PassAdvances(driver: nat -> Outcome, config: seq<string>, n: nat, starts: seq<nat>,
          before: map<string, Failure>, pass: Pass, after: Pass, next: nat)
    requires n < |config| && Distinct(config) && Retrying(driver, config, n, starts, before, pass) && config[n] in before
    requires Advances(config[n], pass, after) && after.failed.Keys <= before.Keys
    requires Retried(driver, config[n], starts[n], next, before, after)
    ensures Retrying(driver, config, n + 1, starts + [next], before, after)
  {
    RecoveringNext(config, n, pass.recovered, before.Keys);
    RecoveringNext(config, n, ResultIds(pass.results), before.Keys);
    forall k | 0 <= k < n
      ensures Retried(driver, config[k], starts[k], starts[k + 1], before, after)
    {
      RetriedStays(driver, config[k], starts[k], starts[k + 1], before, pass, after, config[n]);
    }
  }

  /** A device whose turn is still to come stands as it did. */
  lemma {:induction false} StillToCome(driver: nat -> Outcome, config: seq<string>, n: nat, starts: seq<nat>,
          before: map<string, Failure>, pass: Pass)
    requires n < |config| && Distinct(config) && Retrying(driver, config, n, starts, before, pass)
    ensures config[n] in pass.failed <==> config[n] in before
    ensures config[n] in before ==> pass.failed[config[n]] == before[config[n]]
  {
  }

  lemma {:induction false} PassSkips(driver: nat -> Outcome, config: seq<string>, n: nat, starts: seq<nat>,
          before: map<string, Failure>, pass: Pass)
    requires n < |config| && Distinct(config) && Retrying(driver, config, n, starts, before, pass)
    requires config[n] !in pass.failed
    ensures Retrying(driver, config, n + 1, starts + [starts[n]], before, pass)
  {
    StillToCome(driver, config, n, starts, before, pass);
    RecoveringNext(config, n, pass.recovered, before.Keys);
    RecoveringNext(config, n, ResultIds(pass.results), before.Keys);
  }

  /** A pass after one more attempt. */
  ghost function After(id: string, used: nat, result: Outcome, pass: Pass): Pass
    requires id in pass.failed
  {
    var made := pass.failed[id].attemptsUsed + used;
    match result
    case Fine => Pass(pass.recovered + [id], pass.results + [BootRecovered(id, made)],
                      pass.active + [Standing(id, made, [])], pass.failed - {id})
    case OsError => Pass(pass.recovered, pass.results + [BootRecoveryFailed(id, made, !pass.failed[id].warned)],
                         pass.active, pass.failed[id := Failure(made, true)])
    case Escapes => pass
  }

  lemma {:induction false} PassNext(driver: nat -> Outcome, config: seq<string>, n: nat, starts: seq<nat>,
          before: map<string, Failure>, pass: Pass, next: nat, how: Outcome)
    requires n < |config| && Distinct(config) && Retrying(driver, config, n, starts, before, pass)
    requires config[n] in pass.failed && starts[n] < next && how != Escapes
    requires Ends(driver, 1, starts[n], next - starts[n] - 1, how)
    ensures Retrying(driver, config, n + 1, starts + [next], before, After(config[n], next - starts[n] - 1, how, pass))
  {
    var id, after := config[n], After(config[n], next - starts[n] - 1, how, pass);
    StillToCome(driver, config, n, starts, before, pass);
    assert config[n] !in config[..n];
    ResultAppended(pass.results, after.results[|pass.results|]);
    assert Advances(id, pass, after);
    PassAdvances(driver, config, n, starts, before, pass, after, next);
  }

  /** The devices `earlier` are still active, in their places, and those recovered follow them. */
  predicate Kept(earlier: seq<ManagedDevice>, recovered: seq<string>, active: seq<ManagedDevice>) {
    |earlier| <= |active| && active[..|earlier|] == earlier && Ids(active) == Ids(earlier) + recovered
  }

  /** A new device `id` at the end of the list. */
  predicate Joined(before: seq<ManagedDevice>, active: seq<ManagedDevice>, id: string) {
    |active| == |before| + 1 && active == before + [active[|before|]] && active[|before|].id == id
  }

  lemma {:induction false} KeptFurther(earlier: seq<ManagedDevice>, recovered: seq<string>, before: seq<ManagedDevice>,
          active: seq<ManagedDevice>, id: string)
    requires Kept(earlier, recovered, before) && Joined(before, active, id)
    ensures Kept(earlier, recovered + [id], active)
  {
    StandingsAppended(before, active[|before|]);
  }

  // ---------------------------------------------------------------------------------------
  // The manager
  // ---------------------------------------------------------------------------------------

  class DeviceManager {
    const config: seq<string>           // the configured device ids, in order
    const attempts: nat                 // device_initialization_attempts
    const threshold: nat                // device_read_failure_threshold
    const driver: nat -> Outcome        // what successive driver calls do
    var calls: nat

    var active: seq<ManagedDevice>
    var failed: map<string, Failure>

    /** The first `n` configured devices are partitioned into active and failed ones; the active
        ones are sound. */
    ghost predicate Partial(n: nat)
      reads this, active
    {
      && attempts > 0 && threshold > 0 && Partition(config, n, Ids(active), failed.Keys)
      && (forall i :: 0 <= i < |active| ==> active[i].Sound(threshold))
    }

    constructor (config: seq<string>, attempts: nat, threshold: nat, driver: nat -> Outcome)
      requires attempts > 0 && threshold > 0 && Distinct(config)
      ensures Partial(0) && this.config == config && this.attempts == attempts && this.threshold == threshold
      ensures active == [] && failed == map[]
    {
      this.config, this.attempts, this.threshold, this.driver := config, attempts, threshold, driver;
      calls, active, failed := 0, [], map[];
    }

    ghost predicate Valid()
      reads this, active
    {
      Partial(|config|)
    }

    // -------------------------------------------------------------------------------------
    // Initialization
    // -------------------------------------------------------------------------------------

    /** `_initialize_driver_with_retries`: attempts until one does not fail, or they run out. */
    method InitializeDriverWithRetries() returns (used: nat, result: Outcome)
      requires attempts > 0
      modifies `calls
      ensures 1 <= used <= attempts && calls == old(calls) + used
      ensures result == driver(calls - 1)
      ensures forall k :: old(calls) <= k < calls - 1 ==> driver(k) == OsError
      ensures result == OsError ==> used == attempts
    {
      used := 0;
      result := OsError;
      while used < attempts && result == OsError
        invariant used <= attempts && calls == old(calls) + used
        invariant used > 0 ==> result == driver(calls - 1)
        invariant used == 0 ==> result == OsError
        invariant forall k :: old(calls) <= k < calls - 1 ==> driver(k) == OsError
      {
        result := driver(calls);
        calls, used := calls + 1, used + 1;
      }
    }

    /** `_record_success`, for the `n`th configured device. */
    method RecordSuccess(n: nat, used: nat)
      requires n < |config| && Partial(n)
      modifies `active
      ensures Partial(n + 1) && |active| == |old(active)| + 1 && fresh(active[|old(active)|])
      ensures Standings(active) == old(Standings(active)) + [Standing(config[n], used, [])]
      ensures Ids(active) == Ids(old(active)) + [config[n]]
    {
      var device := new ManagedDevice(config[n], used);
      OneMore(config, n, Ids(active), failed.Keys);
      StandingsAppended(active, device);
      active := active + [device];
    }

    /** `_record_driver_failure` and `_record_initialization_failure`. */
    method RecordFailure(n: nat, used: nat)
      requires n < |config| && Partial(n)
      modifies `failed
      ensures Partial(n + 1) && failed == old(failed)[config[n] := Failure(used, false)]
    {
      OneMore(config, n, Ids(active), failed.Keys);
      failed := failed[config[n] := Failure(used, false)];
    }

    /** The driver is created and then initialized until its turn ends. */
    method RunTurn() returns (used: nat, result: Outcome)
      requires attempts > 0
      modifies `calls
      ensures calls == old(calls) + used + 1 && Ends(driver, attempts, old(calls), used, result)
    {
      var created := driver(calls);
      calls := calls + 1;
      used := 0;
      result := created;
      if created == Fine {
        used, result := InitializeDriverWithRetries();
      }
    }

    /** The device is active or failed, as its turn ended. */
    method RecordTurn(n: nat, used: nat, result: Outcome)
      requires n < |config| && Partial(n) && InOrder(config, Ids(active)) && result != Escapes
      modifies `active, `failed
      ensures Partial(n + 1) && InOrder(config, Ids(active))
      ensures |active| == |old(active)| + (if result == Fine then 1 else 0)
      ensures Standings(active)
              == old(Standings(active)) + (if result == Fine then [Standing(config[n], used, [])] else [])
      ensures failed == if result == OsError then old(failed)[config[n] := Failure(used, false)] else old(failed)
    {
      if result == OsError {
        RecordFailure(n, used);
      } else {
        LastInOrder(config, n, Ids(active));
        RecordSuccess(n, used);
      }
    }

    /** `_initialize_single_device` for the `n`th configured device; those before it stay as they are. */
    method InitializeSingleDevice(n: nat, ghost starts: seq<nat>) returns (result: Outcome)
      requires n < |config| && Partial(n) && InOrder(config, Ids(active))
      requires |starts| == n + 1 && starts[n] == calls
      requires TriedEach(driver, attempts, config[..n], starts, Standings(active), failed)
      modifies this
      ensures calls > old(calls) && Ends(driver, attempts, old(calls), calls - old(calls) - 1, result)
      ensures |active| == |old(active)| + (if result == Fine then 1 else 0) && InOrder(config, Ids(active))
      ensures if result == Escapes then Partial(n) && active == old(active) && failed == old(failed)
              else Partial(n + 1) && TriedEach(driver, attempts, config[..n + 1], starts + [calls], Standings(active), failed)
    {
      var used, answer := RunTurn();
      result := answer;
      if result != Escapes {
        NotYet(config, n, active, failed.Keys);
        TriedNext(driver, attempts, config, n, starts, calls, result, Standings(active), failed);
        RecordTurn(n, used, result);
      }
    }

    /** `initialize_devices`: every device has its turn, in configuration order, unless a call escapes,
        which ends the pass at once. */
    method InitializeDevices() returns (initialized: nat, escaped: bool, ghost starts: seq<nat>)
      requires Partial(0) && active == []
      modifies this
      ensures !escaped ==> Valid() && initialized == |active| && InOrder(config, Ids(active))
      ensures 0 < |starts| <= |config| + 1 && starts[0] == old(calls) && Partial(|starts| - 1)
      ensures TriedEach(driver, attempts, config[..|starts| - 1], starts, Standings(active), failed)
      ensures !escaped ==> |starts| == |config| + 1 && starts[|config|] == calls
      ensures escaped ==> |starts| <= |config| && starts[|starts| - 1] < calls
                          && Ends(driver, attempts, starts[|starts| - 1], calls - starts[|starts| - 1] - 1, Escapes)
    {
      initialized, escaped, starts := 0, false, [calls];
      for n := 0 to |config|
        invariant Partial(n) && initialized == |active| && InOrder(config, Ids(active))
        invariant |starts| == n + 1 && starts[0] == old(calls) && starts[n] == calls
        invariant TriedEach(driver, attempts, config[..n], starts, Standings(active), failed)
      {
        var result := InitializeSingleDevice(n, starts);
        if result == Escapes {
          return initialized, true, starts;
        }
        if result == Fine {
          initialized := initialized + 1;
        }
        starts := starts + [calls];
      }
      assert config[..|config|] == config;
    }

    // -------------------------------------------------------------------------------------
    // Reads and reinitialization
    // -------------------------------------------------------------------------------------

    /** `process_device`: a read, or a reinitialization when one is pending; membership never
        changes, and no other device is touched. */
    method ProcessDevice(i: nat, now: int) returns (escaped: bool)
      requires Valid() && i < |active|
      modifies `calls, active[i]
      ensures !escaped ==> Valid()
      ensures active == old(active) && failed == old(failed)
      ensures forall j :: 0 <= j < |active| && j != i ==> active[j].Sound(threshold)
      ensures calls > old(calls) && escaped == (driver(calls - 1) == Escapes)
      ensures !old(active[i].reinitializePending) ==>
                && calls == old(calls) + 1
                && active[i].history == old(active[i].history) + ReadingOf(driver(old(calls)))
      ensures old(active[i].reinitializePending) ==>
                && old(calls) < calls <= old(calls) + attempts
                && (forall k :: old(calls) <= k < calls - 1 ==> driver(k) == OsError)
                && (driver(calls - 1) == OsError ==> calls == old(calls) + attempts)
                && active[i].history
                   == old(active[i].history) + (if driver(calls - 1) == Fine then [Reinitialized] else [])
    {
      var device := active[i];
      Elsewhere(active, i);
      if device.reinitializePending {
        var used, result := InitializeDriverWithRetries();
        var _ := device.Reinitialize(threshold, result);
        escaped := result == Escapes;
      } else {
        var answer := driver(calls);
        calls := calls + 1;
        var _ := device.NormalRead(threshold, answer, now);
        escaped := answer == Escapes;
      }
    }

    // -------------------------------------------------------------------------------------
    // Late retries
    // -------------------------------------------------------------------------------------

    /** A failed device has initialized: it becomes active and leaves the record. */
    method Recover(id: string, used: nat)
      requires Valid() && id in failed
      modifies `active, `failed
      ensures Valid() && failed == old(failed) - {id} && |active| == |old(active)| + 1
      ensures active[..|old(active)|] == old(active) && fresh(active[|old(active)|])
      ensures active[|old(active)|].id == id && active[|old(active)|].history == []
      ensures active[|old(active)|].initializationAttemptsUsed == used
    {
      var device := new ManagedDevice(id, used);
      Promoted(config, |config|, Ids(active), failed.Keys, id);
      StandingsAppended(active, device);
      assert (failed - {id}).Keys == failed.Keys - {id};
      active := active + [device];
      failed := failed - {id};
    }

    /** A driver is created and initialized once. */
    method RetryCalls() returns (used: nat, result: Outcome)
      modifies `calls
      ensures calls == old(calls) + used + 1 && Ends(driver, 1, old(calls), used, result)
    {
      used, result := 0, driver(calls);
      calls := calls + 1;
      if result == Fine {
        used, result := 1, driver(calls);
        calls := calls + 1;
      }
    }

    /** One device of `retry_failed_devices`: a single fresh attempt; the attempts already used stay
        counted, and only the first failure is flagged for a warning. */
    method RetryOne(id: string) returns (result: Outcome, warn: bool)
      requires Valid() && id in failed
      modifies this
      ensures Valid()
      ensures calls > old(calls) && Ends(driver, 1, old(calls), calls - old(calls) - 1, result)
      ensures result == Fine ==>
                && failed == old(failed) - {id} && |active| == |old(active)| + 1
                && active[..|old(active)|] == old(active) && fresh(active[|old(active)|])
                && active[|old(active)|].id == id && active[|old(active)|].history == []
                && active[|old(active)|].initializationAttemptsUsed == old(failed)[id].attemptsUsed + 1
      ensures result != Fine ==> active == old(active) && failed.Keys == old(failed).Keys
      ensures result == (if driver(old(calls)) == Fine then driver(old(calls) + 1) else driver(old(calls)))
      ensures result == OsError ==> failed[id].warned && (warn <==> !old(failed)[id].warned)
      ensures result == OsError ==>
                failed[id].attemptsUsed == old(failed)[id].attemptsUsed + (if driver(old(calls)) == Fine then 1 else 0)
      ensures forall other :: other in failed && other != id ==> failed[other] == old(failed)[other]
      ensures result == Escapes ==> failed == old(failed)
    {
      var record := failed[id];
      warn := false;
      var used, answer := RetryCalls();
      result := answer;
      match result
      case OsError =>
        warn := !record.warned;
        failed := failed[id := Failure(record.attemptsUsed + used, true)];
      case Fine =>
        Recover(id, record.attemptsUsed + 1);
      case Escapes =>
    }

    /** The attempt on a failed device in a pass, and its report. */
    method RetryAt(id: string, results: seq<RetryResult>, ghost recovered: seq<string>)
      returns (told: seq<RetryResult>, ghost done: seq<string>, result: Outcome)
      requires Valid() && id in failed
      modifies this
      ensures Valid() && calls > old(calls) && Ends(driver, 1, old(calls), calls - old(calls) - 1, result)
      ensures Pass(done, told, Standings(active), failed)
              == After(id, calls - old(calls) - 1, result, Pass(recovered, results, old(Standings(active)), old(failed)))
      ensures if result == Fine then Joined(old(active), active, id) else active == old(active)
    {
      told, done := results, recovered;
      ghost var now := active;
      var warn;
      result, warn := RetryOne(id);
      if result == Fine {
        var device := active[|active| - 1];
        told, done := results + [BootRecovered(id, device.initializationAttemptsUsed)], recovered + [id];
        StandingsAppended(now, device);
        assert active == now + [device];
      } else if result == OsError {
        told := results + [BootRecoveryFailed(id, failed[id].attemptsUsed, warn)];
      }
    }

    /** A pass begun with the record `before` has come past the first `n` configured devices. */
    ghost predicate Passed(n: nat, before: map<string, Failure>, recovered: seq<string>, results: seq<RetryResult>,
                           starts: seq<nat>)
      reads this, active
    {
      Retrying(driver, config, n, starts, before, Pass(recovered, results, Standings(active), failed))
    }

    /** The turn of a failed device in a pass. */
    method RetryNext(n: nat, results: seq<RetryResult>, ghost starts: seq<nat>, ghost recovered: seq<string>,
                     ghost earlier: seq<ManagedDevice>, ghost before: map<string, Failure>)
      returns (told: seq<RetryResult>, ghost done: seq<string>, result: Outcome)
      requires Valid() && n < |config| && Kept(earlier, recovered, active)
      requires Passed(n, before, recovered, results, starts) && starts[n] == calls
      requires config[n] in failed
      modifies this
      ensures Valid() && Kept(earlier, done, active)
      ensures result != Escapes ==> Passed(n + 1, before, done, told, starts + [calls])
      ensures result == Escapes ==>
                && Passed(n, before, done, told, starts) && config[n] in failed
                && calls > old(calls) && Ends(driver, 1, old(calls), calls - old(calls) - 1, Escapes)
    {
      ghost var pass, now := Pass(recovered, results, Standings(active), failed), active;
      told, done, result := RetryAt(config[n], results, recovered);
      if result != Escapes {
        PassNext(driver, config, n, starts, before, pass, calls, result);
        if result == Fine {
          KeptFurther(earlier, recovered, now, active, config[n]);
        }
      }
    }

    /** The turn of the `n`th configured device in a pass: nothing unless it is failed. */
    method RetryTurn(n: nat, results: seq<RetryResult>, ghost starts: seq<nat>, ghost recovered: seq<string>,
                     ghost earlier: seq<ManagedDevice>, ghost before: map<string, Failure>)
      returns (told: seq<RetryResult>, ghost done: seq<string>, result: Outcome)
      requires Valid() && n < |config| && Kept(earlier, recovered, active)
      requires Passed(n, before, recovered, results, starts) && starts[n] == calls
      modifies this
      ensures Valid() && Kept(earlier, done, active)
      ensures result != Escapes ==> Passed(n + 1, before, done, told, starts + [calls])
      ensures result == Escapes ==>
                && Passed(n, before, done, told, starts) && config[n] in failed
                && calls > old(calls) && Ends(driver, 1, old(calls), calls - old(calls) - 1, Escapes)
    {
      if config[n] in failed {
        told, done, result := RetryNext(n, results, starts, recovered, earlier, before);
      } else {
        told, done, result := results, recovered, Fine;
        PassSkips(driver, config, n, starts, before, Pass(recovered, results, Standings(active), failed));
      }
    }

    /** The pass over the configured devices. */
    method RetryEach() returns (results: seq<RetryResult>, escaped: bool, ghost recovered: seq<string>, ghost starts: seq<nat>)
      requires Valid()
      modifies this
      ensures Valid() && Kept(old(active), recovered, active) && 0 < |starts| <= |config| + 1 && starts[0] == old(calls)
      ensures Passed(|starts| - 1, old(failed), recovered, results, starts)
      ensures !escaped ==> |starts| == |config| + 1 && starts[|config|] == calls
      ensures escaped ==> |starts| <= |config| && config[|starts| - 1] in failed && starts[|starts| - 1] < calls
                          && Ends(driver, 1, starts[|starts| - 1], calls - starts[|starts| - 1] - 1, Escapes)
    {
      results, escaped, recovered, starts := [], false, [], [calls];
      for n := 0 to |config|
        invariant Valid() && Kept(old(active), recovered, active) && Passed(n, old(failed), recovered, results, starts)
        invariant |starts| == n + 1 && starts[0] == old(calls) && starts[n] == calls
      {
        var result;
        results, recovered, result := RetryTurn(n, results, starts, recovered, old(active), old(failed));
        if result == Escapes {
          escaped := true;
          return;
        }
        starts := starts + [calls];
      }
    }

    /** `retry_failed_devices`: each failed device has one turn, in configuration order, unless a call
        escapes, which ends the pass at once.  The devices active before stay, in place, and in order
        with the recovered ones when they were configured ahead of every failed one. */
    method RetryFailedDevices() returns (results: seq<RetryResult>, escaped: bool, ghost recovered: seq<string>,
                                         ghost starts: seq<nat>)
      requires Valid()
      modifies this
      ensures Valid() && failed.Keys <= old(failed).Keys
      ensures |old(active)| <= |active| && active[..|old(active)|] == old(active)
      ensures Ids(active) == Ids(old(active)) + recovered && InOrder(config, recovered)
      ensures Elements(recovered) <= old(failed).Keys
      ensures InOrder(config, Ids(old(active))) ==>
                && (InOrder(config, Ids(active)) <==> AllPrecede(config, Ids(old(active)), Elements(recovered)))
                && (AllPrecede(config, Ids(old(active)), old(failed).Keys) ==> InOrder(config, Ids(active)))
      ensures 0 < |starts| <= |config| + 1 && starts[0] == old(calls)
      ensures Retrying(driver, config, |starts| - 1, starts, old(failed), Pass(recovered, results, Standings(active), failed))
      ensures !escaped ==> |starts| == |config| + 1 && starts[|config|] == calls
      ensures escaped ==> |starts| <= |config| && config[|starts| - 1] in old(failed) && starts[|starts| - 1] < calls
                          && Ends(driver, 1, starts[|starts| - 1], calls - starts[|starts| - 1] - 1, Escapes)
    {
      results, escaped, recovered, starts := RetryEach();
      if InOrder(config, Ids(old(active))) {
        RecoveredInOrder(config, Ids(old(active)), recovered, old(failed).Keys);
      }
    }

    // -------------------------------------------------------------------------------------
    // Status
    // -------------------------------------------------------------------------------------

    /** `get_device_counts`: every configured device is active or failed; the ready ones are the
        active ones with no reinitialization pending. */
    method GetDeviceCounts() returns (configured: nat, ready: nat, initializationFailed: nat)
      requires Valid()
      ensures configured == |config| == |active| + initializationFailed
      ensures ready == |ReadyIndices(active, |active|)| <= |active|
      ensures ready == |active| <==> forall i :: 0 <= i < |active| ==> active[i].state == Ready
    {
      ready := 0;
      for i := 0 to |active|
        invariant ready == |ReadyIndices(active, i)| <= i
        invariant ready == i <==> forall j :: 0 <= j < i ==> active[j].state == Ready
      {
        ReadyStep(active, i);
        if active[i].state == Ready {
          ready := ready + 1;
        }
      }
      PartitionCounts(config, Ids(active), failed.Keys);
      assert |failed| == |failed.Keys|;
      configured, initializationFailed := |config|, |failed|;
    }

    /** The reports of the active devices, by id. */
    method GatherActive() returns (snapshots: map<string, Reported>)
      requires Distinct(Ids(active))
      ensures forall i :: 0 <= i < |active| ==> active[i].id in snapshots && snapshots[active[i].id] == active[i].Report()
      ensures forall id :: id in snapshots ==> id in Ids(active)
    {
      snapshots := map[];
      for n := 0 to |active|
        invariant forall j :: 0 <= j < n ==> active[j].id in snapshots && snapshots[active[j].id] == active[j].Report()
        invariant forall id :: id in snapshots ==> id in Ids(active)
      {
        DistinctIds(active, n);
        snapshots := snapshots[active[n].id := active[n].Report()];
      }
    }

    method EmitInOrder(snapshots: map<string, Reported>) returns (statuses: seq<Status>)
      requires forall k :: 0 <= k < |config| ==> config[k] in snapshots
      ensures |statuses| == |config|
      ensures forall k :: 0 <= k < |config| ==> statuses[k] == Status(config[k], snapshots[config[k]])
    {
      statuses := [];
      for n := 0 to |config|
        invariant |statuses| == n
        invariant forall k :: 0 <= k < n ==> statuses[k] == Status(config[k], snapshots[config[k]])
      {
        statuses := statuses + [Status(config[n], snapshots[config[n]])];
      }
    }

    /** `get_status_snapshot`: every configured device exactly once, in configuration order, with its
        own report. */
    method GetStatusSnapshot() returns (statuses: seq<Status>)
      requires Valid()
      ensures |statuses| == |config|
      ensures forall k :: 0 <= k < |config| ==> statuses[k].id == config[k]
      ensures forall k :: 0 <= k < |config| && config[k] in failed ==>
                statuses[k].reported == InitializationFailed(failed[config[k]].attemptsUsed)
      ensures forall i, k :: 0 <= i < |active| && 0 <= k < |config| && active[i].id == config[k] ==>
                statuses[k].reported == active[i].Report()
    {
      var snapshots := GatherActive();
      snapshots := snapshots + (map id | id in failed :: InitializationFailed(failed[id].attemptsUsed));
      Listed(active);
      statuses := EmitInOrder(snapshots);
    }
  }
}
