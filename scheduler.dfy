/**
 * Repository refresh scheduling of main.js:449-502 (`updateRegister`): the
 * cached catalog of the active repository is fresh while the clock is
 * below its time stamp plus the refresh interval; otherwise (or when
 * forced) the host is asked for the repository. With a non-zero interval
 * the next check is armed on a timer, after clearing the previous one.
 * The clock, the store reads and the host's reply are inputs; the host's
 * timer table is modelled as the map of armed timers.
 */
module Scheduler {
  import opened Wrappers
  import Settings

  const OneHourMs: int := 3600000

  /** The `system.repositories` object: the names under `native.repositories` and its `ts`. */
  datatype Repos = Repos(names: set<string>, ts: int)

  /** The result of reading `system.repositories`: the error flag and the object, if any. */
  datatype ReposRead = ReposRead(err: bool, repos: Option<Repos>)

  /** The host's answer to `getRepository`. */
  datatype Reply = PermissionError | Received

  /** main.js:462-469: the cached catalog of `active` can be used without asking the host. */
  predicate IsFresh(read: ReposRead, active: string, hours: int, now: int) {
    && !read.err
    && read.repos.Some?
    && active in read.repos.value.names
    && now < read.repos.value.ts + hours * OneHourMs
  }

  /** The delay armed after the host answered (main.js:490): one interval and one millisecond. */
  function FetchDelay(hours: int): (d: int)
    ensures hours > 0 ==> d > OneHourMs
    ensures hours <= 0 ==> d <= 1
  {
    hours * OneHourMs + 1
  }

  /** The delay armed when the cache is fresh (main.js:494): until one millisecond past the end of the window. */
  function FreshDelay(ts: int, hours: int, now: int): (d: int)
    requires now < ts + hours * OneHourMs
    ensures d >= 2
    ensures now + d == ts + hours * OneHourMs + 1
  {
    ts + hours * OneHourMs - now + 1
  }

  /**
   * The staleness boundary: one millisecond before the end of the window
   * the cache is fresh, at the end and after it is not.
   */
  lemma StalenessBoundary(names: set<string>, active: string, ts: int, hours: int, now: int)
    requires active in names
    ensures IsFresh(ReposRead(false, Some(Repos(names, ts))), active, hours, ts + hours * OneHourMs - 1)
    ensures now >= ts + hours * OneHourMs ==> !IsFresh(ReposRead(false, Some(Repos(names, ts))), active, hours, now)
  {
  }

  /** The longest delay the host's timers honour (a signed 32-bit millisecond count). */
  const MaxTimerDelay: int := 2147483647

  /**
   * How long the host's timers wait for a requested delay: a delay below 1
   * or above `MaxTimerDelay` is replaced by 1 millisecond.
   */
  function HostDelay(d: int): (e: int)
    ensures 1 <= e <= MaxTimerDelay
    ensures 1 <= d <= MaxTimerDelay ==> e == d
    ensures d < 1 || d > MaxTimerDelay ==> e == 1
  {
    if d < 1 || d > MaxTimerDelay then 1 else d
  }

  /**
   * The delay the model arms for a wanted delay `d`: `d` itself when the
   * host honours it, the longest honoured delay when `d` is longer. The
   * host then waits exactly the armed delay, never longer than wanted.
   */
  function CappedDelay(d: int): (e: int)
    ensures e <= d && e <= MaxTimerDelay
    ensures d <= MaxTimerDelay ==> e == d
    ensures d > MaxTimerDelay ==> e == MaxTimerDelay
    ensures d >= 1 ==> HostDelay(e) == e
  {
    if d > MaxTimerDelay then MaxTimerDelay else d
  }

  /**
   * The timer armed on a fresh cache fires when that cache has just become
   * stale; when the window ends later than the longest honoured delay, it
   * fires after that delay, with the cache still fresh unless the window
   * ends exactly then, and is re-armed.
   */
  lemma FreshTimerFiresWhenStale(read: ReposRead, active: string, hours: int, now: int)
    requires IsFresh(read, active, hours, now)
    ensures var d := FreshDelay(read.repos.value.ts, hours, now);
      var e := CappedDelay(d);
      && HostDelay(e) == e
      && (d <= MaxTimerDelay ==> e == d && !IsFresh(read, active, hours, now + e) && IsFresh(read, active, hours, now + e - 2))
      && (d > MaxTimerDelay ==> e == MaxTimerDelay && (IsFresh(read, active, hours, now + e) <==> d > MaxTimerDelay + 1))
  {
    var d := FreshDelay(read.repos.value.ts, hours, now);
    assert now + d == read.repos.value.ts + hours * OneHourMs + 1;
  }

  /**
   * The timer armed after a fetch is honoured by the host, and, when the
   * interval fits the host's timers, fires when the catalog the host just
   * stamped (at or before `now`) has become stale.
   */
  lemma FetchTimerFiresWhenStale(names: set<string>, active: string, ts: int, hours: nat, now: int)
    requires ts <= now
    ensures HostDelay(CappedDelay(FetchDelay(hours))) == CappedDelay(FetchDelay(hours))
    ensures FetchDelay(hours) <= MaxTimerDelay ==>
      !IsFresh(ReposRead(false, Some(Repos(names, ts))), active, hours, now + CappedDelay(FetchDelay(hours)))
  {
  }

  /**
   * As written, an interval of 597 hours or more asks the host for a delay
   * it does not honour, so the timer fires after 1 ms. The cache is then
   * fresh, and as long as more than `MaxTimerDelay` ms of the window remain,
   * the fresh delay is not honoured either: each check re-arms a 1 ms timer.
   * The capped delay waits the longest honoured delay instead.
   */
  lemma LongIntervalBusyLoops(names: set<string>, active: string, ts: int, hours: int, t: int)
    requires hours >= 597 && active in names
    requires ts <= t && t + MaxTimerDelay <= ts + hours * OneHourMs
    ensures HostDelay(FetchDelay(hours)) == 1
    ensures IsFresh(ReposRead(false, Some(Repos(names, ts))), active, hours, t)
    ensures HostDelay(FreshDelay(ts, hours, t)) == 1
    ensures CappedDelay(FreshDelay(ts, hours, t)) == MaxTimerDelay
    ensures CappedDelay(FetchDelay(hours)) == MaxTimerDelay
  {
    assert hours * OneHourMs >= 597 * OneHourMs;
  }

  /**
   * As written, the text setting `-5` is kept as a negative interval, which
   * is truthy, so the refresh cycle starts (main.js:403-405). A catalog
   * stamped in the past is never fresh, so every check fetches, and the
   * delay armed after it is below 1 ms, which the host runs after 1 ms.
   * With the corrected interval the cycle does not start.
   */
  lemma NegativeIntervalRefetchesAtOnce(names: set<string>, active: string, ts: int, now: int, user: Option<string>)
    requires ts <= now
    ensures var h := Settings.ParseAutoUpdate(Settings.Text("-5"));
      && h == -5 && h != 0
      && !IsFresh(ReposRead(false, Some(Repos(names, ts))), active, h, now)
      && FetchDelay(h) < 1
      && HostDelay(FetchDelay(h)) == 1
    ensures !Settings.Main(Settings.RawConfig(user, Settings.Text("-5"), false, false, false)).register
  {
    Settings.NegativeTextIsKept();
  }

  /**
   * The adapter's refresh state. `timerRepo` is `adapter.timerRepo`;
   * `pending` are the host's armed timers that have neither fired nor been
   * cleared, by handle, with their delays; `requests` are the repository
   * names asked of the host; `notifications` counts the `repoUpdated` pushes.
   */
  class RepoScheduler {
    const autoUpdate: nat
    var timerRepo: Option<nat>
    var pending: map<nat, int>
    var nextHandle: nat
    var requests: seq<string>
    var notifications: nat

    /** The only timer that can still fire is the one `timerRepo` holds. */
    ghost predicate Valid()
      reads this
    {
      && (forall h :: h in pending ==> timerRepo == Some(h))
      && (timerRepo.Some? ==> timerRepo.value < nextHandle)
    }

    constructor (autoUpdate: nat)
      ensures Valid() && this.autoUpdate == autoUpdate
      ensures timerRepo.None? && pending == map[] && requests == [] && notifications == 0
    {
      this.autoUpdate := autoUpdate;
      timerRepo, pending, nextHandle := None, map[], 0;
      requests, notifications := [], 0;
    }

    /** `timerRepo && clearInterval(timerRepo); timerRepo = setTimeout(…, delay)`. */
    method Arm(delay: int)
      requires Valid()
      modifies this
      ensures Valid()
      ensures timerRepo == Some(old(nextHandle)) && pending == map[old(nextHandle) := delay]
      ensures requests == old(requests) && notifications == old(notifications)
    {
      if timerRepo.Some? {
        pending := pending - {timerRepo.value};
      }
      assert pending == map[];
      pending := pending[nextHandle := delay];
      timerRepo := Some(nextHandle);
      nextHandle := nextHandle + 1;
    }

    /**
     * `updateRegister(isForce)` with the callbacks run in order, arming
     * capped delays (see `CappedDelay`). `active` is
     * `None` when `system.config` (or its `common` part) could not be read;
     * then nothing happens. `reply` is the host's answer, looked at only
     * when the host is asked.
     */
    method UpdateRegister(isForce: bool, active: Option<string>, read: ReposRead, now: int, reply: Reply)
      returns (fetched: bool)
      requires Valid()
      modifies this
      ensures Valid()
      ensures active.None? ==>
        !fetched && timerRepo == old(timerRepo) && pending == old(pending)
        && requests == old(requests) && notifications == old(notifications)
      ensures active.Some? ==> fetched == (!IsFresh(read, active.value, autoUpdate, now) || isForce)
      ensures fetched ==>
        && requests == old(requests) + [active.value]
        && notifications == old(notifications) + (if reply == Received then 1 else 0)
      ensures !fetched ==> requests == old(requests) && notifications == old(notifications)
      ensures autoUpdate == 0 ==> timerRepo == old(timerRepo) && pending == old(pending)
      ensures active.Some? && autoUpdate > 0 ==>
        && timerRepo == Some(old(nextHandle))
        && pending == map[old(nextHandle) :=
             if fetched then CappedDelay(FetchDelay(autoUpdate)) else CappedDelay(FreshDelay(read.repos.value.ts, autoUpdate, now))]
    {
      if active.None? {
        return false;
      }
      var cached := !read.err && read.repos.Some? && active.value in read.repos.value.names &&
        now < read.repos.value.ts + autoUpdate * OneHourMs;
      if !cached || isForce {
        fetched := true;
        requests := requests + [active.value];
        if reply == Received {
          notifications := notifications + 1;
        }
        if autoUpdate != 0 {
          Arm(CappedDelay(autoUpdate * OneHourMs + 1));
        }
      } else {
        fetched := false;
        if autoUpdate != 0 {
          Arm(CappedDelay(read.repos.value.ts + autoUpdate * OneHourMs - now + 1));
        }
      }
    }

    /** The armed timer fires: the host drops it and `updateRegister()` runs unforced. */
    method Tick(active: Option<string>, read: ReposRead, now: int, reply: Reply)
      returns (fetched: bool)
      requires Valid() && timerRepo.Some? && timerRepo.value in pending
      modifies this
      ensures Valid()
      ensures active.None? ==>
        !fetched && timerRepo == old(timerRepo) && pending == map[]
        && requests == old(requests) && notifications == old(notifications)
      ensures active.Some? ==> fetched == !IsFresh(read, active.value, autoUpdate, now)
      ensures fetched ==>
        && requests == old(requests) + [active.value]
        && notifications == old(notifications) + (if reply == Received then 1 else 0)
      ensures !fetched ==> requests == old(requests) && notifications == old(notifications)
      ensures autoUpdate == 0 ==> timerRepo == old(timerRepo) && pending == map[]
      ensures active.Some? && autoUpdate > 0 ==>
        && timerRepo == Some(old(nextHandle))
        && pending == map[old(nextHandle) :=
             if fetched then CappedDelay(FetchDelay(autoUpdate)) else CappedDelay(FreshDelay(read.repos.value.ts, autoUpdate, now))]
    {
      pending := pending - {timerRepo.value};
      assert pending == map[];
      fetched := UpdateRegister(false, active, read, now, reply);
    }
  }

  /** At most one timer of the adapter is armed at any time. */
  lemma AtMostOneTimer(s: RepoScheduler)
    requires s.Valid()
    ensures |s.pending| <= 1
    ensures s.pending != map[] ==> s.timerRepo.Some? && s.pending.Keys == {s.timerRepo.value}
  {
    if s.timerRepo.Some? && s.timerRepo.value in s.pending {
      assert s.pending.Keys == {s.timerRepo.value};
    } else {
      assert s.pending.Keys == {};
    }
  }
}
