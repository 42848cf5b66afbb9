/**
  services/worker/src/active-destination-jobs.ts: which destination jobs are running, and the
  per-user hold that is begun with a user's first job and released, after a delay, once the
  last one has settled.  A watchdog settles jobs whose completion event never arrives.

  `armed` is the event loop's set of pending timers; `Fire` is the event loop running one of
  them.  `log` records the calls to `beginUserRun` and `releaseUserRun`.
*/
module ActiveDestinationJobs {
  import opened Wrappers

  // Identifiers are only ever compared, so numbers stand for the strings.
  type CalendarId = nat
  type UserId = nat
  type TimerId = nat

  datatype Job = Job(calendarId: CalendarId, id: nat, userId: UserId)

  datatype Callback = ReleaseUser(userId: UserId) | Stalled(job: Job)

  datatype Event = Begin(user: UserId) | Release(user: UserId)

  // ---------------------------------------------------------------------------------------
  // The log of begin and release calls
  // ---------------------------------------------------------------------------------------

  /** The users whose latest call is a begin. */
  function HeldUsers(log: seq<Event>): set<UserId> {
    if log == [] then {}
    else
      var (earlier, last) := (HeldUsers(log[..|log| - 1]), log[|log| - 1]);
      if last.Begin? then earlier + {last.user} else earlier - {last.user}
  }

  /** Each user's calls go begin, release, begin, release, ... */
  predicate Alternates(log: seq<Event>) {
    log == [] || (var (earlier, last) := (log[..|log| - 1], log[|log| - 1]);
                  Alternates(earlier) && (last.Begin? <==> last.user !in HeldUsers(earlier)))
  }

  lemma Append(log: seq<Event>, e: Event)
    requires Alternates(log) && (e.Begin? <==> e.user !in HeldUsers(log))
    ensures Alternates(log + [e])
    ensures HeldUsers(log + [e]) == if e.Begin? then HeldUsers(log) + {e.user} else HeldUsers(log) - {e.user}
  {
    assert (log + [e])[..|log|] == log;
  }

  function Count(log: seq<Event>, e: Event): nat {
    if log == [] then 0 else Count(log[..|log| - 1], e) + if log[|log| - 1] == e then 1 else 0
  }

  /** Every user has begun exactly once more than it was released while held, and equally often otherwise. */
  lemma {:induction false} BeginsAndReleasesBalance(log: seq<Event>, u: UserId)
    requires Alternates(log)
    ensures Count(log, Begin(u)) == Count(log, Release(u)) + if u in HeldUsers(log) then 1 else 0
  {
    if log != [] {
      BeginsAndReleasesBalance(log[..|log| - 1], u);
    }
  }

  // ---------------------------------------------------------------------------------------
  // The callbacks
  // ---------------------------------------------------------------------------------------

  datatype Jobs = Jobs(
    active: map<CalendarId, Job>,
    counts: map<UserId, nat>,
    releases: map<UserId, TimerId>,
    watchdogs: map<CalendarId, TimerId>,
    armed: map<TimerId, Callback>,
    nextTimer: TimerId,
    log: seq<Event>,
    closed: bool)

  const NO_JOBS := Jobs(map[], map[], map[], map[], map[], 0, [], false)

  function CountOf(f: Jobs, u: UserId): nat {
    if u in f.counts then f.counts[u] else 0
  }

  function ClearWatchdog(f: Jobs, c: CalendarId): Jobs {
    if c in f.watchdogs then f.(armed := f.armed - {f.watchdogs[c]}, watchdogs := f.watchdogs - {c}) else f
  }

  function CancelRelease(f: Jobs, u: UserId): Jobs {
    if u in f.releases then f.(armed := f.armed - {f.releases[u]}, releases := f.releases - {u}) else f
  }

  function ArmWatchdog(f: Jobs, job: Job): Jobs {
    var g := ClearWatchdog(f, job.calendarId);
    g.(armed := g.armed[g.nextTimer := Stalled(job)],
       watchdogs := g.watchdogs[job.calendarId := g.nextTimer],
       nextTimer := g.nextTimer + 1)
  }

  function ArmRelease(f: Jobs, u: UserId): Jobs {
    f.(armed := f.armed[f.nextTimer := ReleaseUser(u)], releases := f.releases[u := f.nextTimer], nextTimer := f.nextTimer + 1)
  }

  predicate IsRunning(f: Jobs, job: Job) {
    job.calendarId in f.active && f.active[job.calendarId].id == job.id
  }

  /** Line 107: a newer run for a calendar whose job is still running. */
  function Replace(f: Jobs, job: Job): Jobs {
    f.(active := f.active[job.calendarId := job])
  }

  /** Lines 112-117: a calendar's first run; the user's run begins if nothing holds it. */
  function Start(f: Jobs, job: Job, aggregateWasHeld: bool): Jobs {
    f.(active := f.active[job.calendarId := job],
       counts := f.counts[job.userId := CountOf(f, job.userId) + 1],
       log := if CountOf(f, job.userId) == 0 && !aggregateWasHeld then f.log + [Begin(job.userId)] else f.log)
  }

  function OnActive(f: Jobs, job: Job): Jobs {
    var g := CancelRelease(f, job.userId);
    if IsRunning(f, job) then g
    else if job.calendarId in f.active then ArmWatchdog(Replace(g, job), job)
    else ArmWatchdog(Start(g, job, job.userId in f.releases), job)
  }

  function OnSettled(f: Jobs, job: Job): Jobs {
    if !IsRunning(f, job) then f
    else
      var g := ClearWatchdog(f, job.calendarId).(active := f.active - {job.calendarId});
      if CountOf(f, job.userId) > 1 then g.(counts := g.counts[job.userId := CountOf(f, job.userId) - 1])
      else ArmRelease(g.(counts := g.counts - {job.userId}), job.userId)
  }

  /** The event loop runs a timer: it is no longer pending, and its callback runs. */
  function Fire(f: Jobs, t: TimerId): Jobs
    requires t in f.armed
  {
    var g := f.(armed := f.armed - {t});
    match f.armed[t]
    case ReleaseUser(u) =>
      g.(releases := g.releases - {u}, log := if CountOf(f, u) == 0 then g.log + [Release(u)] else g.log)
    case Stalled(job) => OnSettled(g.(watchdogs := g.watchdogs - {job.calendarId}), job)
  }

  function ReleaseAll(users: seq<UserId>): seq<Event> {
    if users == [] then [] else ReleaseAll(users[..|users| - 1]) + [Release(users[|users| - 1])]
  }

  ghost predicate Lists(order: seq<UserId>, users: set<UserId>) {
    (forall u :: u in order <==> u in users) && forall i, j :: 0 <= i < j < |order| ==> order[i] != order[j]
  }

  /** `order` is the order in which the pending releases are visited. */
  function Close(f: Jobs, order: seq<UserId>): Jobs {
    f.(watchdogs := map[], releases := map[], armed := f.armed - f.watchdogs.Values - f.releases.Values,
       log := f.log + ReleaseAll(order), closed := true)
  }

  // ---------------------------------------------------------------------------------------
  // The invariant
  // ---------------------------------------------------------------------------------------

  ghost function Running(active: map<CalendarId, Job>, u: UserId): set<CalendarId> {
    set c | c in active && active[c].userId == u
  }

  /** A user's count is the number of its calendars with a running job. */
  ghost predicate CountRight(f: Jobs, u: UserId) {
    CountOf(f, u) == |Running(f.active, u)| && (u in f.counts ==> f.counts[u] > 0)
  }

  /** A user is held exactly when it has running jobs or a release pending, never both. */
  ghost predicate HoldsRight(f: Jobs) {
    Alternates(f.log) && f.counts.Keys !! f.releases.Keys && HeldUsers(f.log) == f.counts.Keys + f.releases.Keys
  }

  /** The pending timers are exactly those recorded, each armed for what it is recorded under. */
  ghost predicate TimersRight(f: Jobs) {
    && (forall u :: u in f.releases ==> f.releases[u] in f.armed && f.armed[f.releases[u]] == ReleaseUser(u))
    && (forall c :: c in f.watchdogs ==> f.watchdogs[c] in f.armed && f.armed[f.watchdogs[c]].Stalled?
                                         && f.armed[f.watchdogs[c]].job.calendarId == c)
    && (forall t :: t in f.armed ==>
          t < f.nextTimer
          && match f.armed[t]
             case ReleaseUser(u) => u in f.releases && f.releases[u] == t
             case Stalled(job) => job.calendarId in f.watchdogs && f.watchdogs[job.calendarId] == t)
  }

  /** Every watchdog is armed for the job that is running. */
  ghost predicate WatchdogsRight(f: Jobs) {
    && (forall c :: c in f.active ==> f.active[c].calendarId == c)
    && (forall c :: c in f.watchdogs && f.watchdogs[c] in f.armed ==> c in f.active && f.armed[f.watchdogs[c]] == Stalled(f.active[c]))
  }

  /** Before `close` every running job has exactly one watchdog. */
  ghost predicate Inv(f: Jobs) {
    && (forall u :: CountRight(f, u))
    && HoldsRight(f) && TimersRight(f) && WatchdogsRight(f)
    && (!f.closed ==> f.watchdogs.Keys == f.active.Keys)
  }

  // --- Counts -------------------------------------------------------------------------------

  lemma StartCount(f: Jobs, f': Jobs, job: Job, u: UserId)
    requires CountRight(f, u) && job.calendarId !in f.active
    requires f'.active == f.active[job.calendarId := job] && f'.counts == f.counts[job.userId := CountOf(f, job.userId) + 1]
    ensures CountRight(f', u)
  {
    if u == job.userId {
      assert Running(f'.active, u) == Running(f.active, u) + {job.calendarId};
    } else {
      assert Running(f'.active, u) == Running(f.active, u);
    }
  }

  lemma StopCount(f: Jobs, f': Jobs, c: CalendarId, u: UserId)
    requires CountRight(f, u) && c in f.active
    requires f'.active == f.active - {c}
    requires var user := f.active[c].userId;
             f'.counts == if CountOf(f, user) > 1 then f.counts[user := CountOf(f, user) - 1] else f.counts - {user}
    ensures CountRight(f', u)
    ensures u == f.active[c].userId ==> u in f.counts
  {
    if u == f.active[c].userId {
      assert c in Running(f.active, u);
      assert Running(f'.active, u) == Running(f.active, u) - {c};
    } else {
      assert Running(f'.active, u) == Running(f.active, u);
    }
  }

  lemma RunningUserIsCounted(f: Jobs, c: CalendarId)
    requires c in f.active && CountRight(f, f.active[c].userId)
    ensures f.active[c].userId in f.counts
  {
    assert c in Running(f.active, f.active[c].userId);
  }

  // --- Timers -------------------------------------------------------------------------------

  lemma ClearWatchdogTimers(f: Jobs, c: CalendarId)
    requires TimersRight(f)
    ensures TimersRight(ClearWatchdog(f, c)) && c !in ClearWatchdog(f, c).watchdogs
    ensures ClearWatchdog(f, c).watchdogs == f.watchdogs - {c}
    ensures forall x :: x in f.watchdogs && x != c ==>
              f.watchdogs[x] in ClearWatchdog(f, c).armed && ClearWatchdog(f, c).armed[f.watchdogs[x]] == f.armed[f.watchdogs[x]]
  {
  }

  lemma CancelReleaseTimers(f: Jobs, u: UserId)
    requires TimersRight(f)
    ensures TimersRight(CancelRelease(f, u))
    ensures CancelRelease(f, u).releases == f.releases - {u}
    ensures forall c :: c in f.watchdogs ==>
              f.watchdogs[c] in CancelRelease(f, u).armed && CancelRelease(f, u).armed[f.watchdogs[c]] == f.armed[f.watchdogs[c]]
  {
  }

  lemma ArmReleaseTimers(f: Jobs, u: UserId)
    requires TimersRight(f) && u !in f.releases
    ensures TimersRight(ArmRelease(f, u))
  {
  }

  lemma ArmWatchdogTimers(f: Jobs, job: Job)
    requires TimersRight(f)
    ensures TimersRight(ArmWatchdog(f, job))
    ensures var g := ArmWatchdog(f, job);
            && g.watchdogs.Keys == f.watchdogs.Keys + {job.calendarId}
            && g.armed[g.watchdogs[job.calendarId]] == Stalled(job)
            && forall x :: x in f.watchdogs && x != job.calendarId ==>
                 g.watchdogs[x] == f.watchdogs[x] && f.watchdogs[x] in g.armed && g.armed[f.watchdogs[x]] == f.armed[f.watchdogs[x]]
  {
    ClearWatchdogTimers(f, job.calendarId);
  }

  // --- Every callback keeps the invariant -------------------------------------------------------

  /** Each calendar belongs to one user, so a job for a running calendar names that user. */
  predicate SameOwner(f: Jobs, job: Job) {
    job.calendarId in f.active ==> f.active[job.calendarId].userId == job.userId
  }

  lemma ArmWatchdogFrame(f: Jobs, job: Job)
    ensures var g := ArmWatchdog(f, job);
            g.active == f.active && g.counts == f.counts && g.releases == f.releases && g.log == f.log && g.closed == f.closed
  {
  }

  lemma StartHolds(f: Jobs, job: Job)
    requires HoldsRight(f) && CountRight(f, job.userId)
    ensures var e := Start(f.(releases := f.releases - {job.userId}), job, job.userId in f.releases);
            && HoldsRight(e)
            && e.log == f.log + if job.userId in HeldUsers(f.log) then [] else [Begin(job.userId)]
  {
    var e := Start(f.(releases := f.releases - {job.userId}), job, job.userId in f.releases);
    if job.userId in HeldUsers(f.log) {
      assert e.log == f.log;
    } else {
      Append(f.log, Begin(job.userId));
    }
    assert e.counts.Keys == f.counts.Keys + {job.userId};
  }

  /** Arming the new job's watchdog makes the watchdogs match the running jobs again. */
  lemma ArmForNewJob(f: Jobs, e: Jobs, job: Job)
    requires TimersRight(f) && WatchdogsRight(f)
    requires e.active == f.active[job.calendarId := job]
    requires e.releases == f.releases && e.watchdogs == f.watchdogs && e.armed == f.armed && e.nextTimer == f.nextTimer
    ensures var g := ArmWatchdog(e, job);
            TimersRight(g) && WatchdogsRight(g) && g.watchdogs.Keys == f.watchdogs.Keys + {job.calendarId}
  {
    ArmWatchdogTimers(e, job);
    ArmWatchdogFrame(e, job);
  }

  lemma OnSettledCounts(f: Jobs, job: Job, u: UserId)
    requires CountRight(f, u) && SameOwner(f, job)
    ensures CountRight(OnSettled(f, job), u)
  {
    if IsRunning(f, job) {
      StopCount(f, OnSettled(f, job), job.calendarId, u);
    }
  }

  lemma OnSettledHolds(f: Jobs, job: Job)
    requires HoldsRight(f) && SameOwner(f, job) && forall u :: CountRight(f, u)
    ensures HoldsRight(OnSettled(f, job))
  {
    if IsRunning(f, job) {
      assert CountRight(f, job.userId);
      RunningUserIsCounted(f, job.calendarId);
    }
  }

  lemma OnSettledTimers(f: Jobs, job: Job)
    requires TimersRight(f) && WatchdogsRight(f) && (IsRunning(f, job) ==> job.userId !in f.releases)
    ensures TimersRight(OnSettled(f, job)) && WatchdogsRight(OnSettled(f, job))
    ensures var removed := if IsRunning(f, job) then {job.calendarId} else {};
            && OnSettled(f, job).watchdogs.Keys == f.watchdogs.Keys - removed
            && OnSettled(f, job).active.Keys == f.active.Keys - removed
  {
    if IsRunning(f, job) {
      ClearWatchdogTimers(f, job.calendarId);
      var g := ClearWatchdog(f, job.calendarId).(active := f.active - {job.calendarId});
      assert TimersRight(g) && WatchdogsRight(g);
      if CountOf(f, job.userId) <= 1 {
        ArmReleaseTimers(g.(counts := g.counts - {job.userId}), job.userId);
      }
    }
  }

  lemma CancelReleaseKeeps(f: Jobs, u: UserId)
    requires Inv(f)
    ensures var g := CancelRelease(f, u);
            && TimersRight(g) && WatchdogsRight(g)
            && g.active == f.active && g.counts == f.counts && g.log == f.log && g.watchdogs == f.watchdogs && g.closed == f.closed
            && g.releases == f.releases - {u}
  {
    CancelReleaseTimers(f, u);
  }

  lemma ReactivationChangesNothing(f: Jobs, job: Job)
    requires Inv(f) && SameOwner(f, job) && IsRunning(f, job)
    ensures OnActive(f, job) == f && job.userId in HeldUsers(f.log)
  {
    assert CountRight(f, job.userId);
    RunningUserIsCounted(f, job.calendarId);
  }

  lemma ReplacementKeepsInv(f: Jobs, job: Job)
    requires Inv(f) && SameOwner(f, job) && job.calendarId in f.active && !IsRunning(f, job)
    ensures Inv(OnActive(f, job)) && OnActive(f, job).log == f.log && job.userId in HeldUsers(f.log)
  {
    hide TimersRight, WatchdogsRight;
    assert CountRight(f, job.userId);
    RunningUserIsCounted(f, job.calendarId);
    var e := Replace(f, job);
    ArmForNewJob(f, e, job);
    ArmWatchdogFrame(e, job);
    var f' := ArmWatchdog(e, job);
    forall u
      ensures CountRight(f', u)
    {
      assert CountRight(f, u);
      assert Running(f'.active, u) == Running(f.active, u);
    }
  }

  lemma FirstRunKeepsInv(f: Jobs, job: Job)
    requires Inv(f) && job.calendarId !in f.active
    ensures Inv(OnActive(f, job))
    ensures OnActive(f, job).log == f.log + if job.userId in HeldUsers(f.log) then [] else [Begin(job.userId)]
  {
    hide TimersRight, WatchdogsRight, Running;
    var (g, held) := (CancelRelease(f, job.userId), job.userId in f.releases);
    var e := Start(g, job, held);
    CancelReleaseKeeps(f, job.userId);
    assert CountRight(f, job.userId);
    StartHolds(f, job);
    ArmForNewJob(g, e, job);
    ArmWatchdogFrame(e, job);
    var f' := ArmWatchdog(e, job);
    assert HoldsRight(f');
    forall u
      ensures CountRight(f', u)
    {
      assert CountRight(f, u);
      StartCount(f, f', job, u);
    }
  }

  /** `beginUserRun` is called exactly when the job's user is not held. */
  lemma OnActiveKeepsInv(f: Jobs, job: Job)
    requires Inv(f) && SameOwner(f, job)
    ensures Inv(OnActive(f, job))
    ensures OnActive(f, job).log == f.log + if job.userId in HeldUsers(f.log) then [] else [Begin(job.userId)]
  {
    if IsRunning(f, job) {
      ReactivationChangesNothing(f, job);
    } else if job.calendarId in f.active {
      ReplacementKeepsInv(f, job);
    } else {
      FirstRunKeepsInv(f, job);
    }
  }

  /** Whatever ran before on its calendar, the job is now the one that runs there. */
  lemma OnActiveRunsTheJob(f: Jobs, job: Job)
    requires Inv(f) && SameOwner(f, job)
    ensures OnActive(f, job).active == f.active[job.calendarId := job] && job.userId !in OnActive(f, job).releases
  {
    if IsRunning(f, job) {
      RunningJobIsRecorded(f, job);
      hide *;
      ReactivationChangesNothing(f, job);
      NoReleaseRunning(f, job);
    } else {
      hide Inv, ArmWatchdog;
      var g := CancelRelease(f, job.userId);
      ArmWatchdogFrame(Replace(g, job), job);
      ArmWatchdogFrame(Start(g, job, job.userId in f.releases), job);
    }
  }

  lemma RunningJobIsRecorded(f: Jobs, job: Job)
    requires WatchdogsRight(f) && SameOwner(f, job) && IsRunning(f, job)
    ensures f.active[job.calendarId] == job && f.active == f.active[job.calendarId := job]
  {
  }

  lemma NoReleaseRunning(f: Jobs, job: Job)
    requires Inv(f) && SameOwner(f, job) && IsRunning(f, job)
    ensures job.userId !in f.releases
  {
    assert CountRight(f, job.userId);
    RunningUserIsCounted(f, job.calendarId);
  }

  /**
    Settling calls nothing.  A job that is not the one running changes nothing; the one that runs
    stops, and if it was its user's last a release is pending, its timer armed, and the user still
    held until that timer fires.
  */
  lemma SettlingDefersRelease(f: Jobs, job: Job)
    requires Inv(f) && SameOwner(f, job)
    ensures var f' := OnSettled(f, job);
            && f'.log == f.log
            && (!IsRunning(f, job) ==> f' == f)
            && (IsRunning(f, job) ==> f'.active == f.active - {job.calendarId})
            && (IsRunning(f, job) && Running(f.active, job.userId) == {job.calendarId} ==>
                  && job.userId in f'.releases && f'.releases[job.userId] in f'.armed
                  && f'.armed[f'.releases[job.userId]] == ReleaseUser(job.userId) && job.userId in HeldUsers(f'.log))
            && (IsRunning(f, job) && Running(f.active, job.userId) != {job.calendarId} ==> f'.releases == f.releases)
  {
    if IsRunning(f, job) {
      assert CountRight(f, job.userId);
      RunningUserIsCounted(f, job.calendarId);
      assert job.calendarId in Running(f.active, job.userId);
      if CountOf(f, job.userId) == 1 {
        OnlyMember(Running(f.active, job.userId), job.calendarId);
      }
    }
  }

  lemma OnlyMember(s: set<CalendarId>, c: CalendarId)
    requires c in s && |s| == 1
    ensures s == {c}
  {
    assert |s - {c}| == 0;
  }

  /** The user whose job is running has no release pending. */
  lemma NoReleaseWhileRunning(f: Jobs, job: Job)
    requires HoldsRight(f) && CountRight(f, job.userId) && SameOwner(f, job) && IsRunning(f, job)
    ensures job.userId !in f.releases
  {
    RunningUserIsCounted(f, job.calendarId);
  }

  lemma OnSettledKeepsInv(f: Jobs, job: Job)
    requires Inv(f) && SameOwner(f, job)
    ensures Inv(OnSettled(f, job))
  {
    assert CountRight(f, job.userId);
    forall u
      ensures CountRight(OnSettled(f, job), u)
    {
      OnSettledCounts(f, job, u);
    }
    OnSettledHolds(f, job);
    if IsRunning(f, job) {
      NoReleaseWhileRunning(f, job);
    }
    OnSettledTimers(f, job);
  }

  /** A release that fires always releases: no job can have started since it was set. */
  lemma FireReleaseKeepsInv(f: Jobs, t: TimerId, u: UserId)
    requires Inv(f) && t in f.armed && f.armed[t] == ReleaseUser(u)
    ensures Inv(Fire(f, t)) && Fire(f, t).log == f.log + [Release(u)]
  {
    var f' := Fire(f, t);
    assert f' == CancelRelease(f, u).(log := f'.log);
    CancelReleaseTimers(f, u);
    Append(f.log, Release(u));
    forall v
      ensures CountRight(f', v)
    {
      assert CountRight(f, v);
    }
  }

  /** A watchdog that fires settles exactly the job it was armed for. */
  lemma FireWatchdogKeepsInv(f: Jobs, t: TimerId, job: Job)
    requires Inv(f) && t in f.armed && f.armed[t] == Stalled(job)
    ensures Inv(Fire(f, t))
    ensures job.calendarId in f.active && f.active[job.calendarId] == job && Fire(f, t).active == f.active - {job.calendarId}
  {
    var g := ClearWatchdog(f, job.calendarId);
    assert Fire(f, t) == OnSettled(g, job);
    ClearWatchdogTimers(f, job.calendarId);
    forall u
      ensures CountRight(g, u) && CountRight(OnSettled(g, job), u)
    {
      assert CountRight(f, u);
      OnSettledCounts(g, job, u);
    }
    NoReleaseWhileRunning(g, job);
    OnSettledHolds(g, job);
    OnSettledTimers(g, job);
  }

  lemma {:induction false} ReleaseAllHolds(log: seq<Event>, users: seq<UserId>)
    requires Alternates(log) && (forall u :: u in users ==> u in HeldUsers(log))
    requires forall i, j :: 0 <= i < j < |users| ==> users[i] != users[j]
    ensures Alternates(log + ReleaseAll(users))
    ensures HeldUsers(log + ReleaseAll(users)) == HeldUsers(log) - (set u | u in users)
  {
    if users == [] {
      assert log + ReleaseAll(users) == log;
    } else {
      var (init, last) := (users[..|users| - 1], users[|users| - 1]);
      ReleaseAllHolds(log, init);
      assert last !in init;
      Append(log + ReleaseAll(init), Release(last));
      assert log + ReleaseAll(users) == (log + ReleaseAll(init)) + [Release(last)];
    }
  }

  /** Closing fires every pending release, once, and leaves the users with running jobs held. */
  lemma CloseKeepsInv(f: Jobs, order: seq<UserId>)
    requires Inv(f) && Lists(order, f.releases.Keys)
    ensures Inv(Close(f, order)) && Close(f, order).armed == map[]
    ensures HeldUsers(Close(f, order).log) == f.counts.Keys
  {
    var f' := Close(f, order);
    ReleaseAllHolds(f.log, order);
    forall t | t in f.armed
      ensures t in f.watchdogs.Values || t in f.releases.Values
    {
      assert f.armed[t].ReleaseUser? ==> f.releases[f.armed[t].userId] == t;
      assert f.armed[t].Stalled? ==> f.watchdogs[f.armed[t].job.calendarId] == t;
    }
    assert f'.armed == map[];
    forall u
      ensures CountRight(f', u)
    {
      assert CountRight(f, u);
    }
  }

  // ---------------------------------------------------------------------------------------
  // Runs
  // ---------------------------------------------------------------------------------------

  datatype Step = Activate(job: Job) | Settle(job: Job) | RunTimer(timer: TimerId) | Shutdown(order: seq<UserId>)

  ghost predicate Enabled(f: Jobs, step: Step) {
    match step
    case Activate(job) => SameOwner(f, job)
    case Settle(job) => SameOwner(f, job)
    case RunTimer(t) => t in f.armed
    case Shutdown(order) => Lists(order, f.releases.Keys)
  }

  function Next(f: Jobs, step: Step): Jobs
    requires Enabled(f, step)
  {
    match step
    case Activate(job) => OnActive(f, job)
    case Settle(job) => OnSettled(f, job)
    case RunTimer(t) => Fire(f, t)
    case Shutdown(order) => Close(f, order)
  }

  ghost predicate IsRun(states: seq<Jobs>, steps: seq<Step>) {
    && |states| == |steps| + 1 && states[0] == NO_JOBS
    && forall i :: 0 <= i < |steps| ==> Enabled(states[i], steps[i]) && states[i + 1] == Next(states[i], steps[i])
  }

  /**
    Run holds balance in every reachable state: each user's begin and release calls alternate; a
    user is held exactly when a job of its runs or its release is pending, never both; counts are
    right; and before `close` each running job has exactly one watchdog, armed for that job.
  */
  lemma {:induction false} RunHoldsBalance(states: seq<Jobs>, steps: seq<Step>, i: nat)
    requires IsRun(states, steps) && i < |states|
    ensures Inv(states[i])
  {
    if i == 0 {
      assert forall u :: Running(NO_JOBS.active, u) == {};
    } else {
      var (f, step) := (states[i - 1], steps[i - 1]);
      RunHoldsBalance(states, steps, i - 1);
      match step
      case Activate(job) => OnActiveKeepsInv(f, job);
      case Settle(job) => OnSettledKeepsInv(f, job);
      case RunTimer(t) =>
        match f.armed[t] {
          case ReleaseUser(u) => FireReleaseKeepsInv(f, t, u);
          case Stalled(job) => FireWatchdogKeepsInv(f, t, job);
        }
      case Shutdown(order) => CloseKeepsInv(f, order);
    }
  }

  /** The same, spelled out for one user. */
  lemma HeldExactlyWhile(states: seq<Jobs>, steps: seq<Step>, i: nat, u: UserId)
    requires IsRun(states, steps) && i < |states|
    ensures var f := states[i];
            && (u in HeldUsers(f.log) <==> Running(f.active, u) != {} || u in f.releases)
            && (Running(f.active, u) == {} || u !in f.releases)
            && CountOf(f, u) == |Running(f.active, u)|
            && Count(f.log, Begin(u)) == Count(f.log, Release(u)) + if u in HeldUsers(f.log) then 1 else 0
  {
    RunHoldsBalance(states, steps, i);
    assert CountRight(states[i], u);
    BeginsAndReleasesBalance(states[i].log, u);
  }

  // ---------------------------------------------------------------------------------------
  // The object that `createActiveDestinationJobs` returns
  // ---------------------------------------------------------------------------------------

  class Tracker {
    var active: map<CalendarId, Job>
    var counts: map<UserId, nat>
    var releases: map<UserId, TimerId>
    var watchdogs: map<CalendarId, TimerId>
    var armed: map<TimerId, Callback>
    var nextTimer: TimerId
    var log: seq<Event>
    var closed: bool

    function View(): Jobs
      reads this
    {
      Jobs(active, counts, releases, watchdogs, armed, nextTimer, log, closed)
    }

    constructor ()
      ensures View() == NO_JOBS
    {
      active, counts, releases, watchdogs, armed := map[], map[], map[], map[], map[];
      nextTimer, log, closed := 0, [], false;
    }

    method DropWatchdog(c: CalendarId)
      modifies this`armed, this`watchdogs
      ensures View() == ClearWatchdog(old(View()), c)
    {
      if c !in watchdogs {
        return;
      }
      armed := armed - {watchdogs[c]};
      watchdogs := watchdogs - {c};
    }

    method CancelPendingRelease(u: UserId) returns (wasHeld: bool)
      modifies this`armed, this`releases
      ensures View() == CancelRelease(old(View()), u) && wasHeld == (u in old(releases))
    {
      if u !in releases {
        return false;
      }
      armed := armed - {releases[u]};
      releases := releases - {u};
      return true;
    }

    method SetWatchdog(job: Job)
      modifies this`armed, this`watchdogs, this`nextTimer
      ensures View() == ArmWatchdog(old(View()), job)
    {
      DropWatchdog(job.calendarId);
      armed := armed[nextTimer := Stalled(job)];
      watchdogs := watchdogs[job.calendarId := nextTimer];
      nextTimer := nextTimer + 1;
    }

    method JobActive(job: Job)
      modifies this
      ensures View() == OnActive(old(View()), job)
    {
      var aggregateWasHeld := CancelPendingRelease(job.userId);
      if job.calendarId in active {
        if active[job.calendarId].id == job.id {
          return;
        }
        active := active[job.calendarId := job];
        SetWatchdog(job);
        return;
      }
      var activeCount := if job.userId in counts then counts[job.userId] else 0;
      if activeCount == 0 && !aggregateWasHeld {
        log := log + [Begin(job.userId)];
      }
      counts := counts[job.userId := activeCount + 1];
      active := active[job.calendarId := job];
      SetWatchdog(job);
    }

    method JobSettled(job: Job)
      modifies this
      ensures View() == OnSettled(old(View()), job)
    {
      if job.calendarId !in active || active[job.calendarId].id != job.id {
        return;
      }
      DropWatchdog(job.calendarId);
      active := active - {job.calendarId};
      var activeCount := if job.userId in counts then counts[job.userId] else 0;
      var remaining := if activeCount > 1 then activeCount - 1 else 0;
      if remaining > 0 {
        counts := counts[job.userId := remaining];
        return;
      }
      counts := counts - {job.userId};
      armed := armed[nextTimer := ReleaseUser(job.userId)];
      releases := releases[job.userId := nextTimer];
      nextTimer := nextTimer + 1;
    }

    method TimerFires(t: TimerId)
      requires t in armed
      modifies this
      ensures View() == Fire(old(View()), t)
    {
      var callback := armed[t];
      armed := armed - {t};
      match callback
      case ReleaseUser(u) =>
        releases := releases - {u};
        var count := if u in counts then counts[u] else 0;
        if count == 0 {
          log := log + [Release(u)];
        }
      case Stalled(job) =>
        watchdogs := watchdogs - {job.calendarId};
        JobSettled(job);
    }

    method DropWatchdogs()
      modifies this`armed, this`watchdogs
      ensures armed == old(armed) - old(watchdogs).Values && watchdogs == map[]
    {
      var stalled := watchdogs.Keys;
      while stalled != {}
        invariant stalled <= watchdogs.Keys
        invariant armed == old(armed) - (set c | c in watchdogs && c !in stalled :: watchdogs[c])
        modifies this`armed
      {
        var c :| c in stalled;
        armed := armed - {watchdogs[c]};
        stalled := stalled - {c};
      }
      assert armed == old(armed) - watchdogs.Values;
      watchdogs := map[];
    }

    method FireReleases() returns (ghost order: seq<UserId>)
      modifies this`armed, this`releases, this`log
      ensures armed == old(armed) - old(releases).Values && releases == map[]
      ensures Lists(order, old(releases).Keys) && log == old(log) + ReleaseAll(order)
    {
      order := [];
      var users := releases.Keys;
      while users != {}
        invariant users <= releases.Keys && Lists(order, releases.Keys - users)
        invariant armed == old(armed) - (set u | u in releases && u !in users :: releases[u])
        invariant log == old(log) + ReleaseAll(order)
        modifies this`armed, this`log
      {
        var u :| u in users;
        armed := armed - {releases[u]};
        log := log + [Release(u)];
        assert (order + [u])[..|order|] == order;
        order := order + [u];
        users := users - {u};
      }
      assert armed == old(armed) - releases.Values;
      releases := map[];
    }

    method CloseAll() returns (ghost order: seq<UserId>)
      modifies this
      ensures Lists(order, old(releases).Keys)
      ensures View() == Close(old(View()), order)
    {
      DropWatchdogs();
      order := FireReleases();
      closed := true;
    }
  }
}
