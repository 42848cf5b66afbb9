/**
  The Redis sync lock of packages/sync/src/sync-lock.ts.

  For every calendar Redis holds three keys: the lock, the signal (the waiter that is next in
  line) and the waiter stack.  They change only through atomic scripts.  The first half of this
  module gives each script as a function from the keys before to the keys after, together with
  the class `CalendarKeys` that runs the script line by line.  The second half is the protocol:
  any number of callers of `acquire`, each with a program counter, interleaving at every Redis
  call, with the clock and key expiry as further steps.
*/
module SyncLock {
  import opened Wrappers

  type CalendarId = string
  type HolderId = string

  const BACKGROUND_HOLDER_PREFIX: string := "background:"
  const PREEMPTING_HOLDER_PREFIX: string := "preempting:"
  const LOCK_TTL_MS: nat := 120_000
  const SIGNAL_TTL_MS: nat := 570_000

  datatype Acquisition = Background | Preempting

  function HolderPrefix(acquisition: Acquisition): string {
    match acquisition
    case Background => BACKGROUND_HOLDER_PREFIX
    case Preempting => PREEMPTING_HOLDER_PREFIX
  }

  /** The class of a holder rides in its id; an id with no known prefix counts as preempting. */
  predicate IsBackground(h: HolderId) {
    BACKGROUND_HOLDER_PREFIX <= h
  }

  // ---------------------------------------------------------------------------------------
  // The keys of one calendar and the six scripts
  // ---------------------------------------------------------------------------------------

  datatype Lease = Lease(holder: HolderId, expiresAt: nat)

  /** An empty list does not exist in Redis, so `waitersExpireAt` matters only when `waiters != []`. */
  datatype Keys = Keys(lock: Option<Lease>, signal: Option<Lease>, waiters: seq<HolderId>, waitersExpireAt: nat)

  const NO_KEYS := Keys(None, None, [], 0)

  datatype AcquireReply = Acquired | Blocked | Queued | Replaced

  predicate HeldBy(key: Option<Lease>, h: HolderId) {
    key.Some? && key.value.holder == h
  }

  /** LREM key 0 h */
  function Without(s: seq<HolderId>, h: HolderId): (r: seq<HolderId>)
    ensures h !in r
    ensures forall x :: x in r <==> x in s && x != h
    ensures |r| <= |s|
  {
    if s == [] then []
    else if s[0] == h then Without(s[1..], h)
    else [s[0]] + Without(s[1..], h)
  }

  function AcquireOrSignal(k: Keys, h: HolderId, now: nat, blocked: bool): (Keys, AcquireReply) {
    if blocked then (k, Blocked)
    else
      var expiry := now + SIGNAL_TTL_MS;
      var queued := k.(signal := Some(Lease(h, expiry)), waiters := [h] + Without(k.waiters, h), waitersExpireAt := expiry);
      if k.lock.None? then (queued.(lock := Some(Lease(h, now + LOCK_TTL_MS))), Acquired)
      else (queued, if k.signal.Some? then Replaced else Queued)
  }

  function ReleaseLock(k: Keys, h: HolderId): Keys {
    if HeldBy(k.lock, h) then k.(lock := None) else k
  }

  function RenewLock(k: Keys, h: HolderId, now: nat): Keys {
    if HeldBy(k.lock, h) then k.(lock := Some(Lease(h, now + LOCK_TTL_MS))) else k
  }

  function CancelWaiter(k: Keys, h: HolderId, now: nat): Keys {
    var rest := Without(k.waiters, h);
    var lock := if HeldBy(k.lock, h) then None else k.lock;
    if rest == [] then Keys(lock, None, [], 0)
    else Keys(lock, Some(Lease(rest[0], now + SIGNAL_TTL_MS)), rest, now + SIGNAL_TTL_MS)
  }

  predicate CanConfirm(k: Keys, h: HolderId) {
    HeldBy(k.lock, h) && HeldBy(k.signal, h) && k.waiters != [] && k.waiters[0] == h
  }

  function ConfirmAcquisition(k: Keys, h: HolderId): Keys {
    if CanConfirm(k, h) then Keys(k.lock, None, [], 0) else k
  }

  /** What `isCurrent` is meant to say: h holds the lock and nobody who may preempt it waits. */
  predicate IsCurrent(k: Keys, h: HolderId) {
    HeldBy(k.lock, h) && forall w :: w in k.waiters && w != h ==> IsBackground(w)
  }

  /** Redis drops a key once its time to live has run out. */
  function ExpireKeys(k: Keys, now: nat): Keys {
    var dead := k.waiters != [] && k.waitersExpireAt <= now;
    Keys(
      if k.lock.Some? && k.lock.value.expiresAt <= now then None else k.lock,
      if k.signal.Some? && k.signal.value.expiresAt <= now then None else k.signal,
      if dead then [] else k.waiters,
      if dead then 0 else k.waitersExpireAt)
  }

  /** The scripts as they run, command by command, on one calendar's keys. */
  class CalendarKeys {
    var lock: Option<Lease>
    var signal: Option<Lease>
    var waiters: seq<HolderId>
    var waitersExpireAt: nat

    function View(): Keys
      reads this
    {
      Keys(lock, signal, waiters, waitersExpireAt)
    }

    constructor ()
      ensures View() == NO_KEYS
    {
      lock, signal, waiters, waitersExpireAt := None, None, [], 0;
    }

    method RemoveWaiter(h: HolderId)
      modifies this`waiters
      ensures waiters == Without(old(waiters), h)
    {
      var kept: seq<HolderId> := [];
      var i := 0;
      while i < |waiters|
        invariant 0 <= i <= |waiters| && waiters == old(waiters)
        invariant kept + Without(waiters[i..], h) == Without(waiters, h)
      {
        if waiters[i] != h {
          kept := kept + [waiters[i]];
        }
        i := i + 1;
      }
      waiters := kept;
    }

    method RunAcquireOrSignal(h: HolderId, now: nat, checkBlocker: bool, blockerLockExists: bool) returns (reply: AcquireReply)
      modifies this
      ensures (View(), reply) == AcquireOrSignal(old(View()), h, now, checkBlocker && blockerLockExists)
      ensures reply.Blocked? <==> checkBlocker && blockerLockExists
      ensures reply.Blocked? ==> View() == old(View())
      ensures !reply.Blocked? ==> waiters[0] == h && waitersExpireAt == now + 570_000 && signal == Some(Lease(h, now + 570_000))
      ensures reply.Acquired? <==> !reply.Blocked? && old(lock).None?
      ensures lock == if reply.Acquired? then Some(Lease(h, now + 120_000)) else old(lock)
      ensures reply.Replaced? <==> !reply.Blocked? && old(lock).Some? && old(signal).Some?
    {
      if checkBlocker && blockerLockExists {
        return Blocked;
      }
      var held, existing := lock, signal;
      RemoveWaiter(h);
      waiters := [h] + waiters;
      waitersExpireAt := now + SIGNAL_TTL_MS;
      signal := Some(Lease(h, now + SIGNAL_TTL_MS));
      if held.None? {
        lock := Some(Lease(h, now + LOCK_TTL_MS));
        return Acquired;
      }
      if existing.Some? {
        return Replaced;
      }
      return Queued;
    }

    method RunRelease(h: HolderId) returns (released: bool)
      modifies this
      ensures View() == ReleaseLock(old(View()), h)
      ensures lock == if released then None else old(lock)
      ensures released <==> HeldBy(old(lock), h)
    {
      released := lock.Some? && lock.value.holder == h;
      if released {
        lock := None;
      }
    }

    method RunRenew(h: HolderId, now: nat) returns (renewed: bool)
      modifies this
      ensures View() == RenewLock(old(View()), h, now)
      ensures lock == if renewed then Some(Lease(h, now + 120_000)) else old(lock)
      ensures renewed <==> HeldBy(old(lock), h)
    {
      renewed := lock.Some? && lock.value.holder == h;
      if renewed {
        lock := Some(lock.value.(expiresAt := now + LOCK_TTL_MS));
      }
    }

    method RunCancelWaiter(h: HolderId, now: nat) returns (promoted: Option<HolderId>)
      modifies this
      ensures View() == CancelWaiter(old(View()), h, now)
      ensures promoted == if waiters == [] then None else Some(waiters[0])
      ensures h !in waiters && signal == if waiters == [] then None else Some(Lease(waiters[0], now + 570_000))
      ensures lock == if HeldBy(old(lock), h) then None else old(lock)
    {
      if lock.Some? && lock.value.holder == h {
        lock := None;
      }
      RemoveWaiter(h);
      if waiters != [] {
        signal := Some(Lease(waiters[0], now + SIGNAL_TTL_MS));
        waitersExpireAt := now + SIGNAL_TTL_MS;
        return Some(waiters[0]);
      }
      signal := None;
      waitersExpireAt := 0;
      return None;
    }

    method RunConfirm(h: HolderId) returns (confirmed: bool)
      modifies this
      ensures View() == ConfirmAcquisition(old(View()), h)
      ensures confirmed <==> HeldBy(old(lock), h) && HeldBy(old(signal), h) && old(waiters) != [] && old(waiters)[0] == h
      ensures lock == old(lock) && (confirmed ==> signal.None? && waiters == [])
    {
      confirmed := lock.Some? && lock.value.holder == h && signal.Some? && signal.value.holder == h
      && |waiters| > 0 && waiters[0] == h;
      if confirmed {
        signal, waiters, waitersExpireAt := None, [], 0;
      }
    }

    method RunIsCurrent(h: HolderId) returns (current: bool)
      ensures current <==> IsCurrent(View(), h)
    {
      if lock.None? || lock.value.holder != h {
        return false;
      }
      var i := 0;
      while i < |waiters|
        invariant 0 <= i <= |waiters|
        invariant forall j :: 0 <= j < i && waiters[j] != h ==> IsBackground(waiters[j])
      {
        if waiters[i] != h && !(BACKGROUND_HOLDER_PREFIX <= waiters[i]) {
          assert waiters[i] in View().waiters;
          return false;
        }
        i := i + 1;
      }
      return true;
    }
  }

  // ---------------------------------------------------------------------------------------
  // The protocol
  // ---------------------------------------------------------------------------------------

  /**
    Where a caller of `acquire` stands; each value names the Redis call or test it does next.
    `first` is true on the path that never entered the polling loop (lines 333-335), where a
    failed confirmation returns after one cancel instead of also running the `finally` cancel.
  */
  datatype Pc =
    | SendAcquire(first: bool)
    | CheckAbort(first: bool)
    | SendConfirm(first: bool)
    | SendCancel(first: bool)
    | LoopTop(blocked: bool)
    | ReadSignal
    | ReadLock(blocked: bool)
    | FinalCancel
    | Holding
    | Released
    | NotAcquired

  /** `stamp` numbers the caller's latest queueing run of the acquire script; no code reads it. */
  datatype Client = Client(calendar: CalendarId, blocker: Option<CalendarId>, aborted: bool, pc: Pc, stamp: nat)

  datatype State = State(now: nat, keys: map<CalendarId, Keys>, clients: map<HolderId, Client>, actions: nat)

  datatype Step =
    | Call(h: HolderId, calendar: CalendarId, blocker: Option<CalendarId>, aborted: bool)
    | Abort(h: HolderId)
    | Advance(h: HolderId, timedOut: bool)
    | Renew(h: HolderId)
    | Release(h: HolderId)
    | Tick(elapsed: nat)

  function KeysOf(s: State, calendar: CalendarId): Keys {
    if calendar in s.keys then s.keys[calendar] else NO_KEYS
  }

  predicate IsBlocked(s: State, c: Client) {
    c.blocker.Some? && c.blocker.value != "" && KeysOf(s, c.blocker.value).lock.Some?
  }

  predicate Finished(pc: Pc) {
    pc.Holding? || pc.Released? || pc.NotAcquired?
  }

  predicate Enabled(s: State, step: Step) {
    match step
    case Call(h, _, _, _) => h !in s.clients
    case Abort(h) => h in s.clients
    case Advance(h, _) => h in s.clients && !Finished(s.clients[h].pc)
    case Renew(h) => h in s.clients && (s.clients[h].pc.Holding? || s.clients[h].pc.Released?)
    case Release(h) => h in s.clients && (s.clients[h].pc.Holding? || s.clients[h].pc.Released?)
    case Tick(_) => true
  }

  /** The keys of the caller's own calendar and the caller itself, after its next atomic action. */
  function Act(s: State, h: HolderId, c: Client, timedOut: bool): (Keys, Client)
    requires !Finished(c.pc)
  {
    var k := KeysOf(s, c.calendar);
    match c.pc
    case SendAcquire(first) =>
      var (k', reply) := AcquireOrSignal(k, h, s.now, IsBlocked(s, c));
      (k', c.(pc := if reply.Acquired? then CheckAbort(first) else LoopTop(reply.Blocked?),
              stamp := if reply.Blocked? then c.stamp else s.actions + 1))
    case CheckAbort(first) => (k, c.(pc := if c.aborted then SendCancel(first) else SendConfirm(first)))
    case SendConfirm(first) =>
      (ConfirmAcquisition(k, h), c.(pc := if CanConfirm(k, h) then Holding else SendCancel(first)))
    case SendCancel(first) => (CancelWaiter(k, h, s.now), c.(pc := if first then NotAcquired else FinalCancel))
    case LoopTop(blocked) =>
      (k, c.(pc := if timedOut || c.aborted then FinalCancel else if blocked then ReadLock(true) else ReadSignal))
    case ReadSignal =>
      (k, c.(pc := if k.signal.None? then FinalCancel
                   else if k.signal.value.holder != h then LoopTop(false)
                   else ReadLock(false)))
    case ReadLock(blocked) =>
      (k, c.(pc := if blocked || k.lock.None? then SendAcquire(false) else LoopTop(blocked)))
    case FinalCancel => (CancelWaiter(k, h, s.now), c.(pc := NotAcquired))
  }

  function Update(s: State, h: HolderId, k: Keys, c: Client, actions: nat): State {
    State(s.now, s.keys[c.calendar := k], s.clients[h := c], actions)
  }

  function Next(s: State, step: Step): State
    requires Enabled(s, step)
  {
    match step
    case Call(h, calendar, blocker, aborted) =>
      var pc := if aborted then NotAcquired else SendAcquire(true);
      s.(clients := s.clients[h := Client(calendar, blocker, aborted, pc, 0)])
    case Abort(h) => s.(clients := s.clients[h := s.clients[h].(aborted := true)])
    case Advance(h, timedOut) =>
      var (k, c) := Act(s, h, s.clients[h], timedOut);
      Update(s, h, k, c, s.actions + 1)
    case Renew(h) =>
      var c := s.clients[h];
      Update(s, h, RenewLock(KeysOf(s, c.calendar), h, s.now), c, s.actions)
    case Release(h) =>
      var c := s.clients[h];
      Update(s, h, ReleaseLock(KeysOf(s, c.calendar), h), c.(pc := Released), s.actions)
    case Tick(elapsed) =>
      s.(now := s.now + elapsed, keys := map calendar | calendar in s.keys :: ExpireKeys(s.keys[calendar], s.now + elapsed))
  }

  const INITIAL := State(0, map[], map[], 0)

  // ---------------------------------------------------------------------------------------
  // The invariant
  // ---------------------------------------------------------------------------------------

  /** A caller may still be in the waiter stack only here. */
  predicate MayWait(pc: Pc) {
    !Finished(pc) && pc != SendAcquire(true)
  }

  /** A caller may own the lock only between the acquiring script and its cancel or release. */
  predicate MayHold(pc: Pc) {
    pc.CheckAbort? || pc.SendConfirm? || pc.SendCancel? || pc.Holding?
  }

  function Stamp(clients: map<HolderId, Client>, h: HolderId): nat {
    if h in clients then clients[h].stamp else 0
  }

  ghost predicate NewestFirst(s: seq<HolderId>, clients: map<HolderId, Client>) {
    forall i, j :: 0 <= i < j < |s| ==> Stamp(clients, s[j]) < Stamp(clients, s[i])
  }

  ghost predicate KeysInv(k: Keys, calendar: CalendarId, clients: map<HolderId, Client>, actions: nat) {
    && k.signal == (if k.waiters == [] then None else Some(Lease(k.waiters[0], k.waitersExpireAt)))
    && (forall w :: w in k.waiters ==>
          w in clients && clients[w].calendar == calendar && MayWait(clients[w].pc) && clients[w].stamp <= actions)
    && NewestFirst(k.waiters, clients)
    && (k.lock.Some? ==>
          && k.lock.value.holder in clients
          && clients[k.lock.value.holder].calendar == calendar
          && MayHold(clients[k.lock.value.holder].pc))
  }

  ghost predicate Inv(s: State) {
    forall calendar :: calendar in s.keys ==> KeysInv(s.keys[calendar], calendar, s.clients, s.actions)
  }

  lemma {:induction false} WithoutKeepsOrder(s: seq<HolderId>, h: HolderId, clients: map<HolderId, Client>)
    requires NewestFirst(s, clients)
    ensures NewestFirst(Without(s, h), clients)
  {
    if s != [] {
      var rest := s[1..];
      assert NewestFirst(rest, clients);
      WithoutKeepsOrder(rest, h, clients);
      var tail := Without(rest, h);
      forall j | 0 <= j < |tail|
        ensures Stamp(clients, tail[j]) < Stamp(clients, s[0])
      {
        assert tail[j] in rest;
        var i :| 0 <= i < |rest| && rest[i] == tail[j];
        assert s[i + 1] == tail[j];
      }
      assert s[0] != h ==> Without(s, h) == [s[0]] + tail;
    }
  }

  lemma NewestFirstFrame(s: seq<HolderId>, clients: map<HolderId, Client>, h: HolderId, c: Client)
    requires NewestFirst(s, clients) && h !in s
    ensures NewestFirst(s, clients[h := c])
  {
    assert forall i :: 0 <= i < |s| ==> s[i] in s && Stamp(clients[h := c], s[i]) == Stamp(clients, s[i]);
  }

  lemma PushKeepsOrder(s: seq<HolderId>, clients: map<HolderId, Client>, h: HolderId)
    requires NewestFirst(s, clients)
    requires forall w :: w in s ==> Stamp(clients, w) < Stamp(clients, h)
    ensures NewestFirst([h] + s, clients)
  {
    var t := [h] + s;
    forall i, j | 0 <= i < j < |t|
      ensures Stamp(clients, t[j]) < Stamp(clients, t[i])
    {
      assert t[j] == s[j - 1] && s[j - 1] in s;
    }
  }

  /** Keys stay consistent when one caller changes in ways they do not record. */
  lemma KeysInvFrame(k: Keys, calendar: CalendarId, clients: map<HolderId, Client>, actions: nat, h: HolderId, c: Client, actions': nat)
    requires KeysInv(k, calendar, clients, actions) && actions <= actions'
    requires h in k.waiters ==> c.calendar == calendar && MayWait(c.pc) && c.stamp == clients[h].stamp
    requires HeldBy(k.lock, h) ==> c.calendar == calendar && MayHold(c.pc)
    ensures KeysInv(k, calendar, clients[h := c], actions')
  {
  }

  lemma AcquireKeepsInv(k: Keys, calendar: CalendarId, clients: map<HolderId, Client>, actions: nat, h: HolderId, c: Client, now: nat)
    requires KeysInv(k, calendar, clients, actions) && !HeldBy(k.lock, h)
    requires c.calendar == calendar && c.stamp == actions + 1 && MayWait(c.pc)
    requires AcquireOrSignal(k, h, now, false).1.Acquired? ==> MayHold(c.pc)
    ensures KeysInv(AcquireOrSignal(k, h, now, false).0, calendar, clients[h := c], actions + 1)
  {
    var rest := Without(k.waiters, h);
    WithoutKeepsOrder(k.waiters, h, clients);
    NewestFirstFrame(rest, clients, h, c);
    PushKeepsOrder(rest, clients[h := c], h);
  }

  lemma CancelKeepsInv(k: Keys, calendar: CalendarId, clients: map<HolderId, Client>, actions: nat, h: HolderId, c: Client, now: nat)
    requires KeysInv(k, calendar, clients, actions)
    ensures KeysInv(CancelWaiter(k, h, now), calendar, clients[h := c], actions + 1)
  {
    var rest := Without(k.waiters, h);
    WithoutKeepsOrder(k.waiters, h, clients);
    NewestFirstFrame(rest, clients, h, c);
  }

  /** The keys of the acting caller's own calendar. */
  lemma ActKeepsInv(s: State, h: HolderId, timedOut: bool)
    requires Inv(s) && h in s.clients && !Finished(s.clients[h].pc)
    ensures var c := s.clients[h];
            var (k', c') := Act(s, h, c, timedOut);
            c'.calendar == c.calendar && KeysInv(k', c.calendar, s.clients[h := c'], s.actions + 1)
  {
    var c := s.clients[h];
    var k := KeysOf(s, c.calendar);
    var (k', c') := Act(s, h, c, timedOut);
    assert KeysInv(k, c.calendar, s.clients, s.actions);
    if c.pc.SendAcquire? && !IsBlocked(s, c) {
      AcquireKeepsInv(k, c.calendar, s.clients, s.actions, h, c', s.now);
    } else if c.pc.SendCancel? || c.pc.FinalCancel? {
      CancelKeepsInv(k, c.calendar, s.clients, s.actions, h, c', s.now);
    } else if c.pc.SendConfirm? && CanConfirm(k, h) {
    } else {
      KeysInvFrame(k, c.calendar, s.clients, s.actions, h, c', s.actions + 1);
    }
  }

  lemma NextKeepsInv(s: State, step: Step)
    requires Inv(s) && Enabled(s, step)
    ensures Inv(Next(s, step))
  {
    hide Act;
    var s' := Next(s, step);
    if !step.Tick? {
      var h := step.h;
      var c' := s'.clients[h];
      if step.Advance? {
        ActKeepsInv(s, h, step.timedOut);
      }
      forall calendar | calendar in s'.keys
        ensures KeysInv(s'.keys[calendar], calendar, s'.clients, s'.actions)
      {
        var k := KeysOf(s, calendar);
        assert KeysInv(k, calendar, s.clients, s.actions);
        if step.Advance? && calendar == c'.calendar {
        } else {
          KeysInvFrame(s'.keys[calendar], calendar, s.clients, s.actions, h, c', s'.actions);
        }
      }
    }
  }

  // ---------------------------------------------------------------------------------------
  // Runs
  // ---------------------------------------------------------------------------------------

  /** A run: the states passed through and the step taken from each of them to the next. */
  datatype Run = Run(states: seq<State>, steps: seq<Step>)

  ghost predicate IsRun(r: Run) {
    && |r.states| == |r.steps| + 1
    && r.states[0] == INITIAL
    && forall i :: 0 <= i < |r.steps| ==> Enabled(r.states[i], r.steps[i]) && r.states[i + 1] == Next(r.states[i], r.steps[i])
  }

  lemma {:induction false} RunInv(r: Run, i: nat)
    requires IsRun(r) && i < |r.states|
    ensures Inv(r.states[i])
  {
    if i > 0 {
      RunInv(r, i - 1);
      NextKeepsInv(r.states[i - 1], r.steps[i - 1]);
    }
  }

  // --- The waiter stack ---------------------------------------------------------------

  /**
    In every state of every run, on every calendar: the signal is absent exactly when nobody
    waits and otherwise names the head of the stack with the stack's own expiry; nobody waits
    twice; and the stack runs from the latest queueing call to the earliest, so the signal is
    always on the newest caller still waiting.
  */
  lemma WaiterStackAndSignal(r: Run, i: nat, calendar: CalendarId)
    requires IsRun(r) && i < |r.states|
    ensures var s := r.states[i];
            var k := KeysOf(s, calendar);
            && (k.signal.None? <==> k.waiters == [])
            && (k.waiters != [] ==> k.signal == Some(Lease(k.waiters[0], k.waitersExpireAt)))
            && (forall a, b :: 0 <= a < b < |k.waiters| ==> k.waiters[a] != k.waiters[b])
            && NewestFirst(k.waiters, s.clients)
            && (forall w :: w in k.waiters ==>
                  w in s.clients && s.clients[w].calendar == calendar
                  && Stamp(s.clients, w) <= Stamp(s.clients, k.signal.value.holder))
  {
    RunInv(r, i);
    var s := r.states[i];
    var k := KeysOf(s, calendar);
    assert KeysInv(k, calendar, s.clients, s.actions);
    assert forall a, b :: 0 <= a < b < |k.waiters| ==> Stamp(s.clients, k.waiters[b]) < Stamp(s.clients, k.waiters[a]);
  }

  lemma CancelKeepsNewest(k: Keys, calendar: CalendarId, clients: map<HolderId, Client>, actions: nat, h: HolderId, now: nat)
    requires KeysInv(k, calendar, clients, actions)
    ensures var signal := CancelWaiter(k, h, now).signal;
            forall w :: w in k.waiters && w != h ==>
              && signal.Some? && signal.value.holder != h && signal.value.holder in k.waiters
              && Stamp(clients, w) <= Stamp(clients, signal.value.holder)
  {
    WithoutKeepsOrder(k.waiters, h, clients);
  }

  /** The step runs the cancel script of w. */
  ghost predicate CancelsNow(s: State, step: Step, w: HolderId) {
    step.Advance? && step.h == w && w in s.clients && (s.clients[w].pc.FinalCancel? || s.clients[w].pc.SendCancel?)
  }

  /** Cancelling hands the signal to the newest caller left, with everybody else's order kept. */
  lemma CancelPromotesNewest(r: Run, i: nat, h: HolderId)
    requires IsRun(r) && i < |r.steps| && CancelsNow(r.states[i], r.steps[i], h)
    ensures var s := r.states[i];
            var before := KeysOf(s, s.clients[h].calendar);
            var after := KeysOf(r.states[i + 1], s.clients[h].calendar);
            && after.waiters == Without(before.waiters, h)
            && (after.waiters == [] <==> after.signal.None?)
            && (forall w :: w in before.waiters && w != h ==>
                  && after.signal.Some?
                  && after.signal.value.holder != h
                  && after.signal.value.holder in before.waiters
                  && Stamp(s.clients, w) <= Stamp(s.clients, after.signal.value.holder))
  {
    RunInv(r, i);
    var s := r.states[i];
    CancelKeepsNewest(KeysOf(s, s.clients[h].calendar), s.clients[h].calendar, s.clients, s.actions, h, s.now);
    assert Next(s, r.steps[i]).keys[s.clients[h].calendar] == CancelWaiter(KeysOf(s, s.clients[h].calendar), h, s.now);
  }

  // --- No residue -----------------------------------------------------------------------

  predicate Present(k: Keys, h: HolderId) {
    HeldBy(k.lock, h) || HeldBy(k.signal, h) || h in k.waiters
  }

  lemma ReturnedStays(s: State, step: Step, h: HolderId)
    requires Enabled(s, step) && h in s.clients && (s.clients[h].pc.NotAcquired? || s.clients[h].pc.Released?)
    ensures h in Next(s, step).clients && Next(s, step).clients[h].pc == s.clients[h].pc
  {
  }

  lemma ReturnedIsAbsent(s: State, h: HolderId, calendar: CalendarId)
    requires Inv(s) && h in s.clients && (s.clients[h].pc.NotAcquired? || s.clients[h].pc.Released?)
    ensures !Present(KeysOf(s, calendar), h)
  {
    assert KeysInv(KeysOf(s, calendar), calendar, s.clients, s.actions);
  }

  /**
    Once `acquire` has returned without the lock, or its lock has been released, its holder id
    is on no key of any calendar, then and for the rest of the run.
  */
  lemma {:induction false} NoResidue(r: Run, i: nat, j: nat, h: HolderId, calendar: CalendarId)
    requires IsRun(r) && i <= j < |r.states| && h in r.states[i].clients
    requires r.states[i].clients[h].pc.NotAcquired? || r.states[i].clients[h].pc.Released?
    ensures h in r.states[j].clients && r.states[j].clients[h].pc == r.states[i].clients[h].pc
    ensures !Present(KeysOf(r.states[j], calendar), h)
    decreases j - i
  {
    if i < j {
      NoResidue(r, i, j - 1, h, calendar);
      ReturnedStays(r.states[j - 1], r.steps[j - 1], h);
    }
    RunInv(r, j);
    ReturnedIsAbsent(r.states[j], h, calendar);
  }

  // --- Mutual exclusion -------------------------------------------------------------------

  ghost predicate ConfirmsNow(s: State, step: Step, h: HolderId) {
    && step.Advance? && step.h == h && h in s.clients && s.clients[h].pc.SendConfirm?
    && CanConfirm(KeysOf(s, s.clients[h].calendar), h)
  }

  /** Step i is a successful confirmation by h. */
  ghost predicate Confirms(r: Run, i: nat, h: HolderId)
    requires IsRun(r)
  {
    i < |r.steps| && ConfirmsNow(r.states[i], r.steps[i], h)
  }

  /** Step i ends h's tenure of its calendar: h releases, or its lease runs out. */
  ghost predicate EndsTenure(r: Run, i: nat, h: HolderId, calendar: CalendarId)
    requires IsRun(r) && i < |r.steps|
  {
    || r.steps[i] == Release(h)
    || (r.steps[i].Tick? && HeldBy(KeysOf(r.states[i], calendar).lock, h) && KeysOf(r.states[i + 1], calendar).lock.None?)
  }

  /** No step of another caller, whatever script it runs, deletes, replaces or extends the lock. */
  lemma OthersKeepLock(s: State, step: Step, calendar: CalendarId)
    requires Inv(s) && Enabled(s, step) && !step.Tick?
    requires KeysOf(s, calendar).lock.Some? && KeysOf(s, calendar).lock.value.holder != step.h
    ensures KeysOf(Next(s, step), calendar).lock == KeysOf(s, calendar).lock
  {
    assert KeysInv(KeysOf(s, calendar), calendar, s.clients, s.actions);
  }

  ghost predicate Reigns(s: State, h: HolderId, calendar: CalendarId) {
    && h in s.clients && s.clients[h].calendar == calendar && s.clients[h].pc.Holding?
    && HeldBy(KeysOf(s, calendar).lock, h)
  }

  lemma ReignStep(s: State, step: Step, h: HolderId, calendar: CalendarId)
    requires Inv(s) && Enabled(s, step) && Reigns(s, h, calendar)
    requires step != Release(h)
    requires step.Tick? ==> KeysOf(Next(s, step), calendar).lock.Some?
    ensures Reigns(Next(s, step), h, calendar)
  {
    if !step.Tick? && step.h != h {
      OthersKeepLock(s, step, calendar);
    }
  }

  /** From its confirmation to the end of its tenure a holder owns the lock key. */
  lemma {:induction false} HolderKeepsLock(r: Run, i: nat, j: nat, h: HolderId)
    requires IsRun(r) && Confirms(r, i, h) && i < j < |r.states|
    requires var calendar := r.states[i].clients[h].calendar;
             forall k :: i < k < j ==> !EndsTenure(r, k, h, calendar)
    ensures Reigns(r.states[j], h, r.states[i].clients[h].calendar)
    decreases j
  {
    if j > i + 1 {
      HolderKeepsLock(r, i, j - 1, h);
      RunInv(r, j - 1);
      assert !EndsTenure(r, j - 1, h, r.states[i].clients[h].calendar);
      ReignStep(r.states[j - 1], r.steps[j - 1], h, r.states[i].clients[h].calendar);
    }
  }

  /**
    Mutual exclusion over whole runs: between two confirmations on one calendar the first
    holder has released or its lease has expired.
  */
  lemma MutualExclusion(r: Run, i: nat, j: nat, h: HolderId, h': HolderId)
    requires IsRun(r) && i < j && Confirms(r, i, h) && Confirms(r, j, h')
    requires r.states[i].clients[h].calendar == r.states[j].clients[h'].calendar
    ensures h != h'
    ensures exists k :: i < k < j && EndsTenure(r, k, h, r.states[i].clients[h].calendar)
  {
    var calendar := r.states[i].clients[h].calendar;
    if forall k :: i < k < j ==> !EndsTenure(r, k, h, calendar) {
      HolderKeepsLock(r, i, j, h);
      assert false;
    }
    ConfirmedStaysFinished(r, i, j, h);
  }

  lemma {:induction false} ConfirmedStaysFinished(r: Run, i: nat, j: nat, h: HolderId)
    requires IsRun(r) && Confirms(r, i, h) && i < j < |r.states|
    ensures h in r.states[j].clients && (r.states[j].clients[h].pc.Holding? || r.states[j].clients[h].pc.Released?)
    decreases j
  {
    if j > i + 1 {
      ConfirmedStaysFinished(r, i, j - 1, h);
    }
  }

  /** h has confirmed on this calendar before state j and its tenure has not ended since. */
  ghost predicate InTenure(r: Run, j: nat, h: HolderId, calendar: CalendarId)
    requires IsRun(r) && j < |r.states|
  {
    exists i :: 0 <= i < j && Confirms(r, i, h) && r.states[i].clients[h].calendar == calendar
                && forall k :: i < k < j ==> !EndsTenure(r, k, h, calendar)
  }

  /** A confirmed lock owner became one in this step or already was. */
  lemma ReignOrigin(s: State, step: Step, h: HolderId, calendar: CalendarId)
    requires Inv(s) && Enabled(s, step) && Reigns(Next(s, step), h, calendar)
    ensures h in s.clients && s.clients[h].calendar == calendar && step != Release(h)
    ensures ConfirmsNow(s, step, h) || Reigns(s, h, calendar)
  {
    var s' := Next(s, step);
    assert h in s.clients && s.clients[h].calendar == calendar;
    assert s.clients[h].pc.Holding? || ConfirmsNow(s, step, h);
    if s.clients[h].pc.Holding? && !step.Tick? && step.h != h {
      if step.Advance? {
        AcquirerOwnsNewLock(s, step.h, step.timedOut, calendar);
      }
    }
  }

  /** A lock key that appears names the caller whose script ran. */
  lemma AcquirerOwnsNewLock(s: State, h: HolderId, timedOut: bool, calendar: CalendarId)
    requires Enabled(s, Advance(h, timedOut))
    ensures var lock := KeysOf(Next(s, Advance(h, timedOut)), calendar).lock;
            lock.Some? && lock.value.holder != h ==> lock == KeysOf(s, calendar).lock
  {
  }

  lemma {:induction false} ReignIsTenure(r: Run, j: nat, h: HolderId, calendar: CalendarId) returns (i: nat)
    requires IsRun(r) && j < |r.states| && Reigns(r.states[j], h, calendar)
    ensures i < j && Confirms(r, i, h) && r.states[i].clients[h].calendar == calendar
    ensures forall k :: i < k < j ==> !EndsTenure(r, k, h, calendar)
  {
    hide Next, Inv, Enabled;
    RunInv(r, j - 1);
    ReignOrigin(r.states[j - 1], r.steps[j - 1], h, calendar);
    if ConfirmsNow(r.states[j - 1], r.steps[j - 1], h) {
      i := j - 1;
    } else {
      i := ReignIsTenure(r, j - 1, h, calendar);
    }
  }

  /**
    The callers in tenure are exactly the confirmed caller named by the lock key: at most one,
    and none when the key is free or only provisionally taken.
  */
  lemma TenureIsLockValue(r: Run, j: nat, h: HolderId, calendar: CalendarId)
    requires IsRun(r) && j < |r.states|
    ensures InTenure(r, j, h, calendar) <==> Reigns(r.states[j], h, calendar)
  {
    if InTenure(r, j, h, calendar) {
      var i :| 0 <= i < j && Confirms(r, i, h) && r.states[i].clients[h].calendar == calendar
               && forall k :: i < k < j ==> !EndsTenure(r, k, h, calendar);
      HolderKeepsLock(r, i, j, h);
    }
    if Reigns(r.states[j], h, calendar) {
      var i := ReignIsTenure(r, j, h, calendar);
    }
  }

  // --- Acquiring --------------------------------------------------------------------------

  /** Step i of the run is taken by the caller h, which goes on from here. */
  ghost predicate Advances(r: Run, i: nat, h: HolderId)
    requires IsRun(r)
  {
    i < |r.steps| && r.steps[i].Advance? && r.steps[i].h == h
  }

  ghost function PcAt(r: Run, i: nat, h: HolderId): Pc
    requires IsRun(r) && i < |r.states| && h in r.states[i].clients
  {
    r.states[i].clients[h].pc
  }

  ghost function OwnKeys(r: Run, i: nat, h: HolderId): Keys
    requires IsRun(r) && i < |r.states| && h in r.states[i].clients
  {
    KeysOf(r.states[i], r.states[i].clients[h].calendar)
  }

  /** The caller's blocking calendar, if it names one, is locked. */
  ghost predicate BlockedAt(r: Run, i: nat, h: HolderId)
    requires IsRun(r) && i < |r.states| && h in r.states[i].clients
  {
    var blocker := r.states[i].clients[h].blocker;
    blocker.Some? && blocker.value != "" && KeysOf(r.states[i], blocker.value).lock.Some?
  }

  /** An advancing caller keeps its calendar, its blocker and whether it was aborted. */
  lemma AdvanceKeepsCaller(r: Run, i: nat, h: HolderId)
    requires IsRun(r) && Advances(r, i, h)
    ensures h in r.states[i].clients && h in r.states[i + 1].clients && r.states[i + 1].now == r.states[i].now
    ensures var (c, c') := (r.states[i].clients[h], r.states[i + 1].clients[h]);
            c'.calendar == c.calendar && c'.blocker == c.blocker && c'.aborted == c.aborted
  {
    ActStamp(r.states[i], h, r.steps[i].timedOut);
  }

  /**
    What one run of the acquire script does to the calendar.  A blocked caller changes nothing.
    Otherwise it heads the stack and carries the signal, everybody else stays in line, and the
    lock is taken, for 120 seconds, exactly if it was free.
  */
  lemma AcquireStep(r: Run, i: nat, h: HolderId)
    requires IsRun(r) && Advances(r, i, h) && h in r.states[i].clients && PcAt(r, i, h).SendAcquire?
    ensures h in r.states[i + 1].clients
    ensures var (before, after, now, pc) := (OwnKeys(r, i, h), OwnKeys(r, i + 1, h), r.states[i].now, PcAt(r, i + 1, h));
            if BlockedAt(r, i, h) then after == before && pc == LoopTop(true)
            else
              && after.waiters != [] && after.waiters[0] == h && after.waitersExpireAt == now + 570_000
              && (forall w :: w in after.waiters <==> w == h || w in before.waiters)
              && after.signal == Some(Lease(h, now + 570_000))
              && (if before.lock.None? then after.lock == Some(Lease(h, now + 120_000)) && pc == CheckAbort(PcAt(r, i, h).first)
                  else after.lock == before.lock && pc == LoopTop(false))
  {
    AdvanceKeepsCaller(r, i, h);
    var (s, c) := (r.states[i], r.states[i].clients[h]);
    assert OwnKeys(r, i + 1, h) == Act(s, h, c, r.steps[i].timedOut).0;
  }

  lemma AcquireTakesFreeLock(r: Run, i: nat, h: HolderId)
    requires IsRun(r) && Advances(r, i, h) && h in r.states[i].clients && PcAt(r, i, h).SendAcquire?
    requires !BlockedAt(r, i, h) && OwnKeys(r, i, h).lock.None?
    ensures h in r.states[i + 1].clients && PcAt(r, i + 1, h) == CheckAbort(PcAt(r, i, h).first)
    ensures OwnKeys(r, i + 1, h).lock == Some(Lease(h, r.states[i].now + 120_000))
    ensures CanConfirm(OwnKeys(r, i + 1, h), h)
  {
    AcquireStep(r, i, h);
  }

  /** A caller that is not aborted and still owns lock, signal and head of the stack confirms. */
  lemma ConfirmSteps(r: Run, i: nat, h: HolderId)
    requires IsRun(r) && Advances(r, i, h) && Advances(r, i + 1, h) && h in r.states[i].clients
    requires PcAt(r, i, h).CheckAbort? && !r.states[i].clients[h].aborted && CanConfirm(OwnKeys(r, i, h), h)
    ensures Confirms(r, i + 1, h)
    ensures h in r.states[i + 2].clients && PcAt(r, i + 2, h) == Holding && OwnKeys(r, i + 2, h).waiters == []
    ensures OwnKeys(r, i + 2, h).lock == OwnKeys(r, i, h).lock
    ensures Reigns(r.states[i + 2], h, r.states[i].clients[h].calendar)
  {
    AdvanceKeepsCaller(r, i, h);
    AdvanceKeepsCaller(r, i + 1, h);
    assert OwnKeys(r, i + 1, h) == OwnKeys(r, i, h);
    assert OwnKeys(r, i + 2, h).lock == OwnKeys(r, i, h).lock;
  }

  /**
    A free lock is obtained: a caller that is neither aborted nor blocked holds the lock three of
    its steps after it sends the acquire script, for 120 seconds from then.
  */
  lemma FreeLockIsObtained(r: Run, i: nat, h: HolderId)
    requires IsRun(r) && Advances(r, i, h) && Advances(r, i + 1, h) && Advances(r, i + 2, h) && h in r.states[i].clients
    requires PcAt(r, i, h).SendAcquire? && !r.states[i].clients[h].aborted && !BlockedAt(r, i, h)
    requires OwnKeys(r, i, h).lock.None?
    ensures Confirms(r, i + 2, h) && Reigns(r.states[i + 3], h, r.states[i].clients[h].calendar)
    ensures h in r.states[i + 3].clients && PcAt(r, i + 3, h) == Holding
    ensures OwnKeys(r, i + 3, h) == Keys(Some(Lease(h, r.states[i].now + 120_000)), None, [], 0)
  {
    hide Next, Act, KeysOf;
    AdvanceKeepsCaller(r, i, h);
    AcquireTakesFreeLock(r, i, h);
    ConfirmSteps(r, i + 1, h);
    ConfirmedKeys(r, i + 2, h);
  }

  /** Whoever waited is cleared away by a confirmation. */
  lemma ConfirmedKeys(r: Run, i: nat, h: HolderId)
    requires IsRun(r) && Confirms(r, i, h)
    ensures h in r.states[i + 1].clients
    ensures OwnKeys(r, i + 1, h) == Keys(OwnKeys(r, i, h).lock, None, [], 0)
  {
    AdvanceKeepsCaller(r, i, h);
  }

  /** The three steps of a polling round in which the caller finds its turn has come. */
  lemma PollFindsTurn(r: Run, i: nat, h: HolderId)
    requires IsRun(r) && Advances(r, i, h) && Advances(r, i + 1, h) && Advances(r, i + 2, h) && h in r.states[i].clients
    requires PcAt(r, i, h) == LoopTop(false) && !r.states[i].clients[h].aborted && !r.steps[i].timedOut
    requires HeldBy(OwnKeys(r, i, h).signal, h) && OwnKeys(r, i, h).lock.None?
    ensures h in r.states[i + 3].clients && PcAt(r, i + 3, h) == SendAcquire(false) && OwnKeys(r, i + 3, h).lock.None?
    ensures r.states[i + 3].clients[h] == r.states[i].clients[h].(pc := SendAcquire(false))
  {
    AdvanceKeepsCaller(r, i, h);
    AdvanceKeepsCaller(r, i + 1, h);
    AdvanceKeepsCaller(r, i + 2, h);
    assert PcAt(r, i + 1, h) == ReadSignal && OwnKeys(r, i + 1, h) == OwnKeys(r, i, h);
    assert PcAt(r, i + 2, h) == ReadLock(false) && OwnKeys(r, i + 2, h) == OwnKeys(r, i, h);
    assert OwnKeys(r, i + 3, h) == OwnKeys(r, i, h);
  }

  /**
    Hand-off completes: a waiting caller that carries the signal when the lock is free obtains it
    with its next six steps, unless it is aborted, out of time or blocked.
  */
  lemma SignalledWaiterObtainsLock(r: Run, i: nat, h: HolderId)
    requires IsRun(r) && Advances(r, i, h) && Advances(r, i + 1, h) && Advances(r, i + 2, h) && h in r.states[i].clients
    requires Advances(r, i + 3, h) && Advances(r, i + 4, h) && Advances(r, i + 5, h)
    requires PcAt(r, i, h) == LoopTop(false) && !r.states[i].clients[h].aborted && !r.steps[i].timedOut
    requires HeldBy(OwnKeys(r, i, h).signal, h) && OwnKeys(r, i, h).lock.None?
    requires h in r.states[i + 3].clients && !BlockedAt(r, i + 3, h)
    ensures Reigns(r.states[i + 6], h, r.states[i].clients[h].calendar)
  {
    hide Next, Act, KeysOf, Reigns, HeldBy, BlockedAt;
    PollFindsTurn(r, i, h);
    FreeLockIsObtained(r, i + 3, h);
  }

  /**
    Every other polling round.  A caller that is aborted or out of time, or whose signal is gone,
    gives up and cancels; a superseded caller keeps polling; a blocked one tries the script again.
  */
  lemma PollStep(r: Run, i: nat, h: HolderId)
    requires IsRun(r) && Advances(r, i, h) && h in r.states[i].clients
    ensures h in r.states[i + 1].clients
    ensures var (c, pc, pc', k) := (r.states[i].clients[h], PcAt(r, i, h), PcAt(r, i + 1, h), OwnKeys(r, i, h));
            match pc
            case LoopTop(blocked) =>
              if r.steps[i].timedOut || c.aborted then pc' == FinalCancel
              else pc' == if blocked then ReadLock(true) else ReadSignal
            case ReadSignal =>
              && (k.signal.None? ==> pc' == FinalCancel)
              && (k.signal.Some? ==> pc' == if k.signal.value.holder == h then ReadLock(false) else LoopTop(false))
            case ReadLock(blocked) => pc' == if blocked || k.lock.None? then SendAcquire(false) else LoopTop(false)
            case CheckAbort(first) => pc' == if c.aborted then SendCancel(first) else SendConfirm(first)
            case SendConfirm(first) => pc' == if CanConfirm(k, h) then Holding else SendCancel(first)
            case SendCancel(first) => pc' == if first then NotAcquired else FinalCancel
            case FinalCancel => pc' == NotAcquired
            case _ => true
  {
    AdvanceKeepsCaller(r, i, h);
  }

  /** A call touches no key until it sends its first script, and one aborted beforehand never does. */
  lemma CallStep(r: Run, i: nat)
    requires IsRun(r) && i < |r.steps| && r.steps[i].Call?
    ensures var h := r.steps[i].h;
            && r.states[i + 1].keys == r.states[i].keys && h !in r.states[i].clients && h in r.states[i + 1].clients
            && r.states[i + 1].clients[h].calendar == r.steps[i].calendar && r.states[i + 1].clients[h].blocker == r.steps[i].blocker
            && PcAt(r, i + 1, h) == if r.steps[i].aborted then NotAcquired else SendAcquire(true)
  {
  }

  /** Releasing frees the caller's own lock and changes nothing else. */
  lemma ReleaseStep(r: Run, i: nat, h: HolderId)
    requires IsRun(r) && i < |r.steps| && r.steps[i] == Release(h)
    ensures h in r.states[i].clients && h in r.states[i + 1].clients && PcAt(r, i + 1, h) == Released
    ensures OwnKeys(r, i + 1, h) == OwnKeys(r, i, h).(lock := if HeldBy(OwnKeys(r, i, h).lock, h) then None else OwnKeys(r, i, h).lock)
  {
  }

  // --- Time to live -----------------------------------------------------------------------

  ghost predicate Live(k: Keys, now: nat) {
    && (k.lock.Some? ==> now < k.lock.value.expiresAt)
    && (k.signal.Some? ==> now < k.signal.value.expiresAt)
    && (k.waiters != [] ==> now < k.waitersExpireAt)
  }

  lemma StepKeepsLive(s: State, step: Step, calendar: CalendarId)
    requires Enabled(s, step) && Live(KeysOf(s, calendar), s.now)
    ensures Live(KeysOf(Next(s, step), calendar), Next(s, step).now)
  {
    hide Without;
  }

  /** In every reachable state the keys present are those whose time has not come. */
  lemma {:induction false} PresentKeysAreLive(r: Run, i: nat, calendar: CalendarId)
    requires IsRun(r) && i < |r.states|
    ensures Live(KeysOf(r.states[i], calendar), r.states[i].now)
  {
    if i > 0 {
      PresentKeysAreLive(r, i - 1, calendar);
      StepKeepsLive(r.states[i - 1], r.steps[i - 1], calendar);
    }
  }

  /** The passing of time removes exactly the keys whose time has come and alters no other. */
  lemma TickExpires(r: Run, i: nat, calendar: CalendarId)
    requires IsRun(r) && i < |r.steps| && r.steps[i].Tick?
    ensures var (k, k', now') := (KeysOf(r.states[i], calendar), KeysOf(r.states[i + 1], calendar), r.states[i + 1].now);
            && now' == r.states[i].now + r.steps[i].elapsed
            && k'.lock == (if k.lock.Some? && now' < k.lock.value.expiresAt then k.lock else None)
            && k'.signal == (if k.signal.Some? && now' < k.signal.value.expiresAt then k.signal else None)
            && k'.waiters == (if now' < k.waitersExpireAt then k.waiters else [])
  {
    RunInv(r, i);
    assert KeysInv(KeysOf(r.states[i], calendar), calendar, r.states[i].clients, r.states[i].actions);
  }

  /** A renewal moves the holder's expiry to 120 seconds from now and touches nothing else. */
  lemma RenewalExtends(r: Run, i: nat, h: HolderId)
    requires IsRun(r) && i < |r.steps| && r.steps[i] == Renew(h)
    ensures h in r.states[i].clients && r.states[i + 1].clients == r.states[i].clients
    ensures var (k, k') := (OwnKeys(r, i, h), OwnKeys(r, i + 1, h));
            k' == if HeldBy(k.lock, h) then k.(lock := Some(Lease(h, r.states[i].now + 120_000))) else k
  {
  }

  lemma LeaseStep(s: State, step: Step, h: HolderId, calendar: CalendarId, expiresAt: nat)
    requires Inv(s) && Enabled(s, step) && step != Renew(h)
    requires h in s.clients && (s.clients[h].pc.Holding? || s.clients[h].pc.Released?)
    requires HeldBy(KeysOf(s, calendar).lock, h) ==> KeysOf(s, calendar).lock == Some(Lease(h, expiresAt))
    ensures var s' := Next(s, step);
            && h in s'.clients && (s'.clients[h].pc.Holding? || s'.clients[h].pc.Released?)
            && (HeldBy(KeysOf(s', calendar).lock, h) ==> KeysOf(s', calendar).lock == Some(Lease(h, expiresAt)))
  {
    if step.Advance? {
      AcquirerOwnsNewLock(s, step.h, step.timedOut, calendar);
    }
  }

  lemma {:induction false} LeaseIsNotExtended(r: Run, i: nat, j: nat, h: HolderId, calendar: CalendarId, expiresAt: nat)
    requires IsRun(r) && i <= j < |r.states| && Reigns(r.states[i], h, calendar)
    requires KeysOf(r.states[i], calendar).lock.value.expiresAt == expiresAt
    requires forall k :: i <= k < j ==> r.steps[k] != Renew(h)
    ensures h in r.states[j].clients && (r.states[j].clients[h].pc.Holding? || r.states[j].clients[h].pc.Released?)
    ensures HeldBy(KeysOf(r.states[j], calendar).lock, h) ==> KeysOf(r.states[j], calendar).lock == Some(Lease(h, expiresAt))
    decreases j
  {
    if i < j {
      LeaseIsNotExtended(r, i, j - 1, h, calendar, expiresAt);
      RunInv(r, j - 1);
      LeaseStep(r.states[j - 1], r.steps[j - 1], h, calendar, expiresAt);
    }
  }

  /** A lease that is not renewed ends when its time comes, whatever else happens. */
  lemma UnrenewedLeaseEnds(r: Run, i: nat, j: nat, h: HolderId, calendar: CalendarId)
    requires IsRun(r) && i <= j < |r.states| && Reigns(r.states[i], h, calendar)
    requires forall k :: i <= k < j ==> r.steps[k] != Renew(h)
    requires KeysOf(r.states[i], calendar).lock.value.expiresAt <= r.states[j].now
    ensures !HeldBy(KeysOf(r.states[j], calendar).lock, h)
  {
    LeaseIsNotExtended(r, i, j, h, calendar, KeysOf(r.states[i], calendar).lock.value.expiresAt);
    PresentKeysAreLive(r, j, calendar);
  }

  // --- Preemption ---------------------------------------------------------------------------

  /** Step i queues w behind h, which owns the lock. */
  ghost predicate QueuesBehind(r: Run, i: nat, w: HolderId, h: HolderId)
    requires IsRun(r)
  {
    && i < |r.steps| && r.steps[i].Advance? && r.steps[i].h == w && w != h
    && var c := r.states[i].clients[w];
       && c.pc.SendAcquire? && !IsBlocked(r.states[i], c)
       && HeldBy(KeysOf(r.states[i], c.calendar).lock, h)
  }

  /** w cancels its place in the stack at step i, or the stack expires. */
  ghost predicate LeavesStack(r: Run, i: nat, w: HolderId, calendar: CalendarId)
    requires IsRun(r) && i < |r.steps|
  {
    || CancelsNow(r.states[i], r.steps[i], w)
    || (r.steps[i].Tick? && KeysOf(r.states[i], calendar).waiters != [] && KeysOf(r.states[i + 1], calendar).waiters == [])
  }

  /** w waits above h, if h waits at all. */
  ghost predicate WaitsAbove(s: State, w: HolderId, h: HolderId, calendar: CalendarId) {
    var k := KeysOf(s, calendar);
    && w in k.waiters && w in s.clients && s.clients[w].calendar == calendar
    && (h in k.waiters ==> Stamp(s.clients, h) < Stamp(s.clients, w))
  }

  /** With w above it, h is not at the head of the stack, so it cannot confirm and wipe the stack. */
  lemma WaiterAboveBlocksConfirm(s: State, w: HolderId, h: HolderId, calendar: CalendarId)
    requires Inv(s) && w != h && WaitsAbove(s, w, h, calendar)
    ensures !CanConfirm(KeysOf(s, calendar), h)
  {
    var k := KeysOf(s, calendar);
    assert KeysInv(k, calendar, s.clients, s.actions);
    if CanConfirm(k, h) {
      assert false;
    }
  }

  /** Of the acting caller's scripts only its own cancel removes it, and only a confirmation removes others. */
  lemma ActKeepsWaiter(s: State, h: HolderId, timedOut: bool, w: HolderId)
    requires Enabled(s, Advance(h, timedOut))
    requires var c := s.clients[h];
             w in KeysOf(s, c.calendar).waiters && !CanConfirm(KeysOf(s, c.calendar), h)
             && (w == h ==> !c.pc.FinalCancel? && !c.pc.SendCancel?)
    ensures var waiters := Act(s, h, s.clients[h], timedOut).0.waiters;
            w in waiters && forall x :: x in waiters && x != h ==> x in KeysOf(s, s.clients[h].calendar).waiters
  {
  }

  lemma ActStamp(s: State, h: HolderId, timedOut: bool)
    requires Enabled(s, Advance(h, timedOut))
    ensures var (c, c') := (s.clients[h], Act(s, h, s.clients[h], timedOut).1);
            c'.calendar == c.calendar && (c'.stamp == c.stamp || (c.pc.SendAcquire? && c'.stamp == s.actions + 1))
  {
  }

  lemma WaitsAboveStep(s: State, step: Step, w: HolderId, h: HolderId, calendar: CalendarId)
    requires Inv(s) && Enabled(s, step) && w != h && WaitsAbove(s, w, h, calendar)
    requires HeldBy(KeysOf(s, calendar).lock, h)
    requires step.Advance? && step.h == w ==> !s.clients[w].pc.FinalCancel? && !s.clients[w].pc.SendCancel?
    requires step.Tick? ==> KeysOf(Next(s, step), calendar).waiters != []
    ensures WaitsAbove(Next(s, step), w, h, calendar)
  {
    var (k, s') := (KeysOf(s, calendar), Next(s, step));
    WaiterAboveBlocksConfirm(s, w, h, calendar);
    assert KeysInv(k, calendar, s.clients, s.actions);
    if step.Advance? {
      ActStamp(s, step.h, step.timedOut);
      if s.clients[step.h].calendar == calendar {
        ActKeepsWaiter(s, step.h, step.timedOut, w);
      }
      assert w in KeysOf(s', calendar).waiters;
      assert h in KeysOf(s', calendar).waiters ==> h in k.waiters;
      assert Stamp(s'.clients, h) == Stamp(s.clients, h);
      assert Stamp(s'.clients, w) >= Stamp(s.clients, w);
    }
  }

  lemma QueueingWaitsAbove(s: State, w: HolderId, timedOut: bool, h: HolderId)
    requires Inv(s) && Enabled(s, Advance(w, timedOut)) && w != h
    requires s.clients[w].pc.SendAcquire? && !IsBlocked(s, s.clients[w])
    ensures WaitsAbove(Next(s, Advance(w, timedOut)), w, h, s.clients[w].calendar)
  {
    var calendar := s.clients[w].calendar;
    assert KeysInv(KeysOf(s, calendar), calendar, s.clients, s.actions);
  }

  lemma {:induction false} WaitsAboveRun(r: Run, i: nat, j: nat, w: HolderId, h: HolderId, calendar: CalendarId)
    requires IsRun(r) && QueuesBehind(r, i, w, h) && i < j < |r.states|
    requires r.states[i].clients[w].calendar == calendar
    requires forall k :: i < k < j ==> HeldBy(KeysOf(r.states[k], calendar).lock, h) && !LeavesStack(r, k, w, calendar)
    ensures WaitsAbove(r.states[j], w, h, calendar)
    decreases j
  {
    if j > i + 1 {
      WaitsAboveRun(r, i, j - 1, w, h, calendar);
      RunInv(r, j - 1);
      WaitsAboveStep(r.states[j - 1], r.steps[j - 1], w, h, calendar);
    } else {
      RunInv(r, i);
      QueueingWaitsAbove(r.states[i], w, r.steps[i].timedOut, h);
    }
  }

  /**
    A preempting waiter queued behind h stays visible: while h owns the lock, `isCurrent(h)` is
    false until that waiter cancels or the stack expires, whoever queues after it.
  */
  lemma PreemptionNotMasked(r: Run, i: nat, j: nat, w: HolderId, h: HolderId)
    requires IsRun(r) && QueuesBehind(r, i, w, h) && !IsBackground(w) && i < j < |r.states|
    requires var calendar := r.states[i].clients[w].calendar;
             forall k :: i < k < j ==> HeldBy(KeysOf(r.states[k], calendar).lock, h) && !LeavesStack(r, k, w, calendar)
    ensures !IsCurrent(KeysOf(r.states[j], r.states[i].clients[w].calendar), h)
  {
    WaitsAboveRun(r, i, j, w, h, r.states[i].clients[w].calendar);
  }

  /** Who waits after a caller's action waited before or has just queued; a cancelling caller does not. */
  lemma ActWaiters(s: State, h: HolderId, timedOut: bool, w: HolderId)
    requires Enabled(s, Advance(h, timedOut))
    ensures var c := s.clients[h];
            w in Act(s, h, c, timedOut).0.waiters ==>
              && (w in KeysOf(s, c.calendar).waiters || (w == h && c.pc.SendAcquire? && !IsBlocked(s, c)))
              && (w == h ==> !c.pc.FinalCancel? && !c.pc.SendCancel?)
  {
  }

  lemma StepWaiters(s: State, step: Step, w: HolderId, calendar: CalendarId)
    requires Enabled(s, step) && w in KeysOf(Next(s, step), calendar).waiters
    requires !(step.Advance? && s.clients[step.h].calendar == calendar)
    ensures w in KeysOf(s, calendar).waiters
  {
  }

  ghost predicate QueuesNow(s: State, step: Step, w: HolderId, calendar: CalendarId) {
    && step.Advance? && step.h == w && w in s.clients && s.clients[w].calendar == calendar
    && s.clients[w].pc.SendAcquire? && !IsBlocked(s, s.clients[w])
  }

  lemma WaiterStep(s: State, step: Step, w: HolderId, calendar: CalendarId)
    requires Inv(s) && Enabled(s, step) && w in KeysOf(Next(s, step), calendar).waiters
    ensures !CancelsNow(s, step, w)
    ensures w in KeysOf(s, calendar).waiters || QueuesNow(s, step, w, calendar)
  {
    if step.Advance? && s.clients[step.h].calendar == calendar {
      ActWaiters(s, step.h, step.timedOut, w);
      assert KeysOf(Next(s, step), calendar) == Act(s, step.h, s.clients[step.h], step.timedOut).0;
    } else {
      StepWaiters(s, step, w, calendar);
      assert KeysInv(KeysOf(s, calendar), calendar, s.clients, s.actions);
    }
  }

  lemma WaiterRunStep(r: Run, i: nat, w: HolderId, calendar: CalendarId)
    requires IsRun(r) && i < |r.steps| && w in KeysOf(r.states[i + 1], calendar).waiters
    ensures !CancelsNow(r.states[i], r.steps[i], w)
    ensures w in KeysOf(r.states[i], calendar).waiters || QueuesNow(r.states[i], r.steps[i], w, calendar)
  {
    RunInv(r, i);
    WaiterStep(r.states[i], r.steps[i], w, calendar);
  }

  ghost predicate NoCancelWithin(r: Run, i: nat, j: nat, w: HolderId)
    requires IsRun(r) && j < |r.states|
  {
    forall k :: i < k < j ==> !CancelsNow(r.states[k], r.steps[k], w)
  }

  lemma {:induction false} WaiterHasQueued(r: Run, j: nat, w: HolderId, calendar: CalendarId) returns (i: nat)
    requires IsRun(r) && j < |r.states| && w in KeysOf(r.states[j], calendar).waiters
    ensures i < j && QueuesNow(r.states[i], r.steps[i], w, calendar) && NoCancelWithin(r, i, j, w)
  {
    if j == 0 {
      assert false;
    } else {
      WaiterRunStep(r, j - 1, w, calendar);
      if w in KeysOf(r.states[j - 1], calendar).waiters {
        i := WaiterHasQueued(r, j - 1, w, calendar);
      } else {
        i := j - 1;
      }
    }
  }

  /**
    Nothing else stops a lock owner: when `isCurrent(h)` is false although h owns the lock, a
    caller that may preempt has queued on the calendar and not cancelled since.
  */
  lemma OnlyPreemptionStops(r: Run, j: nat, h: HolderId, calendar: CalendarId) returns (i: nat, w: HolderId)
    requires IsRun(r) && j < |r.states|
    requires HeldBy(KeysOf(r.states[j], calendar).lock, h) && !IsCurrent(KeysOf(r.states[j], calendar), h)
    ensures w != h && !IsBackground(w)
    ensures i < j && QueuesNow(r.states[i], r.steps[i], w, calendar) && NoCancelWithin(r, i, j, w)
  {
    w :| w in KeysOf(r.states[j], calendar).waiters && w != h && !IsBackground(w);
    i := WaiterHasQueued(r, j, w, calendar);
  }

  /** Callers of the background lock never make a lock owner stop; every other caller does. */
  lemma BackgroundWaitersNeverPreempt(k: Keys, h: HolderId, uuid: string, acquisition: Acquisition)
    requires HeldBy(k.lock, h) && IsCurrent(k, h) && HolderPrefix(acquisition) + uuid != h
    ensures forall now: nat ::
              IsCurrent(AcquireOrSignal(k, HolderPrefix(acquisition) + uuid, now, false).0, h) <==> acquisition.Background?
  {
    var w := HolderPrefix(acquisition) + uuid;
    assert IsBackground(w) <==> acquisition.Background? by {
      if acquisition.Preempting? {
        assert w[0] == 'p';
      }
    }
    forall now: nat
      ensures IsCurrent(AcquireOrSignal(k, w, now, false).0, h) <==> acquisition.Background?
    {
      var k' := AcquireOrSignal(k, w, now, false).0;
      assert w in k'.waiters;
    }
  }
}
