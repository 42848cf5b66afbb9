/**
  The lease-based ingest schedule of packages/database/src/database/ingest-schedule.ts.

  One row per calendar says when the calendar is next due, who holds its lease and whether a
  wake is waiting.  `Row` functions give what each statement assigns to a row it matches;
  `ScheduleTable` runs the statements on the table; the transition system below composes them
  into runs under a clock that never goes back.  SQL comparisons with NULL are never true and
  `greatest` and `least` skip NULL arguments, as in Postgres.
*/
module IngestSchedule {
  import opened Wrappers

  type CalendarId = nat
  type Token = string
  type Timestamp = int

  datatype Lane = Fleet | WakeLane

  datatype ParkedReason = CredentialRejected | Ineligible | Unresolvable

  datatype Row = Row(
    dueAt: Option<Timestamp>,
    failureCount: int,
    lastAttemptAt: Option<Timestamp>,
    lastFailureAt: Option<Timestamp>,
    lastSuccessAt: Option<Timestamp>,
    leaseToken: Option<Token>,
    leasedUntil: Option<Timestamp>,
    parkedReason: Option<ParkedReason>,
    releaseSeq: int,
    wakeCorrelationId: Option<string>,
    wakeDueAt: Option<Timestamp>,
    wakeReceivedAt: Option<Timestamp>,
    wakeSeq: int)

  /** What a claim hands to the worker. */
  datatype ClaimedIngest = ClaimedIngest(
    calendarId: CalendarId,
    claimedDueAt: Option<Timestamp>,
    failureCount: int,
    lagMs: int,
    leaseToken: Token,
    releaseSeq: int,
    wakeCorrelationId: Option<string>,
    wakeDueAt: Option<Timestamp>,
    wakeReceivedAt: Option<Timestamp>,
    wakeSeq: int)

  datatype Completion = Completion(
    attempted: bool,
    calendarId: CalendarId,
    claimedReleaseSeq: int,
    claimedWakeSeq: int,
    failed: bool,
    failureCount: int,
    leaseToken: Token,
    nextDueInMs: Option<int>,
    parkedReason: Option<ParkedReason>,
    succeeded: bool)

  datatype WakeInput = WakeInput(correlationId: Option<string>, debounceMs: int)

  // ---------------------------------------------------------------------------------------
  // What the statements do to one row
  // ---------------------------------------------------------------------------------------

  predicate Due(at: Option<Timestamp>, now: Timestamp) {
    at.Some? && at.value <= now
  }

  predicate Unleased(r: Row, now: Timestamp) {
    r.leasedUntil.None? || r.leasedUntil.value <= now
  }

  predicate Eligible(lane: Lane, r: Row, now: Timestamp) {
    match lane
    case WakeLane => Due(r.wakeDueAt, now) && r.dueAt.Some? && (r.failureCount == 0 || Due(r.dueAt, now)) && Unleased(r, now)
    case Fleet => Due(r.dueAt, now) && Unleased(r, now)
  }

  /** The column a lane orders by and measures lag from; present on every eligible row. */
  function Reference(lane: Lane, r: Row): Option<Timestamp> {
    match lane
    case WakeLane => r.wakeDueAt
    case Fleet => r.dueAt
  }

  function ClaimRow(r: Row, now: Timestamp, leaseMs: int, token: Token): Row {
    r.(dueAt := Some(now + leaseMs), leasedUntil := Some(now + leaseMs), leaseToken := Some(token), lastAttemptAt := Some(now))
  }

  function ClaimOf(calendar: CalendarId, lane: Lane, r: Row, now: Timestamp, token: Token): ClaimedIngest {
    var lag := if Reference(lane, r).Some? then now - Reference(lane, r).value else 0;
    ClaimedIngest(calendar, r.dueAt, r.failureCount, if lag < 0 then 0 else lag, token, r.releaseSeq,
                  r.wakeCorrelationId, r.wakeDueAt, r.wakeReceivedAt, r.wakeSeq)
  }

  /** The claim copies its row, and its lag is the time since the row fell due in its lane. */
  ghost predicate Reports(claim: ClaimedIngest, calendar: CalendarId, lane: Lane, rows: map<CalendarId, Row>, now: Timestamp, token: Token) {
    && calendar in rows && claim.calendarId == calendar && claim.leaseToken == token
    && var r := rows[calendar];
       && claim.claimedDueAt == r.dueAt && claim.failureCount == r.failureCount
       && claim.releaseSeq == r.releaseSeq && claim.wakeSeq == r.wakeSeq
       && claim.wakeDueAt == r.wakeDueAt && claim.wakeReceivedAt == r.wakeReceivedAt && claim.wakeCorrelationId == r.wakeCorrelationId
       && match lane
          case Fleet => r.dueAt.Some? && claim.lagMs == now - r.dueAt.value && claim.lagMs >= 0
          case WakeLane => r.wakeDueAt.Some? && claim.lagMs == now - r.wakeDueAt.value && claim.lagMs >= 0
  }

  function Greatest(a: Option<Timestamp>, b: Timestamp): Timestamp {
    if a.Some? && a.value > b then a.value else b
  }

  function CompleteRow(r: Row, now: Timestamp, c: Completion): Row {
    var consumesWake := c.attempted && r.wakeSeq == c.claimedWakeSeq;
    var released := r.releaseSeq != c.claimedReleaseSeq;
    var nextDue := if c.nextDueInMs.Some? then Some(now + c.nextDueInMs.value) else None;
    r.(dueAt := if released then r.dueAt else nextDue,
       parkedReason := if released then r.parkedReason else c.parkedReason,
       failureCount := if released then r.failureCount else c.failureCount,
       lastFailureAt := if c.failed && !released then Some(now) else r.lastFailureAt,
       lastSuccessAt := if c.succeeded then Some(now) else r.lastSuccessAt,
       leasedUntil := None,
       leaseToken := None,
       wakeDueAt := if consumesWake then None
                    else if !c.attempted && nextDue.Some? then Some(Greatest(r.wakeDueAt, nextDue.value))
                    else r.wakeDueAt,
       wakeReceivedAt := if consumesWake then None else r.wakeReceivedAt,
       wakeCorrelationId := if consumesWake then None else r.wakeCorrelationId)
  }

  /** The read in progress started before this wake and no wake has come in since it started. */
  predicate ServedByCurrentRead(r: Row, now: Timestamp) {
    && r.leasedUntil.Some? && r.leasedUntil.value > now
    && (r.wakeReceivedAt.None? || (r.lastAttemptAt.Some? && r.wakeReceivedAt.value <= r.lastAttemptAt.value))
  }

  function WakeRow(r: Row, now: Timestamp, input: WakeInput): Row {
    var deadline := now + input.debounceMs;
    var served := ServedByCurrentRead(r, now);
    r.(wakeDueAt := Some(if r.wakeDueAt.Some? && r.wakeDueAt.value < deadline then r.wakeDueAt.value else deadline),
       wakeReceivedAt := if served || r.wakeReceivedAt.None? then Some(now) else r.wakeReceivedAt,
       wakeCorrelationId := if served || r.wakeCorrelationId.None? then input.correlationId else r.wakeCorrelationId,
       wakeSeq := r.wakeSeq + 1)
  }

  function ReleaseRow(r: Row, now: Timestamp): Row {
    r.(dueAt := if r.parkedReason == Some(Ineligible) then None else Some(now), leasedUntil := None, leaseToken := None)
  }

  // ---------------------------------------------------------------------------------------
  // The statements as steps
  // ---------------------------------------------------------------------------------------

  /**
    `Claim` takes any set of eligible rows, which covers every order, limit and set of locked
    rows.  `Outside` stands for the database triggers that release a calendar: they bump
    `releaseSeq` and may rewrite `dueAt`, `parkedReason` and `failureCount`, nothing else.
  */
  datatype Step =
    | Claim(lane: Lane, leaseMs: int, token: Token, picked: set<CalendarId>)
    | Complete(completions: map<CalendarId, Completion>)
    | Wake(calendars: set<CalendarId>, input: WakeInput)
    | Release(tokens: map<CalendarId, Token>)
    | Outside(calendar: CalendarId, dueAt: Option<Timestamp>, parkedReason: Option<ParkedReason>, failureCount: int)
    | Tick(elapsed: nat)

  function RowAfter(calendar: CalendarId, r: Row, now: Timestamp, step: Step): Row {
    match step
    case Claim(_, leaseMs, token, picked) => if calendar in picked then ClaimRow(r, now, leaseMs, token) else r
    case Complete(completions) =>
      if calendar in completions && r.leaseToken == Some(completions[calendar].leaseToken)
      then CompleteRow(r, now, completions[calendar]) else r
    case Wake(calendars, input) => if calendar in calendars && r.dueAt.Some? then WakeRow(r, now, input) else r
    case Release(tokens) =>
      if calendar in tokens && r.leaseToken == Some(tokens[calendar]) then ReleaseRow(r, now) else r
    case Outside(c, dueAt, parkedReason, failureCount) =>
      if calendar == c
      then r.(dueAt := dueAt, parkedReason := parkedReason, failureCount := failureCount, releaseSeq := r.releaseSeq + 1)
      else r
    case Tick(_) => r
  }

  /** The whole table after a statement that started at `now`. */
  function Effect(rows: map<CalendarId, Row>, now: Timestamp, step: Step): map<CalendarId, Row> {
    map c | c in rows :: RowAfter(c, rows[c], now, step)
  }

  // ---------------------------------------------------------------------------------------
  // The statements as they run over the table
  // ---------------------------------------------------------------------------------------

  function Claimable(rows: map<CalendarId, Row>, lane: Lane, now: Timestamp, locked: set<CalendarId>): set<CalendarId> {
    set c | c in rows && c !in locked && Eligible(lane, rows[c], now)
  }

  predicate Sooner(lane: Lane, rows: map<CalendarId, Row>, a: CalendarId, b: CalendarId) {
    && a in rows && b in rows && Reference(lane, rows[a]).Some? && Reference(lane, rows[b]).Some?
    && Reference(lane, rows[a]).value <= Reference(lane, rows[b]).value
  }

  /** `due` lists distinct free rows, each no later than any free row listed after it or not at all. */
  ghost predicate EarliestFirst(lane: Lane, rows: map<CalendarId, Row>, free: set<CalendarId>, due: seq<CalendarId>) {
    forall i :: 0 <= i < |due| ==>
      due[i] in free && due[i] !in due[..i] && forall c :: c in free && c !in due[..i] ==> Sooner(lane, rows, due[i], c)
  }

  function Limited(limit: int, available: nat): nat {
    if limit <= 0 then 0 else if limit < available then limit else available
  }

  lemma TakeNext(lane: Lane, rows: map<CalendarId, Row>, free: set<CalendarId>, due: seq<CalendarId>, next: CalendarId)
    requires EarliestFirst(lane, rows, free, due) && next in free && next !in due
    requires forall c :: c in free && c !in due ==> Sooner(lane, rows, next, c)
    ensures EarliestFirst(lane, rows, free, due + [next])
  {
    var more := due + [next];
    forall i | 0 <= i < |more|
      ensures more[i] in free && more[i] !in more[..i] && forall c :: c in free && c !in more[..i] ==> Sooner(lane, rows, more[i], c)
    {
      assert more[..i] == due[..i];
      if i == |due| {
        assert due[..i] == due;
      }
    }
  }

  /** A completion or release reaches a row only with the lease token that is on it. */
  predicate Matches(rows: map<CalendarId, Row>, calendar: CalendarId, token: Token) {
    calendar in rows && rows[calendar].leaseToken == Some(token)
  }

  lemma CompleteOneMore(rows: map<CalendarId, Row>, now: Timestamp, applied: map<CalendarId, Completion>, c: CalendarId, completion: Completion)
    requires c !in applied && Matches(rows, c, completion.leaseToken)
    ensures var effect := Effect(rows, now, Complete(applied));
            && effect[c] == rows[c]
            && Effect(rows, now, Complete(applied[c := completion])) == effect[c := CompleteRow(rows[c], now, completion)]
  {
  }

  lemma ReleaseOneMore(rows: map<CalendarId, Row>, now: Timestamp, tokens: map<CalendarId, Token>, c: CalendarId, token: Token)
    requires c !in tokens && Matches(rows, c, token)
    ensures var effect := Effect(rows, now, Release(tokens));
            effect[c] == rows[c] && Effect(rows, now, Release(tokens[c := token])) == effect[c := ReleaseRow(rows[c], now)]
  {
  }

  class ScheduleTable {
    var rows: map<CalendarId, Row>

    constructor (initial: map<CalendarId, Row>)
      ensures rows == initial
    {
      rows := initial;
    }

    /**
      The `due` subquery: ORDER BY ... LIMIT ... FOR UPDATE SKIP LOCKED.  `locked` are the rows
      other transactions have locked; they are passed over.
    */
    method SelectDue(lane: Lane, limit: int, now: Timestamp, locked: set<CalendarId>) returns (due: seq<CalendarId>)
      ensures EarliestFirst(lane, rows, Claimable(rows, lane, now, locked), due)
      ensures |due| == Limited(limit, |Claimable(rows, lane, now, locked)|)
    {
      due := [];
      var rest := Claimable(rows, lane, now, locked);
      ghost var free := rest;
      while rest != {} && |due| < limit
        invariant rest <= free && forall c :: c in rest <==> c in free && c !in due
        invariant |rest| == |free| - |due|
        invariant |due| <= limit || due == []
        invariant EarliestFirst(lane, rows, free, due)
      {
        var next := Earliest(lane, rest);
        TakeNext(lane, rows, free, due, next);
        due := due + [next];
        rest := rest - {next};
      }
    }

    method Earliest(lane: Lane, candidates: set<CalendarId>) returns (next: CalendarId)
      requires candidates != {} && forall c :: c in candidates ==> c in rows && Reference(lane, rows[c]).Some?
      ensures next in candidates
      ensures forall c :: c in candidates ==> Sooner(lane, rows, next, c)
    {
      next :| next in candidates;
      var rest := candidates - {next};
      while rest != {}
        invariant next in candidates && rest <= candidates
        invariant forall c :: c in candidates && c !in rest ==> Sooner(lane, rows, next, c)
      {
        var c :| c in rest;
        if Reference(lane, rows[c]).value < Reference(lane, rows[next]).value {
          next := c;
        }
        rest := rest - {c};
      }
    }

    method LeaseRows(lane: Lane, leaseMs: int, token: Token, now: Timestamp, due: seq<CalendarId>) returns (claims: seq<ClaimedIngest>)
      requires forall i :: 0 <= i < |due| ==> due[i] in rows && due[i] !in due[..i]
      modifies this
      ensures |claims| == |due| && forall i :: 0 <= i < |due| ==> claims[i] == ClaimOf(due[i], lane, old(rows)[due[i]], now, token)
      ensures rows == Effect(old(rows), now, Claim(lane, leaseMs, token, set c | c in due))
    {
      claims := [];
      while |claims| < |due|
        invariant |claims| <= |due|
        invariant forall i :: 0 <= i < |claims| ==> claims[i] == ClaimOf(due[i], lane, old(rows)[due[i]], now, token)
        invariant rows == Effect(old(rows), now, Claim(lane, leaseMs, token, set c | c in due[..|claims|]))
      {
        var c := due[|claims|];
        assert due[..|claims| + 1] == due[..|claims|] + [c];
        claims := claims + [ClaimOf(c, lane, rows[c], now, token)];
        rows := rows[c := ClaimRow(rows[c], now, leaseMs, token)];
      }
      assert due[..|claims|] == due;
    }

    /** Exactly the selected rows are leased, and each claim reports its row as it was before. */
    method ClaimIngests(lane: Lane, leaseMs: int, token: Token, limit: int, now: Timestamp, locked: set<CalendarId>)
      returns (due: seq<CalendarId>, claims: seq<ClaimedIngest>)
      modifies this
      ensures EarliestFirst(lane, old(rows), Claimable(old(rows), lane, now, locked), due)
      ensures |due| == Limited(limit, |Claimable(old(rows), lane, now, locked)|)
      ensures |claims| == |due| && forall i :: 0 <= i < |due| ==>
                due[i] in old(rows) && claims[i] == ClaimOf(due[i], lane, old(rows)[due[i]], now, token)
      ensures forall i :: 0 <= i < |due| ==> Reports(claims[i], due[i], lane, old(rows), now, token)
      ensures rows == Effect(old(rows), now, Claim(lane, leaseMs, token, set c | c in due))
    {
      due := SelectDue(lane, limit, now, locked);
      assert forall i :: 0 <= i < |due| ==> due[i] in Claimable(rows, lane, now, locked);
      claims := LeaseRows(lane, leaseMs, token, now, due);
    }

    /**
      Every row whose token some completion carries is written once, by such a completion, and
      no other row changes.  `applied` says which completion was used where.
    */
    method CompleteIngests(completions: seq<Completion>, now: Timestamp)
      returns (written: set<CalendarId>, ghost applied: map<CalendarId, Completion>)
      modifies this
      ensures written == set i | 0 <= i < |completions| && Matches(old(rows), completions[i].calendarId, completions[i].leaseToken)
                           :: completions[i].calendarId
      ensures applied.Keys == written
      ensures forall c :: c in applied ==>
                applied[c] in completions && applied[c].calendarId == c && Matches(old(rows), c, applied[c].leaseToken)
      ensures rows == Effect(old(rows), now, Complete(applied))
    {
      written, applied := {}, map[];
      var n := 0;
      while n < |completions|
        invariant 0 <= n <= |completions|
        invariant written == set i | 0 <= i < n && Matches(old(rows), completions[i].calendarId, completions[i].leaseToken)
                               :: completions[i].calendarId
        invariant applied.Keys == written
        invariant forall c :: c in applied ==>
                    applied[c] in completions && applied[c].calendarId == c && Matches(old(rows), c, applied[c].leaseToken)
        invariant rows == Effect(old(rows), now, Complete(applied))
      {
        var completion := completions[n];
        var c := completion.calendarId;
        if c in rows && rows[c].leaseToken == Some(completion.leaseToken) {
          CompleteOneMore(old(rows), now, applied, c, completion);
          rows := rows[c := CompleteRow(rows[c], now, completion)];
          written, applied := written + {c}, applied[c := completion];
        }
        n := n + 1;
      }
    }

    /** A calendar listed twice is still woken once, and a parked row is not woken at all. */
    method WakeIngests(calendars: seq<CalendarId>, input: WakeInput, now: Timestamp) returns (woken: set<CalendarId>)
      modifies this
      ensures woken == set c | c in calendars && c in old(rows) && old(rows)[c].dueAt.Some?
      ensures rows == Effect(old(rows), now, Wake((set c | c in calendars), input))
    {
      woken := {};
      var n := 0;
      while n < |calendars|
        invariant 0 <= n <= |calendars|
        invariant woken == set c | c in calendars[..n] && c in old(rows) && old(rows)[c].dueAt.Some?
        invariant rows == Effect(old(rows), now, Wake((set c | c in calendars[..n]), input))
      {
        var c := calendars[n];
        assert calendars[..n + 1] == calendars[..n] + [c];
        if c in rows && rows[c].dueAt.Some? && c !in woken {
          rows := rows[c := WakeRow(rows[c], now, input)];
          woken := woken + {c};
        }
        n := n + 1;
      }
      assert calendars[..n] == calendars;
    }

    method ReleaseIngests(claims: seq<(CalendarId, Token)>, now: Timestamp)
      returns (released: set<CalendarId>, ghost tokens: map<CalendarId, Token>)
      modifies this
      ensures released == set i | 0 <= i < |claims| && Matches(old(rows), claims[i].0, claims[i].1) :: claims[i].0
      ensures tokens.Keys == released && forall c :: c in tokens ==> (c, tokens[c]) in claims && Matches(old(rows), c, tokens[c])
      ensures rows == Effect(old(rows), now, Release(tokens))
    {
      released, tokens := {}, map[];
      var n := 0;
      while n < |claims|
        invariant 0 <= n <= |claims|
        invariant released == set i | 0 <= i < n && Matches(old(rows), claims[i].0, claims[i].1) :: claims[i].0
        invariant tokens.Keys == released && forall c :: c in tokens ==> (c, tokens[c]) in claims && Matches(old(rows), c, tokens[c])
        invariant rows == Effect(old(rows), now, Release(tokens))
      {
        var (c, token) := claims[n];
        if c in rows && rows[c].leaseToken == Some(token) {
          ReleaseOneMore(old(rows), now, tokens, c, token);
          assert claims[n] == (c, token);
          rows := rows[c := ReleaseRow(rows[c], now)];
          released, tokens := released + {c}, tokens[c := token];
        }
        n := n + 1;
      }
    }
  }

  // ---------------------------------------------------------------------------------------
  // Runs
  // ---------------------------------------------------------------------------------------

  /** `issued[token]` is what the claim with that token returned, by calendar. */
  datatype State = State(now: Timestamp, rows: map<CalendarId, Row>, issued: map<Token, map<CalendarId, ClaimedIngest>>)

  /** The completion was built from the claim it answers. */
  predicate Answers(s: State, calendar: CalendarId, c: Completion) {
    && c.leaseToken in s.issued && calendar in s.issued[c.leaseToken]
    && var claim := s.issued[c.leaseToken][calendar];
       c.claimedReleaseSeq == claim.releaseSeq && c.claimedWakeSeq == claim.wakeSeq
  }

  /** Lease tokens are fresh, and completions and releases carry a token that was issued. */
  predicate Enabled(s: State, step: Step) {
    match step
    case Claim(lane, _, token, picked) =>
      token !in s.issued && forall c :: c in picked ==> c in s.rows && Eligible(lane, s.rows[c], s.now)
    case Complete(completions) => forall c :: c in completions ==> Answers(s, c, completions[c])
    case Release(tokens) => forall c :: c in tokens ==> tokens[c] in s.issued
    case _ => true
  }

  function Next(s: State, step: Step): State
    requires Enabled(s, step)
  {
    State(
      if step.Tick? then s.now + step.elapsed else s.now,
      Effect(s.rows, s.now, step),
      if step.Claim?
      then s.issued[step.token := map c | c in step.picked :: ClaimOf(c, step.lane, s.rows[c], s.now, step.token)]
      else s.issued)
  }

  datatype Run = Run(states: seq<State>, steps: seq<Step>)

  /** Runs start from any table; leases already on it belong to claims that are not settled any more. */
  ghost predicate IsRun(r: Run) {
    && |r.states| == |r.steps| + 1
    && r.states[0].issued == map[]
    && forall i :: 0 <= i < |r.steps| ==> Enabled(r.states[i], r.steps[i]) && r.states[i + 1] == Next(r.states[i], r.steps[i])
  }

  lemma {:induction false} RowsAndClock(r: Run, i: nat, j: nat)
    requires IsRun(r) && i <= j < |r.states|
    ensures r.states[i].rows.Keys == r.states[j].rows.Keys
    ensures r.states[i].now <= r.states[j].now
    decreases j - i
  {
    if i < j {
      RowsAndClock(r, i, j - 1);
    }
  }

  ghost predicate Claims(r: Run, i: nat, calendar: CalendarId)
    requires IsRun(r)
  {
    i < |r.steps| && r.steps[i].Claim? && calendar in r.steps[i].picked
  }

  /** Step i writes the calendar's row by a completion or release that carries this token. */
  ghost predicate SettlesWith(r: Run, i: nat, calendar: CalendarId, token: Token)
    requires IsRun(r) && i < |r.steps| && calendar in r.states[0].rows
  {
    RowsAndClock(r, 0, i);
    && r.states[i].rows[calendar].leaseToken == Some(token)
    && match r.steps[i]
       case Complete(completions) => calendar in completions && completions[calendar].leaseToken == token
       case Release(tokens) => calendar in tokens && tokens[calendar] == token
       case _ => false
  }

  ghost function RowAt(r: Run, i: nat, calendar: CalendarId): Row
    requires IsRun(r) && i < |r.states| && calendar in r.states[0].rows
  {
    RowsAndClock(r, 0, i);
    r.states[i].rows[calendar]
  }

  /** One step seen from one row. */
  lemma RowStep(r: Run, i: nat, calendar: CalendarId)
    requires IsRun(r) && i < |r.steps| && calendar in r.states[0].rows
    ensures RowAt(r, i + 1, calendar) == RowAfter(calendar, RowAt(r, i, calendar), r.states[i].now, r.steps[i])
    ensures Claims(r, i, calendar) ==> Eligible(r.steps[i].lane, RowAt(r, i, calendar), r.states[i].now)
  {
    RowsAndClock(r, 0, i);
  }

  // --- Exclusive leases -----------------------------------------------------------------

  /** The lease taken at step i is still the one on the row. */
  ghost predicate LeaseStands(r: Run, i: nat, j: nat, calendar: CalendarId)
    requires IsRun(r) && Claims(r, i, calendar) && j < |r.states| && calendar in r.states[0].rows
  {
    var row := RowAt(r, j, calendar);
    row.leaseToken == Some(r.steps[i].token) && row.leasedUntil == Some(r.states[i].now + r.steps[i].leaseMs)
  }

  lemma {:induction false} LeaseStandsUntil(r: Run, i: nat, j: nat, calendar: CalendarId)
    requires IsRun(r) && Claims(r, i, calendar) && i < j < |r.states| && calendar in r.states[0].rows
    requires forall k :: i < k < j ==> !SettlesWith(r, k, calendar, r.steps[i].token)
    requires forall k :: i < k < j && Claims(r, k, calendar) ==> r.states[k].now < r.states[i].now + r.steps[i].leaseMs
    ensures LeaseStands(r, i, j, calendar)
    decreases j
  {
    RowStep(r, j - 1, calendar);
    if j > i + 1 {
      LeaseStandsUntil(r, i, j - 1, calendar);
      assert !SettlesWith(r, j - 1, calendar, r.steps[i].token);
    }
  }

  /**
    Exclusive leases: when a second claim takes a calendar before the first claim's lease has
    run out, a completion or release with the first claim's token came in between.
  */
  lemma ExclusiveLeases(r: Run, i: nat, j: nat, calendar: CalendarId)
    requires IsRun(r) && Claims(r, i, calendar) && Claims(r, j, calendar) && i < j && calendar in r.states[0].rows
    requires r.states[j].now < r.states[i].now + r.steps[i].leaseMs
    ensures exists k :: i < k < j && SettlesWith(r, k, calendar, r.steps[i].token)
  {
    forall k | i < k < j
      ensures r.states[k].now < r.states[i].now + r.steps[i].leaseMs
    {
      RowsAndClock(r, k, j);
    }
    if forall k :: i < k < j ==> !SettlesWith(r, k, calendar, r.steps[i].token) {
      LeaseStandsUntil(r, i, j, calendar);
      RowStep(r, j, calendar);
      assert false;
    }
  }

  /** What a claim returned never changes, and its token is never issued again. */
  lemma {:induction false} IssuedStays(r: Run, i: nat, j: nat, token: Token)
    requires IsRun(r) && i <= j < |r.states| && token in r.states[i].issued
    ensures token in r.states[j].issued && r.states[j].issued[token] == r.states[i].issued[token]
    decreases j
  {
    if i < j {
      IssuedStays(r, i, j - 1, token);
    }
  }

  /** Once a row has lost a token that was issued for it, it never carries that token again. */
  lemma {:induction false} LostTokenStaysLost(r: Run, i: nat, j: nat, calendar: CalendarId, token: Token)
    requires IsRun(r) && i <= j < |r.states| && calendar in r.states[0].rows
    requires token in r.states[i].issued && RowAt(r, i, calendar).leaseToken != Some(token)
    ensures RowAt(r, j, calendar).leaseToken != Some(token)
    decreases j
  {
    if i < j {
      LostTokenStaysLost(r, i, j - 1, calendar, token);
      IssuedStays(r, i, j - 1, token);
      RowStep(r, j - 1, calendar);
    }
  }

  /**
    A superseded token is powerless: after a second claim, or after the first claim was settled,
    no completion or release with the first token changes the row.
  */
  lemma SupersededTokenChangesNothing(r: Run, i: nat, j: nat, k: nat, calendar: CalendarId)
    requires IsRun(r) && Claims(r, i, calendar) && i < j < k < |r.steps| && calendar in r.states[0].rows
    requires Claims(r, j, calendar) || SettlesWith(r, j, calendar, r.steps[i].token)
    requires match r.steps[k]
             case Complete(completions) => calendar in completions ==> completions[calendar].leaseToken == r.steps[i].token
             case Release(tokens) => calendar in tokens ==> tokens[calendar] == r.steps[i].token
             case _ => false
    ensures RowAt(r, k + 1, calendar) == RowAt(r, k, calendar)
  {
    var token := r.steps[i].token;
    assert token in r.states[i + 1].issued;
    IssuedStays(r, i + 1, j, token);
    IssuedStays(r, i + 1, j + 1, token);
    RowStep(r, j, calendar);
    LostTokenStaysLost(r, j + 1, k, calendar, token);
    RowStep(r, k, calendar);
  }

  /**
    An abandoned claim comes back by itself: with no settlement, other claim or outside release
    since, the row is fleet-claimable exactly from the end of the lease on, and no lane can
    take it before.
  */
  lemma {:induction false} AbandonedClaimReturns(r: Run, i: nat, j: nat, calendar: CalendarId)
    requires IsRun(r) && Claims(r, i, calendar) && i < j < |r.states| && calendar in r.states[0].rows
    requires forall k :: i < k < j ==>
               && !Claims(r, k, calendar) && !SettlesWith(r, k, calendar, r.steps[i].token)
               && !(r.steps[k].Outside? && r.steps[k].calendar == calendar)
    ensures RowAt(r, j, calendar).dueAt == RowAt(r, j, calendar).leasedUntil == Some(r.states[i].now + r.steps[i].leaseMs)
    ensures Eligible(Fleet, RowAt(r, j, calendar), r.states[j].now) <==> r.states[i].now + r.steps[i].leaseMs <= r.states[j].now
    ensures Eligible(WakeLane, RowAt(r, j, calendar), r.states[j].now) ==> r.states[i].now + r.steps[i].leaseMs <= r.states[j].now
    decreases j
  {
    LeaseStandsUntil(r, i, j, calendar);
    RowStep(r, j - 1, calendar);
    if j > i + 1 {
      AbandonedClaimReturns(r, i, j - 1, calendar);
      LeaseStandsUntil(r, i, j - 1, calendar);
      assert !SettlesWith(r, j - 1, calendar, r.steps[i].token);
    }
  }

  // --- Back-off ---------------------------------------------------------------------------

  /** Step i applies a failing completion that defers the calendar by d. */
  ghost predicate BacksOff(r: Run, i: nat, calendar: CalendarId, d: int)
    requires IsRun(r) && calendar in r.states[0].rows
  {
    && i < |r.steps| && r.steps[i].Complete? && calendar in r.steps[i].completions
    && var c := r.steps[i].completions[calendar];
       && RowAt(r, i, calendar).leaseToken == Some(c.leaseToken)
       && RowAt(r, i, calendar).releaseSeq == c.claimedReleaseSeq
       && c.failureCount > 0 && c.nextDueInMs == Some(d)
  }

  ghost predicate Deferred(row: Row, until: Timestamp) {
    row.dueAt == Some(until) && row.failureCount > 0 && row.leaseToken.None?
  }

  lemma DeferredStep(calendar: CalendarId, row: Row, now: Timestamp, step: Step, until: Timestamp)
    requires Deferred(row, until) && now < until
    requires !(step.Outside? && step.calendar == calendar)
    requires step.Claim? && calendar in step.picked ==> Eligible(step.lane, row, now)
    ensures Deferred(RowAfter(calendar, row, now, step), until)
  {
  }

  lemma BackOffStarts(r: Run, i: nat, calendar: CalendarId, d: int)
    requires IsRun(r) && calendar in r.states[0].rows && BacksOff(r, i, calendar, d)
    ensures Deferred(RowAt(r, i + 1, calendar), r.states[i].now + d)
  {
    RowStep(r, i, calendar);
  }

  lemma {:induction false} BackOffStands(r: Run, i: nat, j: nat, calendar: CalendarId, d: int)
    requires IsRun(r) && calendar in r.states[0].rows && BacksOff(r, i, calendar, d) && i < j < |r.states|
    requires forall k :: i < k < j ==> !(r.steps[k].Outside? && r.steps[k].calendar == calendar)
    ensures r.states[j].now < r.states[i].now + d ==> Deferred(RowAt(r, j, calendar), r.states[i].now + d)
    decreases j
  {
    if j == i + 1 {
      BackOffStarts(r, i, calendar, d);
    } else if r.states[j].now < r.states[i].now + d {
      RowsAndClock(r, j - 1, j);
      BackOffStands(r, i, j - 1, calendar, d);
      RowStep(r, j - 1, calendar);
      DeferredStep(calendar, RowAt(r, j - 1, calendar), r.states[j - 1].now, r.steps[j - 1], r.states[i].now + d);
    }
  }

  /**
    No wake beats back-off: after a failing completion with delay d no lane claims the calendar
    within d, however many wakes arrive, unless the calendar is released from outside.
  */
  lemma BackOffHolds(r: Run, i: nat, j: nat, calendar: CalendarId, d: int)
    requires IsRun(r) && calendar in r.states[0].rows && BacksOff(r, i, calendar, d) && i < j && Claims(r, j, calendar)
    requires forall k :: i < k < j ==> !(r.steps[k].Outside? && r.steps[k].calendar == calendar)
    ensures r.states[i].now + d <= r.states[j].now
  {
    BackOffStands(r, i, j, calendar, d);
    RowStep(r, j, calendar);
  }

  // --- No wake is lost ----------------------------------------------------------------------

  ghost predicate AcceptsWake(r: Run, i: nat, calendar: CalendarId)
    requires IsRun(r) && calendar in r.states[0].rows
  {
    i < |r.steps| && r.steps[i].Wake? && calendar in r.steps[i].calendars && RowAt(r, i, calendar).dueAt.Some?
  }

  lemma {:induction false} WakeSeqGrows(r: Run, i: nat, j: nat, calendar: CalendarId)
    requires IsRun(r) && calendar in r.states[0].rows && i <= j < |r.states|
    ensures RowAt(r, i, calendar).wakeSeq <= RowAt(r, j, calendar).wakeSeq
    decreases j
  {
    if i < j {
      WakeSeqGrows(r, i, j - 1, calendar);
      RowStep(r, j - 1, calendar);
    }
  }

  /** Every issued claim was made at some step, and recorded the wake sequence of that moment. */
  lemma {:induction false} IssuedAt(r: Run, j: nat, token: Token, calendar: CalendarId) returns (m: nat)
    requires IsRun(r) && j < |r.states| && calendar in r.states[0].rows
    requires token in r.states[j].issued && calendar in r.states[j].issued[token]
    ensures m < j && Claims(r, m, calendar) && r.steps[m].token == token
    ensures r.states[j].issued[token][calendar].wakeSeq == RowAt(r, m, calendar).wakeSeq
  {
    var s := r.states[j - 1];
    if token in s.issued {
      assert r.states[j].issued[token] == s.issued[token];
      m := IssuedAt(r, j - 1, token, calendar);
    } else {
      m := j - 1;
    }
  }

  /** Step k is an attempted completion of the read claimed at step m. */
  ghost predicate CompletesReadOf(r: Run, m: nat, k: nat, calendar: CalendarId)
    requires IsRun(r) && calendar in r.states[0].rows
  {
    && Claims(r, m, calendar) && k < |r.steps| && SettlesWith(r, k, calendar, r.steps[m].token)
    && r.steps[k].Complete? && r.steps[k].completions[calendar].attempted
  }

  /**
    No wake is lost: an accepted wake keeps `wakeDueAt` set until an attempted read that was
    claimed after the wake completes.
  */
  lemma {:induction false} NoWakeIsLost(r: Run, i: nat, j: nat, calendar: CalendarId) returns (m: nat, k: nat)
    requires IsRun(r) && calendar in r.states[0].rows && AcceptsWake(r, i, calendar) && i < j < |r.states|
    requires RowAt(r, j, calendar).wakeDueAt.None?
    ensures i < m < k < j && CompletesReadOf(r, m, k, calendar)
    decreases j
  {
    RowStep(r, j - 1, calendar);
    if i + 1 < j && RowAt(r, j - 1, calendar).wakeDueAt.None? {
      m, k := NoWakeIsLost(r, i, j - 1, calendar);
    } else {
      k := j - 1;
      var row := RowAt(r, k, calendar);
      var completion := r.steps[k].completions[calendar];
      m := IssuedAt(r, k, completion.leaseToken, calendar);
      RowStep(r, i, calendar);
      WakeSeqGrows(r, i + 1, k, calendar);
      if m <= i {
        WakeSeqGrows(r, m, i, calendar);
        assert false;
      }
    }
  }

  /** The time a pending wake was received is the time of an accepted wake. */
  lemma {:induction false} ReceivedTimeNamesAWake(r: Run, j: nat, calendar: CalendarId) returns (i: nat)
    requires IsRun(r) && calendar in r.states[0].rows && j < |r.states|
    requires RowAt(r, 0, calendar).wakeReceivedAt.None? && RowAt(r, j, calendar).wakeReceivedAt.Some?
    ensures i < j && AcceptsWake(r, i, calendar) && r.states[i].now == RowAt(r, j, calendar).wakeReceivedAt.value
    decreases j
  {
    RowStep(r, j - 1, calendar);
    if RowAt(r, j - 1, calendar).wakeReceivedAt == RowAt(r, j, calendar).wakeReceivedAt {
      i := ReceivedTimeNamesAWake(r, j - 1, calendar);
    } else {
      i := j - 1;
    }
  }

  // --- Parking and outside releases -----------------------------------------------------------

  ghost predicate ReleasedOutside(r: Run, i: nat, calendar: CalendarId)
    requires IsRun(r)
  {
    i < |r.steps| && r.steps[i].Outside? && r.steps[i].calendar == calendar
  }

  /** Step i applies a completion that leaves the calendar without a due time. */
  ghost predicate Parks(r: Run, i: nat, calendar: CalendarId)
    requires IsRun(r) && calendar in r.states[0].rows
  {
    && i < |r.steps| && r.steps[i].Complete? && calendar in r.steps[i].completions
    && var c := r.steps[i].completions[calendar];
       && RowAt(r, i, calendar).leaseToken == Some(c.leaseToken)
       && RowAt(r, i, calendar).releaseSeq == c.claimedReleaseSeq
       && c.nextDueInMs.None?
  }

  lemma {:induction false} ParkedStands(r: Run, i: nat, j: nat, calendar: CalendarId)
    requires IsRun(r) && calendar in r.states[0].rows && Parks(r, i, calendar) && i < j < |r.states|
    requires forall k :: i < k < j ==> !ReleasedOutside(r, k, calendar)
    ensures RowAt(r, j, calendar).dueAt.None? && RowAt(r, j, calendar).leaseToken.None?
    decreases j
  {
    RowStep(r, j - 1, calendar);
    if j > i + 1 {
      ParkedStands(r, i, j - 1, calendar);
      assert !ReleasedOutside(r, j - 1, calendar);
    }
  }

  /** A parked calendar is neither claimed nor woken until it is released from outside. */
  lemma ParkedIsLeftAlone(r: Run, i: nat, j: nat, calendar: CalendarId)
    requires IsRun(r) && calendar in r.states[0].rows && Parks(r, i, calendar) && i < j
    requires forall k :: i < k < j ==> !ReleasedOutside(r, k, calendar)
    ensures !Claims(r, j, calendar) && !AcceptsWake(r, j, calendar)
  {
    if j < |r.steps| {
      ParkedStands(r, i, j, calendar);
      RowStep(r, j, calendar);
    }
  }

  lemma {:induction false} ReleaseSeqGrows(r: Run, i: nat, j: nat, calendar: CalendarId)
    requires IsRun(r) && calendar in r.states[0].rows && i <= j < |r.states|
    ensures RowAt(r, i, calendar).releaseSeq <= RowAt(r, j, calendar).releaseSeq
    decreases j
  {
    if i < j {
      ReleaseSeqGrows(r, i, j - 1, calendar);
      RowStep(r, j - 1, calendar);
    }
  }

  /** The claim recorded with a token is the row as it was when it was claimed. */
  lemma IssuedClaim(r: Run, m: nat, k: nat, calendar: CalendarId)
    requires IsRun(r) && calendar in r.states[0].rows && Claims(r, m, calendar) && m < k < |r.states|
    ensures var token := r.steps[m].token;
            && token in r.states[k].issued && calendar in r.states[k].issued[token]
            && r.states[k].issued[token][calendar].releaseSeq == RowAt(r, m, calendar).releaseSeq
  {
    RowStep(r, m, calendar);
    assert r.steps[m].token in r.states[m + 1].issued;
    IssuedStays(r, m + 1, k, r.steps[m].token);
  }

  /**
    An outside release that happens during a read is never overwritten: when the read completes,
    the row keeps its due time, parked reason and failure count.
  */
  lemma OutsideReleaseSurvives(r: Run, m: nat, i: nat, k: nat, calendar: CalendarId)
    requires IsRun(r) && calendar in r.states[0].rows && Claims(r, m, calendar) && m < i < k < |r.steps|
    requires ReleasedOutside(r, i, calendar)
    requires SettlesWith(r, k, calendar, r.steps[m].token) && r.steps[k].Complete?
    ensures var (before, after) := (RowAt(r, k, calendar), RowAt(r, k + 1, calendar));
            && after.dueAt == before.dueAt && after.parkedReason == before.parkedReason
            && after.failureCount == before.failureCount && after.lastFailureAt == before.lastFailureAt
            && after.leaseToken.None? && after.leasedUntil.None?
  {
    RowStep(r, i, calendar);
    RowStep(r, k, calendar);
    ReleaseSeqGrows(r, m, i, calendar);
    ReleaseSeqGrows(r, i + 1, k, calendar);
    IssuedClaim(r, m, k, calendar);
    assert Answers(r.states[k], calendar, r.steps[k].completions[calendar]);
  }

  // --- What each statement leaves behind ------------------------------------------------------

  /** The step does not write the calendar's row. */
  predicate LeavesAlone(step: Step, calendar: CalendarId) {
    match step
    case Claim(_, _, _, picked) => calendar !in picked
    case Complete(completions) => calendar !in completions
    case Wake(calendars, _) => calendar !in calendars
    case Release(tokens) => calendar !in tokens
    case Outside(c, _, _, _) => c != calendar
    case Tick(_) => true
  }

  lemma {:induction false} UntouchedRow(r: Run, i: nat, j: nat, calendar: CalendarId)
    requires IsRun(r) && calendar in r.states[0].rows && i <= j < |r.states|
    requires forall k :: i <= k < j ==> LeavesAlone(r.steps[k], calendar)
    ensures RowAt(r, j, calendar) == RowAt(r, i, calendar)
    decreases j
  {
    if i < j {
      UntouchedRow(r, i, j - 1, calendar);
      RowStep(r, j - 1, calendar);
    }
  }

  /** Step i applies this completion: its token is the one on the row. */
  ghost predicate Applies(r: Run, i: nat, calendar: CalendarId, c: Completion)
    requires IsRun(r) && calendar in r.states[0].rows
  {
    && i < |r.steps| && r.steps[i].Complete? && calendar in r.steps[i].completions
    && r.steps[i].completions[calendar] == c && RowAt(r, i, calendar).leaseToken == Some(c.leaseToken)
  }

  /**
    What an applied completion leaves on the row.  The lease is gone.  Due time, parked reason and
    failure count are those it carries, unless the calendar was released meanwhile.  A success is
    dated now; a failure too, unless released.  The wake is cleared exactly by an attempted read
    that saw the latest wake; a read that was not attempted defers it to the next due time.
  */
  lemma CompletionOutcome(r: Run, i: nat, calendar: CalendarId, c: Completion)
    requires IsRun(r) && calendar in r.states[0].rows && Applies(r, i, calendar, c)
    ensures var (before, after, now) := (RowAt(r, i, calendar), RowAt(r, i + 1, calendar), r.states[i].now);
            var released := before.releaseSeq != c.claimedReleaseSeq;
            && after.leaseToken.None? && after.leasedUntil.None?
            && (!released && c.nextDueInMs.Some? ==> after.dueAt == Some(now + c.nextDueInMs.value))
            && (!released && c.nextDueInMs.None? ==> after.dueAt.None?)
            && (!released ==> after.failureCount == c.failureCount && after.parkedReason == c.parkedReason)
            && (released ==>
                  after.dueAt == before.dueAt && after.failureCount == before.failureCount && after.parkedReason == before.parkedReason)
            && after.lastSuccessAt == (if c.succeeded then Some(now) else before.lastSuccessAt)
            && after.lastFailureAt == (if c.failed && !released then Some(now) else before.lastFailureAt)
            && after.lastAttemptAt == before.lastAttemptAt && after.releaseSeq == before.releaseSeq && after.wakeSeq == before.wakeSeq
            && (if c.attempted && before.wakeSeq == c.claimedWakeSeq
                then after.wakeDueAt.None? && after.wakeReceivedAt.None? && after.wakeCorrelationId.None?
                else after.wakeReceivedAt == before.wakeReceivedAt && after.wakeCorrelationId == before.wakeCorrelationId)
            && (c.attempted && before.wakeSeq != c.claimedWakeSeq ==> after.wakeDueAt == before.wakeDueAt)
            && (!c.attempted && c.nextDueInMs.None? ==> after.wakeDueAt == before.wakeDueAt)
            && (!c.attempted && c.nextDueInMs.Some? ==>
                  && after.wakeDueAt.Some? && now + c.nextDueInMs.value <= after.wakeDueAt.value
                  && (before.wakeDueAt.Some? ==> before.wakeDueAt.value <= after.wakeDueAt.value)
                  && (after.wakeDueAt == before.wakeDueAt || after.wakeDueAt.value == now + c.nextDueInMs.value))
  {
    RowStep(r, i, calendar);
  }

  /** The due time, the failures and the free lease of a row, which wakes do not touch. */
  ghost predicate Idle(row: Row, dueAt: Option<Timestamp>, failureCount: int) {
    row.dueAt == dueAt && row.failureCount == failureCount && row.leaseToken.None? && row.leasedUntil.None?
  }

  lemma {:induction false} IdleStands(r: Run, i: nat, j: nat, calendar: CalendarId, dueAt: Option<Timestamp>, failureCount: int)
    requires IsRun(r) && calendar in r.states[0].rows && i <= j < |r.states| && Idle(RowAt(r, i, calendar), dueAt, failureCount)
    requires forall k :: i <= k < j ==> !Claims(r, k, calendar) && !ReleasedOutside(r, k, calendar)
    ensures Idle(RowAt(r, j, calendar), dueAt, failureCount)
    decreases j
  {
    if i < j {
      IdleStands(r, i, j - 1, calendar, dueAt, failureCount);
      RowStep(r, j - 1, calendar);
    }
  }

  /** A lane may take the row in state j. */
  ghost predicate CanClaim(r: Run, j: nat, lane: Lane, calendar: CalendarId)
    requires IsRun(r) && j < |r.states|
  {
    forall token, leaseMs :: token !in r.states[j].issued ==> Enabled(r.states[j], Claim(lane, leaseMs, token, {calendar}))
  }

  lemma {:induction false} FreshTokenExists(tokens: set<Token>) returns (token: Token)
    ensures token !in tokens
  {
    token := "";
    var rest := tokens;
    while rest != {}
      invariant rest <= tokens
      invariant forall t :: t in tokens && t !in rest ==> |t| < |token|
    {
      var t :| t in rest;
      if |t| >= |token| {
        token := t + "x";
      }
      rest := rest - {t};
    }
  }

  lemma CanClaimMeansEligible(r: Run, j: nat, lane: Lane, calendar: CalendarId)
    requires IsRun(r) && j < |r.states| && calendar in r.states[0].rows
    ensures CanClaim(r, j, lane, calendar) <==> Eligible(lane, RowAt(r, j, calendar), r.states[j].now)
  {
    RowsAndClock(r, 0, j);
    if CanClaim(r, j, lane, calendar) {
      var token := FreshTokenExists(r.states[j].issued.Keys);
      assert Enabled(r.states[j], Claim(lane, 0, token, {calendar}));
    }
  }

  /**
    The ordinary cycle: after a completion with delay d, successful or not, the fleet lane can
    take the calendar exactly from d later on, however many wakes arrive, until somebody claims it
    or releases it from outside.
  */
  lemma DueAgainAfterDelay(r: Run, i: nat, j: nat, calendar: CalendarId, c: Completion, d: int)
    requires IsRun(r) && calendar in r.states[0].rows && Applies(r, i, calendar, c) && i < j < |r.states|
    requires RowAt(r, i, calendar).releaseSeq == c.claimedReleaseSeq && c.nextDueInMs == Some(d)
    requires forall k :: i < k < j ==> !Claims(r, k, calendar) && !ReleasedOutside(r, k, calendar)
    ensures RowAt(r, j, calendar).dueAt == Some(r.states[i].now + d)
    ensures CanClaim(r, j, Fleet, calendar) <==> r.states[i].now + d <= r.states[j].now
  {
    CompletionOutcome(r, i, calendar, c);
    IdleStands(r, i + 1, j, calendar, Some(r.states[i].now + d), c.failureCount);
    CanClaimMeansEligible(r, j, Fleet, calendar);
  }

  /** What a claim leaves: a lease that ends when the row falls due again, and the time of the attempt. */
  lemma ClaimOutcome(r: Run, i: nat, calendar: CalendarId)
    requires IsRun(r) && calendar in r.states[0].rows && Claims(r, i, calendar)
    ensures var (before, after, now, until) :=
              (RowAt(r, i, calendar), RowAt(r, i + 1, calendar), r.states[i].now, r.states[i].now + r.steps[i].leaseMs);
            after == before.(dueAt := Some(until), leasedUntil := Some(until), leaseToken := Some(r.steps[i].token),
                             lastAttemptAt := Some(now))
  {
    RowStep(r, i, calendar);
  }

  /**
    What an accepted wake leaves.  It is due at the earlier of its own deadline and that of a wake
    already pending, and counted.  It takes over the received time and correlation id from a wake
    that the read in progress, begun since, already covers; otherwise the first wake keeps them.
  */
  lemma WakeOutcome(r: Run, i: nat, calendar: CalendarId)
    requires IsRun(r) && calendar in r.states[0].rows && AcceptsWake(r, i, calendar)
    ensures var (before, after, now, input) := (RowAt(r, i, calendar), RowAt(r, i + 1, calendar), r.states[i].now, r.steps[i].input);
            var deadline := now + input.debounceMs;
            var reading := before.leasedUntil.Some? && now < before.leasedUntil.value;
            var covered := before.wakeReceivedAt.None?
                           || (before.lastAttemptAt.Some? && before.wakeReceivedAt.value <= before.lastAttemptAt.value);
            && after.wakeDueAt.Some? && after.wakeDueAt.value <= deadline
            && (before.wakeDueAt.None? ==> after.wakeDueAt.value == deadline)
            && (before.wakeDueAt.Some? ==>
                  && after.wakeDueAt.value <= before.wakeDueAt.value
                  && (after.wakeDueAt.value == deadline || after.wakeDueAt == before.wakeDueAt))
            && after.wakeReceivedAt == (if (reading && covered) || before.wakeReceivedAt.None? then Some(now) else before.wakeReceivedAt)
            && after.wakeCorrelationId
               == (if (reading && covered) || before.wakeCorrelationId.None? then input.correlationId else before.wakeCorrelationId)
            && after.wakeSeq == before.wakeSeq + 1
            && after == before.(wakeDueAt := after.wakeDueAt, wakeReceivedAt := after.wakeReceivedAt,
                                wakeCorrelationId := after.wakeCorrelationId, wakeSeq := after.wakeSeq)
  {
    RowStep(r, i, calendar);
  }

  /**
    An accepted wake becomes claimable: while nothing else writes the row, the wake lane can take
    it exactly from the earlier deadline on, once no lease is running and, after failures, the
    back-off has passed.
  */
  lemma WakeBecomesClaimable(r: Run, i: nat, j: nat, calendar: CalendarId)
    requires IsRun(r) && calendar in r.states[0].rows && AcceptsWake(r, i, calendar) && i < j < |r.states|
    requires forall k :: i < k < j ==> LeavesAlone(r.steps[k], calendar)
    ensures var (before, now, now') := (RowAt(r, i, calendar), r.states[i].now, r.states[j].now);
            CanClaim(r, j, WakeLane, calendar) <==>
              && (now + r.steps[i].input.debounceMs <= now' || (before.wakeDueAt.Some? && before.wakeDueAt.value <= now'))
              && (before.leasedUntil.None? || before.leasedUntil.value <= now')
              && (before.failureCount == 0 || before.dueAt.value <= now')
  {
    WakeOutcome(r, i, calendar);
    UntouchedRow(r, i + 1, j, calendar);
    CanClaimMeansEligible(r, j, WakeLane, calendar);
  }

  /** A released calendar is due at once and free for the fleet lane, unless it is parked as ineligible. */
  lemma ReleaseOutcome(r: Run, i: nat, calendar: CalendarId, token: Token)
    requires IsRun(r) && calendar in r.states[0].rows && i < |r.steps|
    requires SettlesWith(r, i, calendar, token) && r.steps[i].Release?
    ensures var (before, after) := (RowAt(r, i, calendar), RowAt(r, i + 1, calendar));
            && after.leaseToken.None? && after.leasedUntil.None?
            && after.dueAt == (if before.parkedReason == Some(Ineligible) then None else Some(r.states[i].now))
            && after == before.(dueAt := after.dueAt, leaseToken := None, leasedUntil := None)
    ensures CanClaim(r, i + 1, Fleet, calendar) <==> RowAt(r, i, calendar).parkedReason != Some(Ineligible)
  {
    RowStep(r, i, calendar);
    CanClaimMeansEligible(r, i + 1, Fleet, calendar);
  }
}
