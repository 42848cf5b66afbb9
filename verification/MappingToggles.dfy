/**
  applications/web/src/lib/mapping-toggles.ts: toggles of a source's destinations are shown at
  once and sent to the server one after the other.
*/
module MappingToggles {
  import opened Wrappers

  type CalendarId = nat

  datatype Toggle = Toggle(calendarId: CalendarId, enabled: bool)

  // ---------------------------------------------------------------------------------------
  // Lists of ids
  // ---------------------------------------------------------------------------------------

  /** [...new Set(ids)] */
  function Unique(ids: seq<CalendarId>): (r: seq<CalendarId>)
    ensures forall x :: x in r <==> x in ids
    ensures forall i, j :: 0 <= i < j < |r| ==> r[i] != r[j]
  {
    if ids == [] then []
    else
      var (init, last) := (ids[..|ids| - 1], ids[|ids| - 1]);
      assert ids == init + [last];
      if last in init then Unique(init) else Unique(init) + [last]
  }

  function Except(ids: seq<CalendarId>, id: CalendarId): (r: seq<CalendarId>)
    ensures forall x :: x in r <==> x in ids && x != id
  {
    if ids == [] then []
    else if ids[0] == id then Except(ids[1..], id)
    else [ids[0]] + Except(ids[1..], id)
  }

  function ApplyMappingToggle(ids: seq<CalendarId>, toggle: Toggle): (r: seq<CalendarId>)
    ensures forall x :: x in r <==> if x == toggle.calendarId then toggle.enabled else x in ids
  {
    if toggle.enabled then Unique(ids + [toggle.calendarId]) else Except(ids, toggle.calendarId)
  }

  /** pending.reduce(applyMappingToggle, confirmedIds) */
  function ResolveDisplayedIds(confirmed: seq<CalendarId>, pending: seq<Toggle>): seq<CalendarId>
    decreases |pending|
  {
    if pending == [] then confirmed else ResolveDisplayedIds(ApplyMappingToggle(confirmed, pending[0]), pending[1..])
  }

  /** The latest pending wish for a calendar, if there is one. */
  function LastWish(pending: seq<Toggle>, id: CalendarId): Option<bool> {
    if pending == [] then None
    else if pending[|pending| - 1].calendarId == id then Some(pending[|pending| - 1].enabled)
    else LastWish(pending[..|pending| - 1], id)
  }

  lemma {:induction false} ResolveOneMore(confirmed: seq<CalendarId>, pending: seq<Toggle>, toggle: Toggle)
    ensures ResolveDisplayedIds(confirmed, pending + [toggle]) == ApplyMappingToggle(ResolveDisplayedIds(confirmed, pending), toggle)
    decreases |pending|
  {
    if pending == [] {
      assert ([] + [toggle])[1..] == [];
    } else {
      assert (pending + [toggle])[1..] == pending[1..] + [toggle];
      ResolveOneMore(ApplyMappingToggle(confirmed, pending[0]), pending[1..], toggle);
    }
  }

  /** What is displayed: the last pending toggle of each calendar wins over what is confirmed. */
  lemma {:induction false} LastToggleWins(confirmed: seq<CalendarId>, pending: seq<Toggle>, id: CalendarId)
    ensures id in ResolveDisplayedIds(confirmed, pending) <==>
              match LastWish(pending, id)
              case None => id in confirmed
              case Some(enabled) => enabled
  {
    if pending != [] {
      var (init, last) := (pending[..|pending| - 1], pending[|pending| - 1]);
      assert pending == init + [last];
      ResolveOneMore(confirmed, init, last);
      LastToggleWins(confirmed, init, id);
    }
  }

  // ---------------------------------------------------------------------------------------
  // The queue of one key
  // ---------------------------------------------------------------------------------------

  function Toggled(ids: set<CalendarId>, toggle: Toggle): set<CalendarId> {
    if toggle.enabled then ids + {toggle.calendarId} else ids - {toggle.calendarId}
  }

  function IdSet(ids: seq<CalendarId>): set<CalendarId> {
    set id | id in ids
  }

  /**
    `open` says whether the key has a queue; while it does, the first pending toggle is with the
    server.  `displayed` is what was last published, `server` is the set the server holds, and
    `enqueued`, `sent` and `settled` are histories.
  */
  datatype Queue = Queue(
    open: bool, confirmed: seq<CalendarId>, pending: seq<Toggle>, displayed: seq<CalendarId>,
    server: set<CalendarId>, enqueued: seq<Toggle>, sent: seq<Toggle>, settled: seq<Toggle>)

  function Closed(server: set<CalendarId>): Queue {
    Queue(false, [], [], [], server, [], [], [])
  }

  function Enqueue(q: Queue, toggle: Toggle, currentIds: seq<CalendarId>): Queue {
    var confirmed := if q.open then q.confirmed else currentIds;
    var pending := (if q.open then q.pending else []) + [toggle];
    q.(open := true, confirmed := confirmed, pending := pending, displayed := ResolveDisplayedIds(confirmed, pending),
       enqueued := q.enqueued + [toggle], sent := if q.open then q.sent else q.sent + [toggle])
  }

  /** The send ended; `reply` is what the server answered, or nothing after an error. */
  function SettleSend(q: Queue, reply: Option<seq<CalendarId>>): Queue
    requires q.open && q.pending != []
  {
    var confirmed := if reply.Some? then reply.value else q.confirmed;
    var pending := q.pending[1..];
    q.(open := pending != [], confirmed := confirmed, pending := pending, displayed := ResolveDisplayedIds(confirmed, pending),
       server := if reply.Some? then Toggled(q.server, q.pending[0]) else q.server,
       settled := q.settled + [q.pending[0]],
       sent := if pending == [] then q.sent else q.sent + [pending[0]])
  }

  /**
    Toggles are sent in the order they were made, each exactly once, one at a time; the display
    is the server's set with the pending toggles applied.
  */
  ghost predicate Inv(q: Queue) {
    && (q.open <==> q.pending != [])
    && q.enqueued == q.settled + q.pending
    && q.sent == q.settled + (if q.open then [q.pending[0]] else [])
    && (q.open ==> IdSet(q.confirmed) == q.server && q.displayed == ResolveDisplayedIds(q.confirmed, q.pending))
    && (!q.open && q.enqueued != [] ==> IdSet(q.displayed) == q.server)
  }

  /** A queue is opened with the ids the server holds. */
  ghost predicate CanEnqueue(q: Queue, currentIds: seq<CalendarId>) {
    !q.open ==> IdSet(currentIds) == q.server
  }

  /** A successful send returns what the server then holds; a failed one leaves the server alone. */
  ghost predicate CanSettle(q: Queue, reply: Option<seq<CalendarId>>) {
    q.open && q.pending != [] && (reply.Some? ==> IdSet(reply.value) == Toggled(q.server, q.pending[0]))
  }

  lemma EnqueueKeepsInv(q: Queue, toggle: Toggle, currentIds: seq<CalendarId>)
    requires Inv(q) && CanEnqueue(q, currentIds)
    ensures Inv(Enqueue(q, toggle, currentIds))
    ensures Enqueue(q, toggle, currentIds).displayed == ApplyMappingToggle(if q.open then q.displayed else currentIds, toggle)
  {
    var q' := Enqueue(q, toggle, currentIds);
    if q.open {
      ResolveOneMore(q.confirmed, q.pending, toggle);
      assert q'.enqueued == q'.settled + q'.pending;
      assert q'.pending[0] == q.pending[0];
    } else {
      ResolveOneMore(currentIds, [], toggle);
      assert q'.pending == [toggle];
      assert q.settled + [] == q.settled;
    }
  }

  lemma NothingPending(confirmed: seq<CalendarId>)
    ensures ResolveDisplayedIds(confirmed, []) == confirmed
  {
  }

  lemma SettleKeepsInv(q: Queue, reply: Option<seq<CalendarId>>)
    requires Inv(q) && CanSettle(q, reply)
    ensures Inv(SettleSend(q, reply))
  {
    NothingPending(SettleSend(q, reply).confirmed);
    hide ResolveDisplayedIds;
    var q' := SettleSend(q, reply);
    assert q.pending == [q.pending[0]] + q.pending[1..];
    assert q'.enqueued == q'.settled + q'.pending;
    assert q'.sent == q'.settled + (if q'.open then [q'.pending[0]] else []);
  }

  datatype Step = Enqueues(toggle: Toggle, currentIds: seq<CalendarId>) | Settles(reply: Option<seq<CalendarId>>)

  ghost predicate Leads(q: Queue, step: Step, q': Queue) {
    match step
    case Enqueues(toggle, currentIds) => CanEnqueue(q, currentIds) && q' == Enqueue(q, toggle, currentIds)
    case Settles(reply) => CanSettle(q, reply) && q' == SettleSend(q, reply)
  }

  ghost predicate IsRun(states: seq<Queue>, steps: seq<Step>) {
    && |states| == |steps| + 1 && states[0] == Closed(states[0].server)
    && forall i :: 0 <= i < |steps| ==> Leads(states[i], steps[i], states[i + 1])
  }

  /** A calendar is shown by its last pending toggle or else as the server has it. */
  ghost predicate ShownRightly(q: Queue, id: CalendarId) {
    id in q.displayed <==>
      match LastWish(q.pending, id)
      case None => id in q.server
      case Some(enabled) => enabled
  }

  lemma DisplayFollowsWishes(q: Queue, id: CalendarId)
    requires Inv(q) && q.enqueued != []
    ensures ShownRightly(q, id)
  {
    if q.open {
      LastToggleWins(q.confirmed, q.pending, id);
      assert id in IdSet(q.confirmed) <==> id in q.confirmed;
    } else {
      assert id in IdSet(q.displayed) <==> id in q.displayed;
    }
  }

  /**
    On every run: what is displayed is the server's set with the last pending toggle of each
    calendar winning, toggles are sent once each and in order, and when the queue has drained the
    display is the server's set and everything has been sent.
  */
  lemma {:induction false} TogglesAgreeWithServer(states: seq<Queue>, steps: seq<Step>, i: nat)
    requires IsRun(states, steps) && i < |states|
    ensures Inv(states[i])
    ensures states[i].sent <= states[i].enqueued
    ensures !states[i].open ==> states[i].sent == states[i].enqueued
    ensures states[i].enqueued != [] ==> forall id :: ShownRightly(states[i], id)
  {
    if i == 0 {
      NothingEnqueued(states[0].server);
    } else {
      hide LastWish, ResolveDisplayedIds, Inv, Enqueue, SettleSend, CanEnqueue, CanSettle;
      TogglesAgreeWithServer(states, steps, i - 1);
      assert Leads(states[i - 1], steps[i - 1], states[i]);
      match steps[i - 1]
      case Enqueues(toggle, currentIds) => EnqueueKeepsInv(states[i - 1], toggle, currentIds);
      case Settles(reply) => SettleKeepsInv(states[i - 1], reply);
    }
    hide Inv, ShownRightly;
    SentInOrder(states[i]);
    if states[i].enqueued != [] {
      forall id
        ensures ShownRightly(states[i], id)
      {
        DisplayFollowsWishes(states[i], id);
      }
    }
  }

  lemma NothingEnqueued(server: set<CalendarId>)
    ensures Inv(Closed(server))
  {
  }

  lemma SentInOrder(q: Queue)
    requires Inv(q)
    ensures q.sent <= q.enqueued && (!q.open ==> q.sent == q.enqueued)
  {
  }

  class ToggleQueue {
    var open: bool
    var confirmed: seq<CalendarId>
    var pending: seq<Toggle>
    var displayed: seq<CalendarId>
    ghost var server: set<CalendarId>
    ghost var enqueued: seq<Toggle>
    ghost var sent: seq<Toggle>
    ghost var settled: seq<Toggle>

    ghost function View(): Queue
      reads this
    {
      Queue(open, confirmed, pending, displayed, server, enqueued, sent, settled)
    }

    constructor (server: set<CalendarId>)
      ensures View() == Closed(server)
    {
      open, confirmed, pending, displayed := false, [], [], [];
      this.server, enqueued, sent, settled := server, [], [], [];
    }

    method EnqueueToggle(toggle: Toggle, currentIds: seq<CalendarId>)
      modifies this
      ensures View() == Enqueue(old(View()), toggle, currentIds)
    {
      if !open {
        confirmed, pending := currentIds, [];
      }
      pending := pending + [toggle];
      enqueued := enqueued + [toggle];
      displayed := ResolveDisplayedIds(confirmed, pending);
      if open {
        return;
      }
      open := true;
      sent := sent + [toggle];
    }

    /** One turn of the drain loop, up to the next send. */
    method SendEnds(reply: Option<seq<CalendarId>>)
      requires open && pending != []
      modifies this
      ensures View() == SettleSend(old(View()), reply)
    {
      if reply.Some? {
        confirmed := reply.value;
        server := Toggled(server, pending[0]);
      }
      settled := settled + [pending[0]];
      pending := pending[1..];
      displayed := ResolveDisplayedIds(confirmed, pending);
      if pending == [] {
        open := false;
      } else {
        sent := sent + [pending[0]];
      }
    }
  }
}
