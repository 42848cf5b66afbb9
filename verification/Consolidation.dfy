/**
  packages/database/src/database/legacy-recurring-state-consolidation.ts: the four SQL
  statements that merge duplicate recurring event states before a unique index is built over
  them, keeping one event mapping per destination.

  Tables are maps from primary key to row.  Keys are natural numbers in the order Postgres
  gives uuids, so "newest by (createdAt, id)" is a total order.
*/
module Consolidation {
  import opened Wrappers

  type StateId = nat
  type MappingId = nat
  type CalendarId = nat

  datatype EventState = EventState(
    calendar: CalendarId, sourceEventUid: Option<string>, recurrenceId: Option<int>, sourceEventId: Option<string>, createdAt: int)

  /** `calendar` is the destination; `state` is NULL on tombstones. */
  datatype EventMapping = EventMapping(calendar: CalendarId, state: Option<StateId>, createdAt: int)

  datatype Tables = Tables(states: map<StateId, EventState>, mappings: map<MappingId, EventMapping>)

  /** A row of the temporary table. */
  datatype Ranked = Ranked(state: StateId, canonical: StateId, rank: nat)

  datatype OnDelete = Cascade | SetNull

  /** Databases without the sourceEventId column have every row in scope on that count. */
  predicate InScope(hasSourceEventColumn: bool, s: EventState) {
    (hasSourceEventColumn ==> s.sourceEventId.None?) && s.sourceEventUid.Some? && s.recurrenceId.Some?
  }

  predicate SameGroup(a: EventState, b: EventState) {
    a.calendar == b.calendar && a.sourceEventUid == b.sourceEventUid && a.recurrenceId == b.recurrenceId
  }

  /** PARTITION BY "calendarId", "sourceEventUid", "recurrenceId" over the rows in scope. */
  function Group(states: map<StateId, EventState>, col: bool, id: StateId): set<StateId>
    requires id in states
  {
    set x | x in states && InScope(col, states[x]) && SameGroup(states[x], states[id])
  }

  /** ORDER BY "createdAt" DESC, "id" DESC puts b no later than a. */
  predicate NoNewer(states: map<StateId, EventState>, a: StateId, b: StateId)
    requires a in states && b in states
  {
    states[a].createdAt < states[b].createdAt || (states[a].createdAt == states[b].createdAt && a <= b)
  }

  predicate IsNewest(states: map<StateId, EventState>, group: set<StateId>, m: StateId) {
    group <= states.Keys && m in group && forall x :: x in group ==> NoNewer(states, x, m)
  }

  lemma {:induction false} NewestExists(states: map<StateId, EventState>, group: set<StateId>) returns (m: StateId)
    requires group != {} && group <= states.Keys
    ensures IsNewest(states, group, m)
  {
    var x :| x in group;
    var others := group - {x};
    if others == {} {
      m := x;
      assert group == {x};
    } else {
      var rest := NewestExists(states, others);
      m := if NoNewer(states, x, rest) then rest else x;
      assert forall y :: y in group ==> y == x || y in others;
    }
  }

  /** first_value("id") OVER (PARTITION BY group ORDER BY "createdAt" DESC, "id" DESC) */
  function Canonical(states: map<StateId, EventState>, col: bool, id: StateId): (m: StateId)
    requires id in states && InScope(col, states[id])
    ensures IsNewest(states, Group(states, col, id), m)
  {
    assert id in Group(states, col, id);
    assert exists m :: IsNewest(states, Group(states, col, id), m) by {
      var m := NewestExists(states, Group(states, col, id));
    }
    var m :| IsNewest(states, Group(states, col, id), m);
    m
  }

  /** The mapping joins an in-scope state. */
  predicate Joins(t: Tables, col: bool, m: MappingId) {
    && m in t.mappings && t.mappings[m].state.Some? && t.mappings[m].state.value in t.states
    && InScope(col, t.states[t.mappings[m].state.value])
  }

  function CanonicalOf(t: Tables, col: bool, m: MappingId): StateId
    requires Joins(t, col, m)
  {
    Canonical(t.states, col, t.mappings[m].state.value)
  }

  /** PARTITION BY states.canonical_id, mappings."calendarId" */
  function Rivals(t: Tables, col: bool, m: MappingId): set<MappingId>
    requires Joins(t, col, m)
  {
    set x | x in t.mappings && Joins(t, col, x) && t.mappings[x].calendar == t.mappings[m].calendar
            && CanonicalOf(t, col, x) == CanonicalOf(t, col, m)
  }

  predicate OnCanonical(t: Tables, col: bool, m: MappingId)
    requires Joins(t, col, m)
  {
    t.mappings[m].state.value == CanonicalOf(t, col, m)
  }

  /** a comes strictly before b: on the canonical state first, then newest, then greatest id. */
  predicate RanksBefore(t: Tables, col: bool, a: MappingId, b: MappingId)
    requires Joins(t, col, a) && Joins(t, col, b)
  {
    if OnCanonical(t, col, a) != OnCanonical(t, col, b) then OnCanonical(t, col, a)
    else if t.mappings[a].createdAt != t.mappings[b].createdAt then t.mappings[a].createdAt > t.mappings[b].createdAt
    else a > b
  }

  function Ahead(t: Tables, col: bool, m: MappingId): set<MappingId>
    requires Joins(t, col, m)
  {
    set x | x in Rivals(t, col, m) && RanksBefore(t, col, x, m)
  }

  /** Statement 1: the temporary table, with row_number() as 1 + the number of rivals ahead. */
  function BuildRanking(t: Tables, col: bool): map<MappingId, Ranked> {
    map m | m in t.mappings && Joins(t, col, m)
      :: Ranked(t.mappings[m].state.value, CanonicalOf(t, col, m), 1 + |Ahead(t, col, m)|)
  }

  /** Statement 2 */
  function DeleteDuplicates(mappings: map<MappingId, EventMapping>, ranking: map<MappingId, Ranked>): map<MappingId, EventMapping> {
    map m | m in mappings && !(m in ranking && ranking[m].rank > 1) :: mappings[m]
  }

  /** Statement 3 */
  function Reattach(mappings: map<MappingId, EventMapping>, ranking: map<MappingId, Ranked>): map<MappingId, EventMapping> {
    map m | m in mappings ::
      if m in ranking && ranking[m].rank == 1 && ranking[m].state != ranking[m].canonical
      then mappings[m].(state := Some(ranking[m].canonical)) else mappings[m]
  }

  predicate Obsolete(states: map<StateId, EventState>, col: bool, id: StateId) {
    id in states && InScope(col, states[id]) && Canonical(states, col, id) != id
  }

  /** Statement 4, with the foreign key's action on the mappings of deleted states. */
  function DeleteObsolete(t: Tables, col: bool, onDelete: OnDelete): Tables {
    var states := map id | id in t.states && !Obsolete(t.states, col, id) :: t.states[id];
    var mappings := map m | m in t.mappings
                            && !(onDelete.Cascade? && t.mappings[m].state.Some? && Obsolete(t.states, col, t.mappings[m].state.value))
                      :: if t.mappings[m].state.Some? && Obsolete(t.states, col, t.mappings[m].state.value)
                         then t.mappings[m].(state := None) else t.mappings[m];
    Tables(states, mappings)
  }

  function Consolidate(t: Tables, col: bool, onDelete: OnDelete): Tables {
    var ranking := BuildRanking(t, col);
    DeleteObsolete(Tables(t.states, Reattach(DeleteDuplicates(t.mappings, ranking), ranking)), col, onDelete)
  }

  /** The transaction: the four statements in order on the live tables. */
  class Database {
    var states: map<StateId, EventState>
    var mappings: map<MappingId, EventMapping>

    constructor (t: Tables)
      ensures states == t.states && mappings == t.mappings
    {
      states, mappings := t.states, t.mappings;
    }

    method RunConsolidation(hasSourceEventColumn: bool, onDelete: OnDelete)
      modifies this
      ensures Tables(states, mappings) == Consolidate(old(Tables(states, mappings)), hasSourceEventColumn, onDelete)
    {
      var ranking := BuildRanking(Tables(states, mappings), hasSourceEventColumn);
      mappings := DeleteDuplicates(mappings, ranking);
      mappings := Reattach(mappings, ranking);
      var t := DeleteObsolete(Tables(states, mappings), hasSourceEventColumn, onDelete);
      states, mappings := t.states, t.mappings;
    }
  }

  // ---------------------------------------------------------------------------------------
  // What consolidation preserves
  // ---------------------------------------------------------------------------------------

  /** The foreign key from mappings to states. */
  ghost predicate ForeignKey(t: Tables) {
    forall m :: m in t.mappings && t.mappings[m].state.Some? ==> t.mappings[m].state.value in t.states
  }

  /** The mapping serves this group of states at this destination. */
  ghost predicate Serves(t: Tables, col: bool, m: MappingId, group: EventState, destination: CalendarId) {
    Joins(t, col, m) && SameGroup(t.states[t.mappings[m].state.value], group) && t.mappings[m].calendar == destination
  }

  lemma SameGroupSameCanonical(states: map<StateId, EventState>, col: bool, a: StateId, b: StateId)
    requires a in states && b in states && InScope(col, states[a]) && InScope(col, states[b])
    ensures Canonical(states, col, a) == Canonical(states, col, b) <==> SameGroup(states[a], states[b])
    ensures InScope(col, states[Canonical(states, col, a)]) && SameGroup(states[Canonical(states, col, a)], states[a])
    ensures Canonical(states, col, Canonical(states, col, a)) == Canonical(states, col, a)
  {
    var c := Canonical(states, col, a);
    assert c in Group(states, col, a);
    assert Group(states, col, c) == Group(states, col, a);
    if SameGroup(states[a], states[b]) {
      assert Group(states, col, a) == Group(states, col, b);
    } else {
      assert Canonical(states, col, b) in Group(states, col, b);
    }
  }

  /** The states that remain are those out of scope and, of each group in scope, the newest. */
  lemma StatesAfter(t: Tables, col: bool, onDelete: OnDelete, id: StateId)
    ensures id in Consolidate(t, col, onDelete).states <==>
              id in t.states && (InScope(col, t.states[id]) ==> IsNewest(t.states, Group(t.states, col, id), id))
    ensures id in Consolidate(t, col, onDelete).states ==> Consolidate(t, col, onDelete).states[id] == t.states[id]
  {
  }

  lemma {:induction false} LeaderExists(t: Tables, col: bool, s: set<MappingId>) returns (m: MappingId)
    requires s != {} && forall x :: x in s ==> Joins(t, col, x)
    ensures m in s && forall x :: x in s && x != m ==> RanksBefore(t, col, m, x)
  {
    var x :| x in s;
    var others := s - {x};
    if others == {} {
      m := x;
      assert s == {x};
    } else {
      var rest := LeaderExists(t, col, others);
      m := if RanksBefore(t, col, x, rest) then x else rest;
      assert forall y :: y in s ==> y == x || y in others;
    }
  }

  /** row_number() = 1 picks exactly the one mapping that no rival precedes. */
  lemma RankOneIsLeader(t: Tables, col: bool, m: MappingId)
    requires Joins(t, col, m)
    ensures BuildRanking(t, col)[m].rank == 1 <==> forall x :: x in Rivals(t, col, m) && x != m ==> RanksBefore(t, col, m, x)
  {
    if BuildRanking(t, col)[m].rank == 1 {
      assert Ahead(t, col, m) == {};
      forall x | x in Rivals(t, col, m) && x != m
        ensures RanksBefore(t, col, m, x)
      {
        assert x !in Ahead(t, col, m);
      }
    }
    if forall x :: x in Rivals(t, col, m) && x != m ==> RanksBefore(t, col, m, x) {
      assert Ahead(t, col, m) == {};
    }
  }

  /**
    What becomes of each mapping.  One out of scope is untouched; one in scope survives exactly
    when it leads its rivals, and then it is attached to the canonical state.  The foreign key's
    action deletes or clears nothing, whichever action it is.
  */
  lemma MappingsAfter(t: Tables, col: bool, onDelete: OnDelete, m: MappingId)
    requires m in t.mappings
    ensures var after := Consolidate(t, col, onDelete).mappings;
            if Joins(t, col, m) then
              && (m in after <==> forall x :: x in Rivals(t, col, m) && x != m ==> RanksBefore(t, col, m, x))
              && (m in after ==> after[m] == t.mappings[m].(state := Some(CanonicalOf(t, col, m))))
            else m in after && after[m] == t.mappings[m]
  {
    var ranking := BuildRanking(t, col);
    if Joins(t, col, m) {
      RankOneIsLeader(t, col, m);
      SameGroupSameCanonical(t.states, col, t.mappings[m].state.value, t.mappings[m].state.value);
    }
  }

  lemma MappingsOnlyShrink(t: Tables, col: bool, onDelete: OnDelete)
    ensures Consolidate(t, col, onDelete).mappings.Keys <= t.mappings.Keys
  {
  }

  /** No surviving mapping refers to a deleted state. */
  lemma ForeignKeyKept(t: Tables, col: bool, onDelete: OnDelete)
    requires ForeignKey(t)
    ensures ForeignKey(Consolidate(t, col, onDelete))
  {
    var after := Consolidate(t, col, onDelete);
    forall m | m in after.mappings && after.mappings[m].state.Some?
      ensures after.mappings[m].state.value in after.states
    {
      MappingsOnlyShrink(t, col, onDelete);
      MappingsAfter(t, col, onDelete, m);
      StatesAfter(t, col, onDelete, after.mappings[m].state.value);
      if Joins(t, col, m) {
        SameGroupSameCanonical(t.states, col, t.mappings[m].state.value, t.mappings[m].state.value);
      }
    }
  }

  lemma ServesAfter(t: Tables, col: bool, onDelete: OnDelete, m: MappingId, group: EventState, destination: CalendarId)
    requires ForeignKey(t) && m in t.mappings
    ensures var after := Consolidate(t, col, onDelete);
            Serves(after, col, m, group, destination) <==> m in after.mappings && Serves(t, col, m, group, destination)
    ensures Serves(Consolidate(t, col, onDelete), col, m, group, destination) ==>
              Consolidate(t, col, onDelete).mappings[m].state == Some(CanonicalOf(t, col, m))
  {
    var after := Consolidate(t, col, onDelete);
    MappingsAfter(t, col, onDelete, m);
    ForeignKeyKept(t, col, onDelete);
    if m in after.mappings && after.mappings[m].state.Some? {
      StatesAfter(t, col, onDelete, after.mappings[m].state.value);
    }
    if Joins(t, col, m) {
      SameGroupSameCanonical(t.states, col, t.mappings[m].state.value, t.mappings[m].state.value);
    }
  }

  /** Whoever served before, the leader of its rivals still serves. */
  lemma LeaderServes(t: Tables, col: bool, onDelete: OnDelete, m: MappingId, group: EventState, destination: CalendarId) returns (leader: MappingId)
    requires ForeignKey(t) && Serves(t, col, m, group, destination)
    ensures Serves(Consolidate(t, col, onDelete), col, leader, group, destination)
  {
    var rivals := Rivals(t, col, m);
    assert m in rivals;
    leader := LeaderExists(t, col, rivals);
    SameGroupSameCanonical(t.states, col, t.mappings[m].state.value, t.mappings[leader].state.value);
    assert Rivals(t, col, leader) == rivals;
    MappingsAfter(t, col, onDelete, leader);
    ServesAfter(t, col, onDelete, leader, group, destination);
  }

  lemma OneServerLeft(t: Tables, col: bool, onDelete: OnDelete, m: MappingId, n: MappingId, group: EventState, destination: CalendarId)
    requires ForeignKey(t)
    requires Serves(Consolidate(t, col, onDelete), col, m, group, destination)
    requires Serves(Consolidate(t, col, onDelete), col, n, group, destination)
    ensures m == n
  {
    MappingsOnlyShrink(t, col, onDelete);
    ServesAfter(t, col, onDelete, m, group, destination);
    ServesAfter(t, col, onDelete, n, group, destination);
    SameGroupSameCanonical(t.states, col, t.mappings[m].state.value, t.mappings[n].state.value);
    assert m in Rivals(t, col, n) && n in Rivals(t, col, m);
    MappingsAfter(t, col, onDelete, m);
    MappingsAfter(t, col, onDelete, n);
  }

  /**
    Consolidation keeps the meaning of the tables: a group is served at a destination afterwards
    exactly when it was before, then by exactly one mapping, which hangs on the group's newest
    state.
  */
  lemma ServicePreserved(t: Tables, col: bool, onDelete: OnDelete, group: EventState, destination: CalendarId)
    requires ForeignKey(t)
    ensures var after := Consolidate(t, col, onDelete);
            && ((exists m :: Serves(t, col, m, group, destination)) <==> (exists m :: Serves(after, col, m, group, destination)))
            && (forall m, n :: Serves(after, col, m, group, destination) && Serves(after, col, n, group, destination) ==> m == n)
            && (forall m :: Serves(after, col, m, group, destination) ==>
                  var state := after.mappings[m].state.value;
                  state in t.states && IsNewest(t.states, Group(t.states, col, state), state))
  {
    var after := Consolidate(t, col, onDelete);
    if m :| Serves(t, col, m, group, destination) {
      var leader := LeaderServes(t, col, onDelete, m, group, destination);
    }
    forall m | Serves(after, col, m, group, destination)
      ensures Serves(t, col, m, group, destination)
      ensures var state := after.mappings[m].state.value;
              state in t.states && IsNewest(t.states, Group(t.states, col, state), state)
    {
      MappingsOnlyShrink(t, col, onDelete);
      ServesAfter(t, col, onDelete, m, group, destination);
      StatesAfter(t, col, onDelete, after.mappings[m].state.value);
    }
    forall m, n | Serves(after, col, m, group, destination) && Serves(after, col, n, group, destination)
      ensures m == n
    {
      OneServerLeft(t, col, onDelete, m, n, group, destination);
    }
  }

  /** Afterwards no two states in scope share a group, which is what the unique index needs. */
  lemma GroupsAreUnique(t: Tables, col: bool, onDelete: OnDelete, a: StateId, b: StateId)
    requires var states := Consolidate(t, col, onDelete).states;
             a in states && b in states && InScope(col, states[a]) && InScope(col, states[b]) && SameGroup(states[a], states[b])
    ensures a == b
  {
    StatesAfter(t, col, onDelete, a);
    StatesAfter(t, col, onDelete, b);
    assert a in Group(t.states, col, b) && b in Group(t.states, col, a);
  }

  lemma SecondRunKeepsStates(t: Tables, col: bool, onDelete: OnDelete, id: StateId)
    ensures var once := Consolidate(t, col, onDelete);
            id in Consolidate(once, col, onDelete).states <==> id in once.states
  {
    var once := Consolidate(t, col, onDelete);
    StatesAfter(once, col, onDelete, id);
    if id in once.states && InScope(col, once.states[id]) {
      forall x | x in Group(once.states, col, id)
        ensures x == id
      {
        GroupsAreUnique(t, col, onDelete, x, id);
      }
    }
  }

  lemma SecondRunKeepsMapping(t: Tables, col: bool, onDelete: OnDelete, m: MappingId)
    requires ForeignKey(t) && m in Consolidate(t, col, onDelete).mappings
    ensures var once := Consolidate(t, col, onDelete);
            var twice := Consolidate(once, col, onDelete);
            m in twice.mappings && twice.mappings[m] == once.mappings[m]
  {
    var once := Consolidate(t, col, onDelete);
    MappingsAfter(once, col, onDelete, m);
    if Joins(once, col, m) {
      var state := once.mappings[m].state.value;
      var group := once.states[state];
      assert CanonicalOf(once, col, m) == state by {
        SameGroupSameCanonical(once.states, col, state, state);
        GroupsAreUnique(t, col, onDelete, CanonicalOf(once, col, m), state);
      }
      forall x | x in Rivals(once, col, m)
        ensures x == m
      {
        SameGroupSameCanonical(once.states, col, once.mappings[x].state.value, state);
        OneServerLeft(t, col, onDelete, x, m, group, once.mappings[m].calendar);
      }
    }
  }

  /** A second run changes nothing. */
  lemma Idempotent(t: Tables, col: bool, onDelete: OnDelete)
    requires ForeignKey(t)
    ensures var once := Consolidate(t, col, onDelete);
            Consolidate(once, col, onDelete) == once
  {
    hide Consolidate;
    var once := Consolidate(t, col, onDelete);
    var twice := Consolidate(once, col, onDelete);
    forall id
      ensures id in twice.states <==> id in once.states
      ensures id in twice.states ==> twice.states[id] == once.states[id]
    {
      SecondRunKeepsStates(t, col, onDelete, id);
      StatesAfter(once, col, onDelete, id);
    }
    assert twice.states == once.states;
    MappingsOnlyShrink(once, col, onDelete);
    forall m | m in once.mappings
      ensures m in twice.mappings && twice.mappings[m] == once.mappings[m]
    {
      SecondRunKeepsMapping(t, col, onDelete, m);
    }
    assert twice.mappings == once.mappings;
  }

  // ---------------------------------------------------------------------------------------
  // The same, column by column
  // ---------------------------------------------------------------------------------------

  /** Two rows of event_states fall into the same group that is consolidated. */
  predicate Duplicates(col: bool, a: EventState, b: EventState) {
    && a.calendar == b.calendar
    && a.sourceEventUid.Some? && a.sourceEventUid == b.sourceEventUid
    && a.recurrenceId.Some? && a.recurrenceId == b.recurrenceId
    && (col ==> a.sourceEventId.None? && b.sourceEventId.None?)
  }

  /** b was created after a, or at the same time with a greater id. */
  predicate Later(createdA: int, idA: nat, createdB: int, idB: nat) {
    createdA < createdB || (createdA == createdB && idA < idB)
  }

  /** A state is deleted exactly when it has a later duplicate. */
  lemma StateIsDeletedExactlyForLaterDuplicate(t: Tables, col: bool, onDelete: OnDelete, id: StateId)
    requires id in t.states
    ensures id !in Consolidate(t, col, onDelete).states <==>
              exists x :: x in t.states && Duplicates(col, t.states[id], t.states[x])
                          && Later(t.states[id].createdAt, id, t.states[x].createdAt, x)
  {
    StatesAfter(t, col, onDelete, id);
    hide Consolidate, IsNewest;
    if id !in Consolidate(t, col, onDelete).states {
      var m := Canonical(t.states, col, id);
      NewestIsLater(t.states, Group(t.states, col, id), id, m);
      assert Duplicates(col, t.states[id], t.states[m]);
    }
    if x :| x in t.states && Duplicates(col, t.states[id], t.states[x])
            && Later(t.states[id].createdAt, id, t.states[x].createdAt, x) {
      assert x in Group(t.states, col, id);
      NotNewest(t.states, Group(t.states, col, id), id, x);
    }
  }

  lemma NewestIsLater(states: map<StateId, EventState>, group: set<StateId>, id: StateId, m: StateId)
    requires IsNewest(states, group, m) && id in group && !IsNewest(states, group, id)
    ensures m in group && Later(states[id].createdAt, id, states[m].createdAt, m)
  {
    assert NoNewer(states, id, m);
  }

  lemma NotNewest(states: map<StateId, EventState>, group: set<StateId>, id: StateId, x: StateId)
    requires group <= states.Keys && id in group && x in group && Later(states[id].createdAt, id, states[x].createdAt, x)
    ensures !IsNewest(states, group, id)
  {
  }

  /** Mapping x is for the same destination as m and its state duplicates that of m, or is the same. */
  predicate Competes(t: Tables, col: bool, m: MappingId, x: MappingId) {
    && m in t.mappings && t.mappings[m].state.Some? && t.mappings[m].state.value in t.states
    && x in t.mappings && t.mappings[x].state.Some? && t.mappings[x].state.value in t.states
    && t.mappings[x].calendar == t.mappings[m].calendar
    && Duplicates(col, t.states[t.mappings[m].state.value], t.states[t.mappings[x].state.value])
  }

  /** The mapping hangs on a state that has no later duplicate. */
  ghost predicate OnLatestState(t: Tables, col: bool, m: MappingId) {
    && m in t.mappings && t.mappings[m].state.Some? && t.mappings[m].state.value in t.states
    && var id := t.mappings[m].state.value;
       forall x :: x in t.states && Duplicates(col, t.states[id], t.states[x]) ==>
         !Later(t.states[id].createdAt, id, t.states[x].createdAt, x)
  }

  lemma CompetitorsAreRivals(t: Tables, col: bool, m: MappingId, x: MappingId)
    requires Joins(t, col, m)
    ensures Competes(t, col, m, x) <==> x in Rivals(t, col, m)
  {
    if x in t.mappings && Joins(t, col, x) {
      SameGroupSameCanonical(t.states, col, t.mappings[x].state.value, t.mappings[m].state.value);
    }
  }

  lemma CanonicalIsLatest(t: Tables, col: bool, m: MappingId)
    requires Joins(t, col, m)
    ensures OnCanonical(t, col, m) <==> OnLatestState(t, col, m)
  {
    var id := t.mappings[m].state.value;
    var c := Canonical(t.states, col, id);
    if c == id {
      forall x | x in t.states && Duplicates(col, t.states[id], t.states[x])
        ensures !Later(t.states[id].createdAt, id, t.states[x].createdAt, x)
      {
        assert x in Group(t.states, col, id);
        assert NoNewer(t.states, x, id);
      }
    } else {
      assert id in Group(t.states, col, id) && c in Group(t.states, col, id);
      assert NoNewer(t.states, id, c);
      assert Duplicates(col, t.states[id], t.states[c]);
    }
  }

  /**
    Which mapping survives.  Of all mappings that compete for a destination it is one on the
    latest state, if any is; and of those that agree with it on that, none was created later, nor
    at the same time with a greater id.
  */
  lemma SurvivorIsBest(t: Tables, col: bool, onDelete: OnDelete, m: MappingId, x: MappingId)
    requires m in Consolidate(t, col, onDelete).mappings && Competes(t, col, m, x) && x != m
    ensures OnLatestState(t, col, x) ==> OnLatestState(t, col, m)
    ensures (OnLatestState(t, col, x) <==> OnLatestState(t, col, m)) ==>
              Later(t.mappings[x].createdAt, x, t.mappings[m].createdAt, m)
    ensures x !in Consolidate(t, col, onDelete).mappings
  {
    assert Joins(t, col, m);
    MappingsAfter(t, col, onDelete, m);
    MappingsAfter(t, col, onDelete, x);
    hide Consolidate, Rivals, OnCanonical, OnLatestState, Competes;
    CompetitorsAreRivals(t, col, m, x);
    RivalsAreMutual(t, col, m, x);
    CanonicalIsLatest(t, col, m);
    CanonicalIsLatest(t, col, x);
  }

  lemma RivalsAreMutual(t: Tables, col: bool, m: MappingId, x: MappingId)
    requires Joins(t, col, m) && Competes(t, col, m, x)
    ensures Joins(t, col, x) && m in Rivals(t, col, x) && x in Rivals(t, col, m)
  {
    CompetitorsAreRivals(t, col, m, x);
  }

  /** Conversely, a mapping in scope that is better than all its competitors survives, on the latest state. */
  lemma BestSurvives(t: Tables, col: bool, onDelete: OnDelete, m: MappingId)
    requires Competes(t, col, m, m)
    requires forall x :: Competes(t, col, m, x) && x != m ==>
               if OnLatestState(t, col, x) == OnLatestState(t, col, m)
               then Later(t.mappings[x].createdAt, x, t.mappings[m].createdAt, m) else OnLatestState(t, col, m)
    ensures var after := Consolidate(t, col, onDelete);
            m in after.mappings && after.mappings[m].state.Some? && OnLatestState(t.(mappings := after.mappings), col, m)
  {
    MappingsAfter(t, col, onDelete, m);
    forall x | x in Rivals(t, col, m) && x != m
      ensures RanksBefore(t, col, m, x)
    {
      CompetitorsAreRivals(t, col, m, x);
      CanonicalIsLatest(t, col, m);
      CanonicalIsLatest(t, col, x);
    }
    SameGroupSameCanonical(t.states, col, t.mappings[m].state.value, t.mappings[m].state.value);
    var moved := t.(mappings := Consolidate(t, col, onDelete).mappings);
    CanonicalIsLatest(moved, col, m);
  }
}
