/**
  Row locking by the statements of packages/database/src/database/ingest-schedule.ts.

  Completions, wakes and releases first lock their rows in ascending calendar id and wait for
  each (`lockInCalendarOrder`); a claim locks rows in due order and passes over any that are
  locked (`FOR UPDATE SKIP LOCKED`).  Here every single row lock is a step of its own, so the
  transactions interleave in every possible way.
*/
module RowLocks {
  type RowId = nat
  type TxId = nat

  /** `todo` are the rows still to be locked; a transaction holds its locks until it commits. */
  datatype Tx = Tx(waits: bool, todo: seq<RowId>, held: set<RowId>, committed: bool)

  type State = map<TxId, Tx>

  datatype Step =
    | Begin(t: TxId, waits: bool, rows: seq<RowId>)
    | LockNext(t: TxId)
    | Commit(t: TxId)

  predicate Ascending(rows: seq<RowId>) {
    forall i, j :: 0 <= i < j < |rows| ==> rows[i] < rows[j]
  }

  /** Another transaction holds the row. */
  ghost predicate LockedByOther(s: State, t: TxId, row: RowId) {
    exists u :: u in s && u != t && row in s[u].held
  }

  /** A waiting statement lists its rows in ascending order; a skipping one in any order. */
  ghost predicate Enabled(s: State, step: Step) {
    match step
    case Begin(t, waits, rows) => t !in s && (waits ==> Ascending(rows))
    case LockNext(t) => t in s && s[t].todo != [] && (s[t].waits ==> !LockedByOther(s, t, s[t].todo[0]))
    case Commit(t) => t in s && s[t].todo == [] && !s[t].committed
  }

  ghost function Next(s: State, step: Step): State
    requires Enabled(s, step)
  {
    match step
    case Begin(t, waits, rows) => s[t := Tx(waits, rows, {}, false)]
    case LockNext(t) =>
      var row := s[t].todo[0];
      var taken := if LockedByOther(s, t, row) then {} else {row};
      s[t := s[t].(todo := s[t].todo[1..], held := s[t].held + taken)]
    case Commit(t) => s[t := s[t].(held := {}, committed := true)]
  }

  ghost predicate TxInv(x: Tx) {
    && (x.committed ==> x.todo == [] && x.held == {})
    && (x.waits ==> Ascending(x.todo) && forall r, i :: r in x.held && 0 <= i < |x.todo| ==> r < x.todo[i])
  }

  ghost predicate Inv(s: State) {
    && (forall t :: t in s ==> TxInv(s[t]))
    && (forall t, u :: t in s && u in s && t != u ==> s[t].held !! s[u].held)
  }

  lemma NextKeepsInv(s: State, step: Step)
    requires Inv(s) && Enabled(s, step)
    ensures Inv(Next(s, step))
  {
    if step.LockNext? {
      var (x, x') := (s[step.t], Next(s, step)[step.t]);
      assert TxInv(x);
      assert x.todo == [x.todo[0]] + x'.todo;
      assert forall i :: 0 <= i < |x'.todo| ==> x'.todo[i] == x.todo[i + 1];
    }
  }

  datatype Run = Run(states: seq<State>, steps: seq<Step>)

  ghost predicate IsRun(r: Run) {
    && |r.states| == |r.steps| + 1
    && r.states[0] == map[]
    && forall i :: 0 <= i < |r.steps| ==> Enabled(r.states[i], r.steps[i]) && r.states[i + 1] == Next(r.states[i], r.steps[i])
  }

  lemma {:induction false} RunInv(r: Run, i: nat)
    requires IsRun(r) && i < |r.states|
    ensures Inv(r.states[i])
  {
    if i > 0 {
      RunInv(r, i - 1);
      NextKeepsInv(r.states[i - 1], r.steps[i - 1]);
    }
  }

  /** t cannot go on before u ends: an edge of the waits-for graph. */
  ghost predicate WaitsFor(s: State, t: TxId, u: TxId) {
    && t in s && u in s && t != u
    && s[t].waits && s[t].todo != [] && s[t].todo[0] in s[u].held
  }

  function Awaited(s: State, t: TxId): RowId {
    if t in s && s[t].todo != [] then s[t].todo[0] else 0
  }

  ghost predicate IsPath(s: State, p: seq<TxId>) {
    forall i :: 0 <= i < |p| - 1 ==> WaitsFor(s, p[i], p[i + 1])
  }

  /** Along a chain of waits the awaited rows ascend. */
  lemma {:induction false} AwaitedRowsAscend(s: State, p: seq<TxId>, i: nat, j: nat)
    requires Inv(s) && IsPath(s, p) && i < j < |p| - 1
    ensures Awaited(s, p[i]) < Awaited(s, p[j])
    decreases j
  {
    assert WaitsFor(s, p[j - 1], p[j]) && WaitsFor(s, p[j], p[j + 1]);
    assert TxInv(s[p[j]]);
    if i < j - 1 {
      AwaitedRowsAscend(s, p, i, j - 1);
    }
  }

  /** The waits-for graph has no cycle in any reachable state. */
  lemma NoDeadlock(r: Run, n: nat, p: seq<TxId>)
    requires IsRun(r) && n < |r.states| && IsPath(r.states[n], p) && |p| >= 2
    ensures p[0] != p[|p| - 1]
  {
    var s := r.states[n];
    RunInv(r, n);
    if p[0] == p[|p| - 1] {
      assert WaitsFor(s, p[0], p[1]);
      var q := p + [p[1]];
      forall i | 0 <= i < |q| - 1
        ensures WaitsFor(s, q[i], q[i + 1])
      {
        if i < |p| - 1 {
          assert WaitsFor(s, p[i], p[i + 1]);
        }
      }
      AwaitedRowsAscend(s, q, 0, |p| - 1);
      assert false;
    }
  }

  ghost predicate CanStep(s: State, t: TxId) {
    Enabled(s, LockNext(t)) || Enabled(s, Commit(t))
  }

  ghost function WaitersBeyond(s: State, row: RowId): set<TxId> {
    set u | u in s && s[u].waits && s[u].todo != [] && row < s[u].todo[0]
  }

  lemma {:induction false} SomeTransactionCanStep(s: State, t: TxId) returns (u: TxId)
    requires Inv(s) && t in s && !s[t].committed
    ensures u in s && !s[u].committed && CanStep(s, u)
    decreases if s[t].todo == [] then {} else WaitersBeyond(s, s[t].todo[0])
  {
    assert TxInv(s[t]);
    if CanStep(s, t) {
      u := t;
    } else {
      var row := s[t].todo[0];
      var v :| v in s && v != t && row in s[v].held;
      assert TxInv(s[v]);
      if CanStep(s, v) {
        u := v;
      } else {
        assert row < s[v].todo[0];
        assert v in WaitersBeyond(s, row) && v !in WaitersBeyond(s, s[v].todo[0]);
        u := SomeTransactionCanStep(s, v);
      }
    }
  }

  /** Progress: while a transaction is unfinished, some unfinished transaction can step. */
  lemma Progress(r: Run, n: nat, t: TxId)
    requires IsRun(r) && n < |r.states| && t in r.states[n] && !r.states[n][t].committed
    ensures exists u :: u in r.states[n] && !r.states[n][u].committed && CanStep(r.states[n], u)
  {
    RunInv(r, n);
    var u := SomeTransactionCanStep(r.states[n], t);
  }
}
