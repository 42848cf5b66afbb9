/**
  applications/web/src/lib/serialized-mutate.ts: partial updates of a record are sent one at a
  time per key; those submitted while one is being sent are merged and sent together next.
*/
module SerializedPatch {
  import opened Wrappers

  // Keys, field names and values are only compared, so numbers stand for them.
  type Key = nat
  type Patch = map<nat, nat>

  /** A call of `serializedPatch`: the patch and the flush function that came with it. */
  datatype Submission = Submission(patch: Patch, flush: nat)

  /** What a record becomes when the patches are assigned to it in order. */
  function MergeAll(submissions: seq<Submission>): Patch {
    if submissions == [] then map[] else MergeAll(submissions[..|submissions| - 1]) + submissions[|submissions| - 1].patch
  }

  lemma MergeOneMore(submissions: seq<Submission>, s: Submission)
    ensures MergeAll(submissions + [s]) == MergeAll(submissions) + s.patch
  {
    assert (submissions + [s])[..|submissions|] == submissions;
  }

  /**
    One key.  `running` counts the flush calls in progress; `submitted` and `flushed` are the
    histories of calls of `serializedPatch` and of the flush functions.
  */
  datatype KeyState = KeyState(
    active: bool, queued: Option<Submission>, running: nat, submitted: seq<Submission>, flushed: seq<Submission>)

  const IDLE := KeyState(false, None, 0, [], [])

  function StartFlush(k: KeyState, s: Submission): KeyState {
    k.(active := true, running := k.running + 1, flushed := k.flushed + [s])
  }

  function Submit(k: KeyState, s: Submission): KeyState {
    var k' := k.(submitted := k.submitted + [s]);
    if !k.active then StartFlush(k', s)
    else k'.(queued := Some(if k.queued.Some? then Submission(k.queued.value.patch + s.patch, s.flush) else s))
  }

  /** The running flush resolves or rejects; what was queued meanwhile is sent at once. */
  function Settle(k: KeyState): KeyState
    requires k.running > 0
  {
    var k' := k.(active := false, running := k.running - 1);
    if k.queued.None? then k' else StartFlush(k'.(queued := None), k.queued.value)
  }

  /**
    What has been flushed, in order, followed by what is queued, has the same effect as everything
    that was submitted.  At most one flush runs; something is queued only while one does, and it
    will go to the flush function that was submitted last.
  */
  ghost predicate Inv(k: KeyState) {
    && k.running == (if k.active then 1 else 0)
    && (k.queued.Some? ==> k.active && k.submitted != [] && k.queued.value.flush == k.submitted[|k.submitted| - 1].flush)
    && MergeAll(k.submitted) == MergeAll(k.flushed) + if k.queued.Some? then k.queued.value.patch else map[]
  }

  lemma MergeIsAssociative(a: Patch, b: Patch, c: Patch)
    ensures (a + b) + c == a + (b + c)
  {
  }

  lemma SubmitKeepsInv(k: KeyState, s: Submission)
    requires Inv(k)
    ensures Inv(Submit(k, s))
  {
    MergeOneMore(k.submitted, s);
    if !k.active {
      MergeOneMore(k.flushed, s);
      assert MergeAll(k.flushed) + map[] == MergeAll(k.flushed);
    } else if k.queued.Some? {
      MergeIsAssociative(MergeAll(k.flushed), k.queued.value.patch, s.patch);
    } else {
      assert MergeAll(k.flushed) + map[] == MergeAll(k.flushed);
    }
  }

  lemma SettleKeepsInv(k: KeyState)
    requires Inv(k) && k.running > 0
    ensures Inv(Settle(k))
  {
    if k.queued.Some? {
      MergeOneMore(k.flushed, k.queued.value);
    }
  }

  /** What is flushed next goes out with the flush function submitted last, at once when idle. */
  lemma LatestFlushFunctionIsUsed(k: KeyState, s: Submission)
    requires Inv(k)
    ensures !k.active ==> Submit(k, s).flushed == k.flushed + [s]
    ensures k.active ==> Submit(k, s).flushed == k.flushed && Submit(k, s).queued.Some? && Submit(k, s).queued.value.flush == s.flush
    ensures k.queued.Some? && k.running > 0 ==>
              var flushed := Settle(k).flushed;
              && |flushed| == |k.flushed| + 1 && flushed[|flushed| - 1].patch == k.queued.value.patch
              && flushed[|flushed| - 1].flush == k.submitted[|k.submitted| - 1].flush
    ensures k.queued.None? && k.running > 0 ==> Settle(k).flushed == k.flushed && !Settle(k).active
  {
    hide MergeAll;
  }

  datatype Step = Submits(s: Submission) | Settles

  ghost predicate Leads(k: KeyState, step: Step, k': KeyState) {
    match step
    case Submits(s) => k' == Submit(k, s)
    case Settles => k.running > 0 && k' == Settle(k)
  }

  ghost predicate IsRun(states: seq<KeyState>, steps: seq<Step>) {
    && |states| == |steps| + 1 && states[0] == IDLE
    && forall i :: 0 <= i < |steps| ==> Leads(states[i], steps[i], states[i + 1])
  }

  /**
    Coalescing preserves meaning on every interleaving of submissions and completions, and once
    the key is idle everything submitted has been flushed.
  */
  lemma {:induction false} CoalescingPreservesMeaning(states: seq<KeyState>, steps: seq<Step>, i: nat)
    requires IsRun(states, steps) && i < |states|
    ensures Inv(states[i])
    ensures !states[i].active ==> MergeAll(states[i].flushed) == MergeAll(states[i].submitted)
  {
    if i > 0 {
      CoalescingPreservesMeaning(states, steps, i - 1);
      assert Leads(states[i - 1], steps[i - 1], states[i]);
      match steps[i - 1]
      case Submits(s) => SubmitKeepsInv(states[i - 1], s);
      case Settles => SettleKeepsInv(states[i - 1]);
    }
  }

  /** The module-level set and map; each operation changes the state of its own key only. */
  class PatchMutations {
    var active: set<Key>
    var queue: map<Key, Submission>
    ghost var running: map<Key, nat>
    ghost var submitted: map<Key, seq<Submission>>
    ghost var flushed: map<Key, seq<Submission>>

    ghost function At(key: Key): KeyState
      reads this
    {
      KeyState(
        key in active,
        if key in queue then Some(queue[key]) else None,
        if key in running then running[key] else 0,
        if key in submitted then submitted[key] else [],
        if key in flushed then flushed[key] else [])
    }

    constructor ()
      ensures forall key :: At(key) == IDLE
    {
      active, queue, running, submitted, flushed := {}, map[], map[], map[], map[];
    }

    method RunFlush(key: Key, s: Submission)
      modifies this`active, this`running, this`flushed
      ensures At(key) == StartFlush(old(At(key)), s)
      ensures forall other :: other != key ==> At(other) == old(At(other))
    {
      active := active + {key};
      running := running[key := At(key).running + 1];
      flushed := flushed[key := At(key).flushed + [s]];
    }

    method SubmitPatch(key: Key, patch: Patch, flush: nat)
      modifies this
      ensures At(key) == Submit(old(At(key)), Submission(patch, flush))
      ensures forall other :: other != key ==> At(other) == old(At(other))
    {
      submitted := submitted[key := At(key).submitted + [Submission(patch, flush)]];
      if key in active {
        if key in queue {
          queue := queue[key := Submission(queue[key].patch + patch, flush)];
          return;
        }
        queue := queue[key := Submission(patch, flush)];
        return;
      }
      RunFlush(key, Submission(patch, flush));
    }

    method FlushSettles(key: Key)
      requires At(key).running > 0
      modifies this
      ensures At(key) == Settle(old(At(key)))
      ensures forall other :: other != key ==> At(other) == old(At(other))
    {
      active := active - {key};
      running := running[key := At(key).running - 1];
      if key !in queue {
        return;
      }
      var pending := queue[key];
      queue := queue - {key};
      RunFlush(key, pending);
    }
  }
}
