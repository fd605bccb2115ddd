/**
 * `ReplayBuffer`: fixed-capacity storage of transitions in five pre-sized
 * parallel arrays, a write cursor `p` and a fill count `n`.
 */
module Buffer {
  import opened Types
  import opened ReplaySlots
  import Modular

  /** What `sample` returns: one sequence per field, row `k` of each gathered at the same index. */
  datatype Batch = Batch(state: seq<Observation>, action: seq<Action>, reward: seq<real>,
                         done: seq<real>, nextState: seq<Observation>)

  class ReplayBuffer {
    var n: nat
    var p: nat
    const bufferSize: nat

    const state: array<Observation>
    const action: array<Action>
    const reward: array<real>
    const done: array<real>
    const nextState: array<Observation>

    /** Every transition appended so far, oldest first. */
    ghost var history: seq<Transition>

    /** The row held in slot `i` across the five arrays. */
    function RowAt(i: nat): (row: Row)
      reads state, action, reward, done, nextState
      requires i < state.Length && i < action.Length && i < reward.Length
      requires i < done.Length && i < nextState.Length
    {
      Row(state[i], action[i], reward[i], done[i], nextState[i])
    }

    /**
     * The buffer invariant: the cursor and the fill count are those of `|history|`
     * appends into a fresh buffer, and the valid prefix `[0, n)` of the arrays is
     * the one `Replay` computes from the history.
     */
    ghost predicate Valid()
      reads this, state, action, reward, done, nextState
    {
      0 < bufferSize &&
      state.Length == bufferSize && action.Length == bufferSize && reward.Length == bufferSize &&
      done.Length == bufferSize && nextState.Length == bufferSize &&
      state != nextState && reward != done &&
      p == |history| % bufferSize && n == Min(|history|, bufferSize) &&
      forall i :: 0 <= i < n ==> RowAt(i) == Replay(history, bufferSize)[i]
    }

    constructor (bufferSize: nat, actionSpace: ActionSpace)
      requires 0 < bufferSize
      requires !actionSpace.Unsupported?
      ensures Valid()
      ensures this.bufferSize == bufferSize && n == 0 && p == 0 && history == []
      ensures fresh(state) && fresh(action) && fresh(reward) && fresh(done) && fresh(nextState)
    {
      this.bufferSize := bufferSize;
      n, p := 0, 0;
      state := new Observation[bufferSize];
      action := new Action[bufferSize];
      reward := new real[bufferSize];
      done := new real[bufferSize];
      nextState := new Observation[bufferSize];
      history := [];
    }

    /**
     * Writes the transition into slot `p` of all five arrays, advances the cursor
     * modulo the capacity and saturates the fill count at the capacity.
     */
    method Append(t: Transition)
      requires Valid()
      modifies this, state, action, reward, done, nextState
      ensures Valid()
      ensures history == old(history) + [t]
      ensures p == (old(p) + 1) % bufferSize && p < bufferSize
      ensures n == Min(old(n) + 1, bufferSize) && old(n) <= n <= bufferSize
      ensures RowAt(old(p)) == Stored(t)
      ensures state[..] == old(state[..])[old(p) := t.state]
      ensures action[..] == old(action[..])[old(p) := t.action]
      ensures reward[..] == old(reward[..])[old(p) := t.reward]
      ensures done[..] == old(done[..])[old(p) := DoneAsFloat(t.done)]
      ensures nextState[..] == old(nextState[..])[old(p) := t.nextState]
    {
      ghost var k := |history|;
      if k < bufferSize {
        Modular.ModUnique(k, bufferSize, 0, k);
      }
      CursorStep(k, bufferSize);

      WriteSlot(p, t);
      history := history + [t];
      p := (p + 1) % bufferSize;
      n := Min(n + 1, bufferSize);

      forall i | 0 <= i < n
        ensures RowAt(i) == Replay(history, bufferSize)[i]
      {
        ReplayAppendAt(old(history), t, bufferSize, i);
      }
    }

    /** Writes one row into slot `i` of the five arrays and leaves every other slot alone. */
    method WriteSlot(i: nat, t: Transition)
      requires i < state.Length && i < action.Length && i < reward.Length
      requires i < done.Length && i < nextState.Length
      requires state != nextState && reward != done
      modifies state, action, reward, done, nextState
      ensures RowAt(i) == Stored(t)
      ensures forall j ::
        (0 <= j < state.Length && j != i && j < action.Length && j < reward.Length &&
         j < done.Length && j < nextState.Length) ==> RowAt(j) == old(RowAt(j))
      ensures state[..] == old(state[..])[i := t.state]
      ensures action[..] == old(action[..])[i := t.action]
      ensures reward[..] == old(reward[..])[i := t.reward]
      ensures done[..] == old(done[..])[i := DoneAsFloat(t.done)]
      ensures nextState[..] == old(nextState[..])[i := t.nextState]
    {
      state[i] := t.state;
      action[i] := t.action;
      reward[i] := t.reward;
      done[i] := DoneAsFloat(t.done);
      nextState[i] := t.nextState;
    }

    /**
     * Gathers one row per index. The indices stand for numpy's uniform draws from
     * `[0, n)`; on an empty buffer a non-empty draw fails and nothing is returned,
     * while a draw of size zero gives an empty batch.
     */
    method Sample(idxes: seq<nat>) returns (r: Option<Batch>)
      requires Valid()
      requires 0 < n ==> forall k :: 0 <= k < |idxes| ==> idxes[k] < n
      ensures r.None? <==> n == 0 && 0 < |idxes|
      ensures r.Some? ==> |r.value.state| == |r.value.action| == |r.value.reward| == |idxes|
      ensures r.Some? ==> |r.value.done| == |r.value.nextState| == |idxes|
      ensures r.Some? ==> forall k :: 0 <= k < |idxes| ==>
        Row(r.value.state[k], r.value.action[k], r.value.reward[k], r.value.done[k], r.value.nextState[k])
          == Replay(history, bufferSize)[idxes[k]]
    {
      if n == 0 && 0 < |idxes| {
        return None;
      }
      var states := seq(|idxes|, k requires 0 <= k < |idxes| reads state => state[idxes[k]]);
      var actions := seq(|idxes|, k requires 0 <= k < |idxes| reads action => action[idxes[k]]);
      var rewards := seq(|idxes|, k requires 0 <= k < |idxes| reads reward => reward[idxes[k]]);
      var dones := seq(|idxes|, k requires 0 <= k < |idxes| reads done => done[idxes[k]]);
      var nextStates := seq(|idxes|, k requires 0 <= k < |idxes| reads nextState => nextState[idxes[k]]);
      r := Some(Batch(states, actions, rewards, dones, nextStates));
      forall k | 0 <= k < |idxes|
        ensures Row(states[k], actions[k], rewards[k], dones[k], nextStates[k])
          == Replay(history, bufferSize)[idxes[k]]
      {
        assert RowAt(idxes[k]) == Replay(history, bufferSize)[idxes[k]];
      }
    }
  }

  /** Advancing the cursor of `k` appends gives the cursor of `k + 1` appends. */
  lemma CursorStep(k: nat, capacity: nat)
    requires 0 < capacity
    ensures (k % capacity + 1) % capacity == (k + 1) % capacity
  {
    var q, r := k / capacity, k % capacity;
    if r + 1 < capacity {
      Modular.ModUnique(k + 1, capacity, q, r + 1);
      Modular.ModUnique(r + 1, capacity, 0, r + 1);
    } else {
      Modular.ModUnique(k + 1, capacity, q + 1, 0);
      Modular.ModUnique(r + 1, capacity, 1, 0);
    }
  }

  /**
   * From a fresh buffer, `k` appends leave the cursor at `k % C` and the fill
   * count at `min(k, C)`, within `[0, C)` and `[0, C]`.
   */
  lemma FreshBufferCounters(b: ReplayBuffer)
    requires b.Valid()
    ensures b.p == |b.history| % b.bufferSize && b.p < b.bufferSize
    ensures b.n == Min(|b.history|, b.bufferSize) && b.n <= b.bufferSize
  {
  }

  /** Every valid slot of the arrays holds the latest transition appended to it. */
  lemma BufferSlotHoldsLastWriter(b: ReplayBuffer, i: nat)
    requires b.Valid() && i < b.n
    ensures b.RowAt(i) == Stored(b.history[LastWriter(|b.history|, b.bufferSize, i)])
  {
    ReplayHoldsLastWriter(b.history, b.bufferSize, i);
  }
}
