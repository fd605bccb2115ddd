/**
 * The circular storage discipline of the replay buffer, stated on values: which
 * slot the k-th append writes, which append a slot holds after a run of appends,
 * and what the valid prefix of the storage arrays contains.
 */
module ReplaySlots {
  import opened Types
  import Modular

  /** A transition as handed to `append`. */
  datatype Transition = Transition(state: Observation, action: Action, reward: real, done: bool, nextState: Observation)

  /** One row across the five storage arrays: reward is kept as a float, done as 0.0 or 1.0. */
  datatype Row = Row(state: Observation, action: Action, reward: real, done: real, nextState: Observation)

  /** `float(done)` of a Python bool. */
  function DoneAsFloat(done: bool): (f: real)
    ensures f == 0.0 || f == 1.0
    ensures f == 1.0 <==> done
  {
    if done then 1.0 else 0.0
  }

  /** Reads a transition back out of a stored row. */
  function Recovered(row: Row): (t: Transition)
  {
    Transition(row.state, row.action, row.reward, row.done != 0.0, row.nextState)
  }

  /**
   * The row `append` writes for a transition: done is stored as 0.0 or 1.0 and
   * reads back as the same flag, so the row reads back as the transition.
   */
  function Stored(t: Transition): (row: Row)
    ensures row.done == 0.0 || row.done == 1.0
    ensures Recovered(row) == t
  {
    Row(t.state, t.action, t.reward, DoneAsFloat(t.done), t.nextState)
  }

  /** The slot that the append with 0-based index `j` writes. */
  function Slot(j: nat, capacity: nat): (i: nat)
    requires 0 < capacity
    ensures i < capacity
  {
    j % capacity
  }

  /**
   * Among the first `k` appends (0-based indices 0 .. k-1), the index of the
   * most recent one that wrote slot `i`.
   */
  function LastWriter(k: nat, capacity: nat, i: nat): (j: nat)
    requires 0 < capacity && i < capacity && i < k
    ensures j < k && Slot(j, capacity) == i
    ensures forall later :: j < later < k ==> Slot(later, capacity) != i
    decreases k
  {
    if Slot(k - 1, capacity) == i then k - 1 else LastWriter(k - 1, capacity, i)
  }

  /**
   * The valid prefix `[0, n)` of the storage after the appends `h`, from an empty
   * buffer: the k-th append extends the prefix while it is shorter than the
   * capacity and overwrites slot `k % capacity` once it is full.
   */
  function Replay(h: seq<Transition>, capacity: nat): (slots: seq<Row>)
    requires 0 < capacity
    ensures |slots| == Min(|h|, capacity)
    decreases |h|
  {
    if h == [] then []
    else
      var k := |h| - 1;
      var before := Replay(h[..k], capacity);
      if k < capacity then before + [Stored(h[k])]
      else before[Slot(k, capacity) := Stored(h[k])]
  }

  /** One more append: the prefix grows while there is room, then slot `|h| % capacity` is overwritten. */
  lemma ReplayAppend(h: seq<Transition>, t: Transition, capacity: nat)
    requires 0 < capacity
    ensures Replay(h + [t], capacity) ==
      if |h| < capacity then Replay(h, capacity) + [Stored(t)]
      else Replay(h, capacity)[Slot(|h|, capacity) := Stored(t)]
  {
    assert (h + [t])[..|h|] == h;
  }

  /** The same step slot by slot: only slot `|h| % capacity` changes, and it takes the new row. */
  lemma ReplayAppendAt(h: seq<Transition>, t: Transition, capacity: nat, i: nat)
    requires 0 < capacity && i < Min(|h| + 1, capacity)
    ensures Replay(h + [t], capacity)[i] ==
      if i == Slot(|h|, capacity) then Stored(t) else Replay(h, capacity)[i]
  {
    ReplayAppend(h, t, capacity);
    if |h| < capacity {
      Modular.ModUnique(|h|, capacity, 0, |h|);
    }
  }

  /** Overwrite on wrap: every valid slot holds the latest transition appended to it. */
  lemma {:induction false} ReplayHoldsLastWriter(h: seq<Transition>, capacity: nat, i: nat)
    requires 0 < capacity && i < Min(|h|, capacity)
    ensures Replay(h, capacity)[i] == Stored(h[LastWriter(|h|, capacity, i)])
    decreases |h|
  {
    var k := |h| - 1;
    var prefix := h[..k];
    assert h == prefix + [h[k]];
    ReplayAppend(prefix, h[k], capacity);
    if k < capacity {
      Modular.ModUnique(k, capacity, 0, k);
    }
    if Slot(k, capacity) != i {
      assert i < Min(k, capacity);
      ReplayHoldsLastWriter(prefix, capacity, i);
      assert LastWriter(|h|, capacity, i) == LastWriter(k, capacity, i);
    }
  }

  /** Until the buffer first wraps, slot `i` holds the `i`-th transition appended. */
  lemma {:induction false} ReplayBeforeWrap(h: seq<Transition>, capacity: nat, i: nat)
    requires 0 < capacity && |h| <= capacity && i < |h|
    ensures Replay(h, capacity)[i] == Stored(h[i])
    decreases |h|
  {
    var k := |h| - 1;
    if i < k {
      ReplayBeforeWrap(h[..k], capacity, i);
    }
  }

  /** Every stored row is some appended transition, read back unchanged. */
  lemma ReplayOnlyHoldsAppended(h: seq<Transition>, capacity: nat, i: nat)
    requires 0 < capacity && i < Min(|h|, capacity)
    ensures exists j :: 0 <= j < |h| && Recovered(Replay(h, capacity)[i]) == h[j]
  {
    ReplayHoldsLastWriter(h, capacity, i);
  }

  /**
   * Seven appends into a buffer of capacity five: the buffer is full and holds
   * the 6th and 7th transitions in slots 0 and 1 and the 3rd to 5th in slots 2 to 4.
   */
  lemma SevenAppendsIntoFive(h: seq<Transition>)
    requires |h| == 7
    ensures Replay(h, 5) == [Stored(h[5]), Stored(h[6]), Stored(h[2]), Stored(h[3]), Stored(h[4])]
  {
    var slots := Replay(h, 5);
    forall i | 0 <= i < 5
      ensures slots[i] == [Stored(h[5]), Stored(h[6]), Stored(h[2]), Stored(h[3]), Stored(h[4])][i]
    {
      ReplayHoldsLastWriter(h, 5, i);
    }
  }
}
