/**
 * The rules of the algorithm step/update machine, stated on values: the update
 * cadences, the warm-up choice of action, the truncation-versus-terminal mask,
 * the episode counter, the target-update choice and the epsilon-greedy branch.
 * The environment and the policy are oracles whose answers are inputs.
 */
module Control {
  import opened Types
  import Modular

  /** What one `env.step(action)` answers (the info dictionary is dropped). */
  datatype Outcome = Outcome(nextState: Observation, reward: real, done: bool)

  /**
   * The environment as an abstract stepper: its answer to an action, the
   * observation `reset()` returns, and `_max_episode_steps` (None when unset).
   */
  datatype Env = Env(respond: Action -> Outcome, reset: Observation, maxEpisodeSteps: Option<int>)

  // ---------------------------------------------------------------------------
  // Update cadences

  /** On-policy `is_update`: a whole number of rollouts of `bufferSize` steps has been collected. */
  predicate OnPolicyIsUpdate(envStep: nat, bufferSize: nat)
    requires 0 < bufferSize
    ensures OnPolicyIsUpdate(envStep, bufferSize) <==> envStep == (envStep / bufferSize) * bufferSize
    ensures envStep == 0 ==> OnPolicyIsUpdate(envStep, bufferSize)
    ensures 0 < envStep < bufferSize ==> !OnPolicyIsUpdate(envStep, bufferSize)
  {
    envStep % bufferSize == 0
  }

  /** Off-policy `is_update`: every `updateInterval` steps, never before `startSteps`. */
  predicate OffPolicyIsUpdate(envStep: nat, updateInterval: nat, startSteps: nat)
    requires 0 < updateInterval
    ensures OffPolicyIsUpdate(envStep, updateInterval, startSteps) <==>
      startSteps <= envStep && envStep == (envStep / updateInterval) * updateInterval
    ensures envStep < startSteps ==> !OffPolicyIsUpdate(envStep, updateInterval, startSteps)
    ensures 0 < envStep < updateInterval ==> !OffPolicyIsUpdate(envStep, updateInterval, startSteps)
  {
    envStep % updateInterval == 0 && envStep >= startSteps
  }

  /** Two distinct multiples of `c` are at least `c` apart. */
  lemma MultiplesAreApart(a: nat, b: nat, c: nat)
    requires 0 < c && a % c == 0 && b % c == 0 && a < b
    ensures a + c <= b
  {
    var qa, qb := a / c, b / c;
    assert a == qa * c && b == qb * c;
    if qb <= qa {
      if qb < qa {
        Modular.MulAtLeast(qa - qb, c);
      }
      assert false;
    }
    Modular.MulAtLeast(qb - qa, c);
  }

  /** The step `c` after a multiple of `c` is a multiple of `c` again. */
  lemma NextMultiple(a: nat, c: nat)
    requires 0 < c && a % c == 0
    ensures (a + c) % c == 0
  {
    Modular.ModUnique(a + c, c, a / c + 1, 0);
  }

  /**
   * On-policy updates come exactly once per rollout: after an update step the
   * next `bufferSize - 1` steps are not update steps and the one after is.
   */
  lemma OnPolicyUpdateOncePerRollout(envStep: nat, bufferSize: nat)
    requires 0 < bufferSize && OnPolicyIsUpdate(envStep, bufferSize)
    ensures OnPolicyIsUpdate(envStep + bufferSize, bufferSize)
    ensures forall later: nat :: envStep < later < envStep + bufferSize ==> !OnPolicyIsUpdate(later, bufferSize)
  {
    NextMultiple(envStep, bufferSize);
    forall later: nat | envStep < later < envStep + bufferSize
      ensures !OnPolicyIsUpdate(later, bufferSize)
    {
      if later % bufferSize == 0 {
        MultiplesAreApart(envStep, later, bufferSize);
      }
    }
  }

  /**
   * Off-policy updates: none before `startSteps`, one at every multiple of the
   * interval from `startSteps` on, and after an update the next one comes
   * exactly `updateInterval` steps later.
   */
  lemma OffPolicyUpdateSchedule(envStep: nat, updateInterval: nat, startSteps: nat)
    requires 0 < updateInterval && OffPolicyIsUpdate(envStep, updateInterval, startSteps)
    ensures startSteps <= envStep
    ensures OffPolicyIsUpdate(envStep + updateInterval, updateInterval, startSteps)
    ensures forall later: nat :: envStep < later < envStep + updateInterval ==>
      !OffPolicyIsUpdate(later, updateInterval, startSteps)
  {
    NextMultiple(envStep, updateInterval);
    forall later: nat | envStep < later < envStep + updateInterval
      ensures !OffPolicyIsUpdate(later, updateInterval, startSteps)
    {
      if later % updateInterval == 0 {
        MultiplesAreApart(envStep, later, updateInterval);
      }
    }
  }

  /** With an interval of 4 and 10 warm-up steps: no update at 8 or 10, updates at 12, 16 and 20. */
  lemma OffPolicyCadenceExample()
    ensures !OffPolicyIsUpdate(8, 4, 10) && !OffPolicyIsUpdate(10, 4, 10) && !OffPolicyIsUpdate(13, 4, 10)
    ensures OffPolicyIsUpdate(12, 4, 10) && OffPolicyIsUpdate(16, 4, 10) && OffPolicyIsUpdate(20, 4, 10)
  {
  }

  // ---------------------------------------------------------------------------
  // Target-network update rule

  /** How target parameters follow online ones: a hard copy every `interval` updates, or soft blending by `tau`. */
  datatype TargetUpdate = Hard(interval: int) | Soft(tau: real)

  /** The blend coefficient handed to `soft_update`: a hard copy is a blend with coefficient 1. */
  function Tau(u: TargetUpdate): (tau: real)
  {
    match u
    case Hard(_) => 1.0
    case Soft(tau) => tau
  }

  /** Python truthiness of an optional int and of an optional float. */
  predicate TruthyInt(o: Option<int>) { o.Some? && o.value != 0 }
  predicate TruthyReal(o: Option<real>) { o.Some? && o.value != 0.0 }

  /**
   * The constructor's target rule: None when the assertion that a target
   * interval or a tau is given fails; a hard copy when the interval is given;
   * soft blending with the given tau otherwise.
   */
  function TargetRule(updateIntervalTarget: Option<int>, tau: Option<real>): (r: Option<TargetUpdate>)
    ensures r.None? <==> !TruthyInt(updateIntervalTarget) && !TruthyReal(tau)
    ensures TruthyInt(updateIntervalTarget) ==>
      r == Some(Hard(updateIntervalTarget.value)) && Tau(r.value) == 1.0
    ensures !TruthyInt(updateIntervalTarget) && TruthyReal(tau) ==>
      r == Some(Soft(tau.value)) && Tau(r.value) != 0.0
  {
    if !(TruthyInt(updateIntervalTarget) || TruthyReal(tau)) then None
    else if TruthyInt(updateIntervalTarget) then Some(Hard(updateIntervalTarget.value))
    else Some(Soft(tau.value))
  }

  // ---------------------------------------------------------------------------
  // Epsilon-greedy action choice of Q-learning

  /** A uniform draw from `[0, 1)` below `eps` picks the sampled action, otherwise the greedy one. */
  function EpsilonGreedy(draw: real, eps: real, randomAction: Action, greedyAction: Action): (a: Action)
    ensures draw < eps ==> a == randomAction
    ensures eps <= draw ==> a == greedyAction
  {
    if draw < eps then randomAction else greedyAction
  }

  /** Epsilon 0 never explores, epsilon 1 always does, and a draw that explores at `eps` explores at every larger epsilon. */
  lemma EpsilonGreedyExtremes(draw: real, eps: real, randomAction: Action, greedyAction: Action)
    requires 0.0 <= draw < 1.0
    ensures eps <= 0.0 ==> EpsilonGreedy(draw, eps, randomAction, greedyAction) == greedyAction
    ensures 1.0 <= eps ==> EpsilonGreedy(draw, eps, randomAction, greedyAction) == randomAction
    ensures forall larger :: eps <= larger && draw < eps ==>
      EpsilonGreedy(draw, larger, randomAction, greedyAction) == randomAction
  {
  }

  // ---------------------------------------------------------------------------
  // One environment step

  /**
   * The terminal flag stored with a transition: a step that ends the episode by
   * reaching the time limit is stored as not terminal, so that truncation is not
   * learned as a true end of the episode.
   */
  function Mask(t: int, maxEpisodeSteps: Option<int>, done: bool): (mask: bool)
    ensures mask <==> done && maxEpisodeSteps != Some(t)
  {
    if maxEpisodeSteps == Some(t) then false else done
  }

  /** The episode counter `step` returns: restarted at 0 at the end of an episode, one more otherwise. */
  function EpisodeStepAfter(t: nat, done: bool): (next: nat)
    ensures next == 0 <==> done
    ensures !done ==> next == t + 1
  {
    if done then 0 else t + 1
  }

  /** The record the off-policy `step` appends (six fields, the raw done flag last). */
  datatype OffPolicyRecord = OffPolicyRecord(state: Observation, action: Action, reward: real,
                                             mask: bool, nextState: Observation, done: bool)

  /** The record the on-policy `step` appends (with the log-probability of the action). */
  datatype OnPolicyRecord = OnPolicyRecord(state: Observation, action: Action, reward: real,
                                           mask: bool, logPi: real, nextState: Observation)

  /** What one step leaves behind: the appended record, the next observation and the episode counter. */
  datatype Stepped<R> = Stepped(record: R, nextState: Observation, t: nat)

  /**
   * The off-policy step taken as environment step number `envStep` (already
   * counted) from observation `state` at episode step `t`; `randomAction` is what
   * the action space samples and `policyAction` what `explore` answers.
   */
  function OffPolicyStep(startSteps: nat, envStep: nat, env: Env, state: Observation, t: nat,
                         randomAction: Action, policyAction: Action): (s: Stepped<OffPolicyRecord>)
    ensures s.record.state == state
    ensures envStep <= startSteps ==> s.record.action == randomAction
    ensures startSteps < envStep ==> s.record.action == policyAction
    ensures env.respond(s.record.action) == Outcome(s.record.nextState, s.record.reward, s.record.done)
    ensures s.record.mask <==> s.record.done && env.maxEpisodeSteps != Some(t + 1)
    ensures s.t == 0 <==> s.record.done
    ensures !s.record.done ==> s.t == t + 1
    ensures s.nextState == if s.record.done then env.reset else s.record.nextState
  {
    // During warm-up, the first `startSteps` environment steps, actions are sampled from the action space.
    var action := if envStep <= startSteps then randomAction else policyAction;
    var o := env.respond(action);
    var record := OffPolicyRecord(state, action, o.reward, Mask(t + 1, env.maxEpisodeSteps, o.done), o.nextState, o.done);
    Stepped(record, if o.done then env.reset else o.nextState, EpisodeStepAfter(t, o.done))
  }

  /** The on-policy step from observation `state` at episode step `t`; `explored` is what `explore` answers. */
  function OnPolicyStep(env: Env, state: Observation, t: nat, explored: (Action, real)): (s: Stepped<OnPolicyRecord>)
    ensures s.record.state == state && s.record.action == explored.0 && s.record.logPi == explored.1
    ensures env.respond(explored.0) == Outcome(s.record.nextState, s.record.reward, env.respond(explored.0).done)
    ensures s.record.mask <==> env.respond(explored.0).done && env.maxEpisodeSteps != Some(t + 1)
    ensures s.t == 0 <==> env.respond(explored.0).done
    ensures !env.respond(explored.0).done ==> s.t == t + 1
    ensures s.nextState == if env.respond(explored.0).done then env.reset else s.record.nextState
  {
    var (action, logPi) := explored;
    var o := env.respond(action);
    var record := OnPolicyRecord(state, action, o.reward, Mask(t + 1, env.maxEpisodeSteps, o.done), logPi, o.nextState);
    Stepped(record, if o.done then env.reset else o.nextState, EpisodeStepAfter(t, o.done))
  }

  /**
   * The last warm-up step and the first update can coincide: at `envStep ==
   * startSteps` the action is still sampled from the action space, and an
   * update is due when `startSteps` is a multiple of the interval.
   */
  lemma LastWarmUpStepMayUpdate(updateInterval: nat, startSteps: nat, env: Env, state: Observation, t: nat,
                                randomAction: Action, policyAction: Action)
    requires 0 < updateInterval
    ensures OffPolicyStep(startSteps, startSteps, env, state, t, randomAction, policyAction).record.action == randomAction
    ensures OffPolicyIsUpdate(startSteps, updateInterval, startSteps) <==> startSteps % updateInterval == 0
  {
  }

  // ---------------------------------------------------------------------------
  // Runs of off-policy steps

  /** The oracle answers consumed by one off-policy step. */
  datatype StepInput = StepInput(env: Env, randomAction: Action, policyAction: Action)

  /**
   * The records appended by consecutive off-policy steps, starting after
   * `envStep` steps at observation `state` and episode step `t`, each step
   * starting where the previous one left off.
   */
  function OffPolicyRun(startSteps: nat, envStep: nat, state: Observation, t: nat, inputs: seq<StepInput>)
    : (records: seq<OffPolicyRecord>)
    ensures |records| == |inputs|
    decreases |inputs|
  {
    if inputs == [] then []
    else
      var s := OffPolicyStep(startSteps, envStep + 1, inputs[0].env, state, t,
                             inputs[0].randomAction, inputs[0].policyAction);
      [s.record] + OffPolicyRun(startSteps, envStep + 1, s.nextState, s.t, inputs[1..])
  }

  /** The warm-up window: the `k`-th step of a run takes a sampled action exactly when it is among the first `startSteps` steps overall. */
  lemma {:induction false} OffPolicyRunWarmUp(startSteps: nat, envStep: nat, state: Observation, t: nat,
                                              inputs: seq<StepInput>, k: nat)
    requires k < |inputs|
    ensures OffPolicyRun(startSteps, envStep, state, t, inputs)[k].action ==
      if envStep + k + 1 <= startSteps then inputs[k].randomAction else inputs[k].policyAction
    decreases k
  {
    if k > 0 {
      var s := OffPolicyStep(startSteps, envStep + 1, inputs[0].env, state, t,
                             inputs[0].randomAction, inputs[0].policyAction);
      OffPolicyRunWarmUp(startSteps, envStep + 1, s.nextState, s.t, inputs[1..], k - 1);
    }
  }

  /**
   * Episode continuity: each step starts from the observation the previous one
   * returned, which is the environment's reset observation after a done.
   */
  lemma {:induction false} OffPolicyRunContinues(startSteps: nat, envStep: nat, state: Observation, t: nat,
                                                 inputs: seq<StepInput>, k: nat)
    requires k + 1 < |inputs|
    ensures var records := OffPolicyRun(startSteps, envStep, state, t, inputs);
      records[k + 1].state == if records[k].done then inputs[k].env.reset else records[k].nextState
    decreases k
  {
    var s := OffPolicyStep(startSteps, envStep + 1, inputs[0].env, state, t,
                           inputs[0].randomAction, inputs[0].policyAction);
    if k > 0 {
      OffPolicyRunContinues(startSteps, envStep + 1, s.nextState, s.t, inputs[1..], k - 1);
    } else {
      assert OffPolicyRun(startSteps, envStep + 1, s.nextState, s.t, inputs[1..])[0].state == s.nextState;
    }
  }
}
