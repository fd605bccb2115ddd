/**
 * The algorithm objects: their counters, hyperparameters and owned buffer (kept
 * as the log of records appended to it), and the `step` each family runs.
 * Subclassing is replaced by composition: QLearning owns its off-policy core.
 */
module Agents {
  import opened Types
  import opened Control

  /** `gamma ** nstep`: a discount factor in [0, 1] raised to a power is again one. */
  function Pow(x: real, k: nat): (r: real)
    ensures k == 0 ==> r == 1.0
    ensures 0.0 <= x <= 1.0 ==> 0.0 <= r <= 1.0
    ensures 0.0 <= x <= 1.0 && 0 < k ==> r <= x
  {
    if k == 0 then 1.0
    else
      var rest := Pow(x, k - 1);
      var r := x * rest;
      assert 0.0 <= x <= 1.0 ==> 0.0 <= rest <= 1.0 && 0.0 <= r <= x by {
        UnitProduct(x, rest);
      }
      r
  }

  /** A product of two factors in [0, 1] lies in [0, 1] and is at most its first factor. */
  lemma UnitProduct(x: real, y: real)
    ensures 0.0 <= x <= 1.0 && 0.0 <= y <= 1.0 ==> 0.0 <= x * y <= x
  {
    if 0.0 <= x <= 1.0 && 0.0 <= y <= 1.0 {
      assert 0.0 <= x * (1.0 - y);
      assert x * (1.0 - y) == x - x * y;
    }
  }

  /** Base class for on-policy actor-critic algorithms: one rollout of `bufferSize` steps per update. */
  class OnPolicyActorCritic {
    var envStep: nat
    var learningStep: nat
    const numSteps: nat
    const gamma: real
    const discount: real
    const bufferSize: nat
    const batchSize: nat
    /** The records appended to the rollout buffer, oldest first. */
    var appended: seq<OnPolicyRecord>

    constructor (numSteps: nat, gamma: real, bufferSize: nat, batchSize: nat)
      ensures envStep == 0 && learningStep == 0 && appended == []
      ensures this.numSteps == numSteps && this.gamma == gamma && discount == gamma
      ensures this.bufferSize == bufferSize && this.batchSize == batchSize
    {
      envStep, learningStep := 0, 0;
      this.numSteps, this.gamma, discount := numSteps, gamma, gamma;
      this.bufferSize, this.batchSize := bufferSize, batchSize;
      appended := [];
    }

    /** `is_update`: the on-policy cadence at the current `env_step`. */
    function IsUpdate(): (b: bool)
      reads this
      requires 0 < bufferSize
      ensures b <==> OnPolicyIsUpdate(envStep, bufferSize)
    {
      OnPolicyIsUpdate(envStep, bufferSize)
    }

    /**
     * Counts the step, acts with the explored action, appends the transition with
     * its truncation-aware mask and log-probability, and restarts the episode on done.
     */
    method Step(env: Env, state: Observation, t: nat, explored: (Action, real)) returns (nextState: Observation, t': nat)
      modifies this
      ensures envStep == old(envStep) + 1 && learningStep == old(learningStep)
      ensures var s := OnPolicyStep(env, state, t, explored);
        appended == old(appended) + [s.record] && nextState == s.nextState && t' == s.t
    {
      t' := t + 1;
      envStep := envStep + 1;

      var (action, logPi) := explored;
      var o := env.respond(action);
      var mask := Mask(t', env.maxEpisodeSteps, o.done);
      appended := appended + [OnPolicyRecord(state, action, o.reward, mask, logPi, o.nextState)];

      nextState := o.nextState;
      if o.done {
        t' := 0;
        nextState := env.reset;
      }
    }
  }

  /** Base class for off-policy algorithms: warm-up, update interval and target-network rule. */
  class OffPolicyAlgorithm {
    var envStep: nat
    var learningStep: nat
    const numSteps: nat
    const gamma: real
    const nstep: nat
    const discount: real
    const bufferSize: nat
    const usePer: bool
    const batchSize: nat
    const startSteps: nat
    const updateInterval: nat
    const target: TargetUpdate
    /** The records appended to the replay buffer, oldest first. */
    var appended: seq<OffPolicyRecord>

    constructor (numSteps: nat, gamma: real, nstep: nat, bufferSize: nat, usePer: bool, batchSize: nat,
                 startSteps: nat, updateInterval: nat, updateIntervalTarget: Option<int>, tau: Option<real>)
      requires TruthyInt(updateIntervalTarget) || TruthyReal(tau)
      ensures envStep == 0 && learningStep == 0 && appended == []
      ensures this.numSteps == numSteps && this.gamma == gamma && this.nstep == nstep
      ensures discount == Pow(gamma, nstep)
      ensures this.bufferSize == bufferSize && this.usePer == usePer && this.batchSize == batchSize
      ensures this.startSteps == startSteps && this.updateInterval == updateInterval
      ensures Some(target) == TargetRule(updateIntervalTarget, tau)
    {
      envStep, learningStep := 0, 0;
      this.numSteps, this.gamma, this.nstep := numSteps, gamma, nstep;
      discount := Pow(gamma, nstep);
      this.bufferSize, this.usePer, this.batchSize := bufferSize, usePer, batchSize;
      this.startSteps, this.updateInterval := startSteps, updateInterval;
      if TruthyInt(updateIntervalTarget) {
        target := Hard(updateIntervalTarget.value);
      } else {
        target := Soft(tau.value);
      }
      appended := [];
    }

    /** `is_update`: the off-policy cadence at the current `env_step`. */
    function IsUpdate(): (b: bool)
      reads this
      requires 0 < updateInterval
      ensures b <==> OffPolicyIsUpdate(envStep, updateInterval, startSteps)
    {
      OffPolicyIsUpdate(envStep, updateInterval, startSteps)
    }

    /**
     * Counts the step, samples the action space during warm-up and otherwise
     * uses the explored action, appends the six-field record and restarts the
     * episode on done.
     */
    method Step(env: Env, state: Observation, t: nat, randomAction: Action, policyAction: Action)
      returns (nextState: Observation, t': nat)
      modifies this
      ensures envStep == old(envStep) + 1 && learningStep == old(learningStep)
      ensures var s := OffPolicyStep(startSteps, envStep, env, state, t, randomAction, policyAction);
        appended == old(appended) + [s.record] && nextState == s.nextState && t' == s.t
    {
      t' := t + 1;
      envStep := envStep + 1;

      var action;
      if envStep <= startSteps {
        action := randomAction;
      } else {
        action := policyAction;
      }

      var o := env.respond(action);
      var mask := Mask(t', env.maxEpisodeSteps, o.done);
      appended := appended + [OffPolicyRecord(state, action, o.reward, mask, o.nextState, o.done)];

      nextState := o.nextState;
      if o.done {
        t' := 0;
        nextState := env.reset;
      }
    }
  }

  /** Base class for discrete Q-learning: an off-policy core with a hard target copy and two epsilons. */
  class QLearning {
    const core: OffPolicyAlgorithm
    const eps: real
    const epsEval: real

    constructor (numSteps: nat, gamma: real, nstep: nat, bufferSize: nat, usePer: bool, batchSize: nat,
                 startSteps: nat, updateInterval: nat, updateIntervalTarget: int, eps: real, epsEval: real)
      requires updateIntervalTarget != 0
      ensures fresh(core) && core.envStep == 0 && core.learningStep == 0 && core.appended == []
      ensures core.numSteps == numSteps && core.gamma == gamma && core.nstep == nstep
      ensures core.discount == Pow(gamma, nstep)
      ensures core.bufferSize == bufferSize && core.usePer == usePer && core.batchSize == batchSize
      ensures core.startSteps == startSteps && core.updateInterval == updateInterval
      ensures core.target == Hard(updateIntervalTarget)
      ensures this.eps == eps && this.epsEval == epsEval
    {
      core := new OffPolicyAlgorithm(numSteps, gamma, nstep, bufferSize, usePer, batchSize,
                                     startSteps, updateInterval, Some(updateIntervalTarget), None);
      this.eps, this.epsEval := eps, epsEval;
    }

    /**
     * Evaluation-time action: the sampled action when the draw is below
     * `epsEval`, otherwise the greedy action `forward` gives for the state.
     */
    function SelectAction(state: Observation, draw: real, sampled: Action, forward: Observation -> Action): (a: Action)
      ensures draw < epsEval ==> a == sampled
      ensures epsEval <= draw ==> a == forward(state)
    {
      EpsilonGreedy(draw, epsEval, sampled, forward(state))
    }

    /** Training-time action: the same choice with the exploration rate `eps`. */
    function Explore(state: Observation, draw: real, sampled: Action, forward: Observation -> Action): (a: Action)
      ensures draw < eps ==> a == sampled
      ensures eps <= draw ==> a == forward(state)
    {
      EpsilonGreedy(draw, eps, sampled, forward(state))
    }

    /**
     * The inherited off-policy `step`, with `explore` answering after warm-up:
     * `randomAction` is the warm-up sample, and `draw`, `sampled` and `forward`
     * are what `Explore` consumes.
     */
    method Step(env: Env, state: Observation, t: nat, randomAction: Action,
                draw: real, sampled: Action, forward: Observation -> Action)
      returns (nextState: Observation, t': nat)
      modifies core
      ensures core.envStep == old(core.envStep) + 1 && core.learningStep == old(core.learningStep)
      ensures var s := OffPolicyStep(core.startSteps, core.envStep, env, state, t, randomAction,
                                     Explore(state, draw, sampled, forward));
        core.appended == old(core.appended) + [s.record] && nextState == s.nextState && t' == s.t
      ensures core.startSteps < core.envStep && draw < eps ==> core.appended[|core.appended| - 1].action == sampled
      ensures core.startSteps < core.envStep && eps <= draw ==>
        core.appended[|core.appended| - 1].action == forward(state)
    {
      nextState, t' := core.Step(env, state, t, randomAction, Explore(state, draw, sampled, forward));
    }
  }
}
