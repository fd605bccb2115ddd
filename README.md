# rljax replay buffer and algorithm step machine, in Dafny

This project models two sequential parts of the rljax reinforcement-learning toolkit and proves properties of them.

1. **`ReplayBuffer`** (`rljax/common/buffer.py`). It is fixed-capacity storage in five parallel arrays: state, action, reward, done and next state. It keeps a write cursor `_p` and a fill count `_n`. `append` writes slot `_p`, advances the cursor modulo the capacity and saturates the fill count. `sample` gathers one row per random index in `[0, _n)`.
2. **The step/update control machine** (`rljax/algorithm/base.py`). It covers the counters `env_step` and `learning_step`, the on-policy and off-policy update cadences, `step` with its warm-up action choice and its truncation-versus-terminal mask, the constructor's target-update rule (hard copy or soft blending) and Q-learning's epsilon-greedy choice.

Layout:

- `types.dfy` (`Types`): observations, actions, action spaces and `Option`.
- `modular.dfy` (`Modular`): helper facts about Euclidean division.
- `replay_slots.dfy` (`ReplaySlots`): the circular storage stated on values. `Replay(h, C)` is the valid prefix of the arrays after the appends `h`. `LastWriter` gives the append a slot holds. The lemmas prove overwrite on wrap.
- `replay_buffer.dfy` (`Buffer`): the class `ReplayBuffer` over five arrays. A ghost `history` records every append. `Valid()` ties the cursor, the fill count and the array contents to `Replay(history)`.
- `control.dfy` (`Control`): the pure rules of `base.py`. It holds the cadences, the mask, the episode counter, the target rule, epsilon-greedy, one step as a function, and runs of off-policy steps.
- `agents.dfy` (`Agents`): the classes `OnPolicyActorCritic`, `OffPolicyAlgorithm` and `QLearning`. Each one keeps its counters and a log of the records appended to its buffer. Each `Step` method is proved against the step function in `Control`.

Modelling choices:

- The environment is an oracle `Env`. It has a response function from actions to `(next_state, reward, done)`, the observation `reset()` returns, and `_max_episode_steps`.
- These calls become inputs: `action_space.sample()`, `explore`, the random draw `np.random.rand()` and the network call `forward`.
- The algorithms' buffer is a log of appended records. `base.py` imports its buffers from `rljax.buffer`, which is not part of this model. The off-policy step appends six fields, while `common/buffer.py` takes five. So the step model is deliberately not tied to `ReplayBuffer`.
- Python's inheritance becomes composition. `QLearning` owns an `OffPolicyAlgorithm` core.

Behaviour of the code worth noting:

- On an empty buffer, `sample` fails inside numpy's `randint` for a non-empty draw, while a draw of size zero gives empty arrays. `Sample` returns `None` exactly when `_n == 0` and at least one index is drawn.
- The constructor accepts both a target interval and a tau. The interval then wins with τ = 1.0.
- With an update interval of 4 and 10 warm-up steps, `is_update` holds at step 12. `OffPolicyCadenceExample` proves this.
- The last warm-up step and the first update can coincide. At `env_step == start_steps` the action is still sampled from the action space, and `is_update` holds there when `start_steps` is a multiple of the interval. `LastWarmUpStepMayUpdate` proves this.
- An unsupported action space raises nothing in the code, because `NotImplementedError` is evaluated but not raised. The model makes it a precondition of construction.
- A step that reaches the time limit is stored with mask `False` even when the environment reports a true terminal on that step.

## Model

| member | source | states |
|---|---|---|
| ReplaySlots.DoneAsFloat | rljax/common/buffer.py:33 | `float(done)` is 0.0 or 1.0, and it is 1.0 exactly when done holds |
| ReplaySlots.Stored | rljax/common/buffer.py:30-34 | the row written for a transition stores done as 0.0 or 1.0, and the row reads back as the transition, the done flag included |
| ReplaySlots.LastWriter | rljax/common/buffer.py:30-37 | the last append among the first k that wrote slot i: it wrote slot i, and no later append before k did |
| ReplaySlots.Replay | rljax/common/buffer.py:29-37 | the valid prefix after h appends to a fresh buffer has length min(\|h\|, C) |
| ReplaySlots.ReplayAppend | rljax/common/buffer.py:30-37 | one more append extends the valid prefix while it is shorter than C, and afterwards overwrites slot \|h\| mod C |
| ReplaySlots.ReplayAppendAt | rljax/common/buffer.py:30-37 | slot by slot, one append changes only slot \|h\| mod C, which takes the new row; every other valid slot keeps its row |
| ReplaySlots.ReplayHoldsLastWriter | rljax/common/buffer.py:30-37 | overwrite on wrap: every valid slot i holds the most recent transition whose append index j has j mod C == i |
| ReplaySlots.ReplayBeforeWrap | rljax/common/buffer.py:30-37 | until the first wrap, slot i holds the i-th transition appended |
| ReplaySlots.ReplayOnlyHoldsAppended | rljax/common/buffer.py:30-37 | every valid slot reads back as a transition that was actually appended |
| ReplaySlots.SevenAppendsIntoFive | rljax/common/buffer.py:29-37 | with capacity 5, seven appends leave slots 0..4 holding transitions 6, 7, 3, 4, 5 (1-based) |
| Buffer.ReplayBuffer.constructor | rljax/common/buffer.py:12-27 | a fresh buffer has `_n = _p = 0`, five freshly allocated arrays of length `buffer_size` and an empty history |
| Buffer.ReplayBuffer.Append | rljax/common/buffer.py:29-37 | the transition goes into slot `_p` of all five arrays, with done as 0.0/1.0, and every other slot is unchanged; the cursor becomes (old `_p` + 1) mod C and stays below C; the fill count becomes min(old `_n` + 1, C), never decreasing and never exceeding C; the invariant tying the arrays to the history is kept |
| Buffer.ReplayBuffer.Sample | rljax/common/buffer.py:39-47 | on an empty buffer a non-empty draw returns nothing and a zero-size draw an empty batch; otherwise each of the five fields has one row per index, and row k of every field is taken at the same index, the latest transition stored there |
| Buffer.CursorStep | rljax/common/buffer.py:36 | advancing the cursor of k appends modulo C gives the cursor of k + 1 appends |
| Buffer.FreshBufferCounters | rljax/common/buffer.py:13-14 | after k appends since construction `_p == k mod C`, within `[0, C)`, and `_n == min(k, C)`, within `[0, C]` |
| Buffer.BufferSlotHoldsLastWriter | rljax/common/buffer.py:30-37 | every valid slot of the five arrays holds the most recent transition appended to it |
| Control.OnPolicyIsUpdate | rljax/algorithm/base.py:113-114 | an on-policy update is due exactly when `env_step` is a whole number of rollouts of `buffer_size` steps: at step 0, never within the first rollout |
| Control.OffPolicyIsUpdate | rljax/algorithm/base.py:191-192 | an off-policy update is due exactly when `env_step` is a multiple of `update_interval` and at least `start_steps`; never before `start_steps` and never within the first interval |
| Control.OnPolicyUpdateOncePerRollout | rljax/algorithm/base.py:113-114 | after an on-policy update step, the next update is exactly `buffer_size` steps later with none in between |
| Control.OffPolicyUpdateSchedule | rljax/algorithm/base.py:191-192 | an off-policy update happens only once `env_step >= start_steps`; after one, the next is exactly `update_interval` steps later with none in between |
| Control.OffPolicyCadenceExample | rljax/algorithm/base.py:191-192 | with interval 4 and 10 warm-up steps: no update at 8, 10 or 13; updates at 12, 16 and 20 |
| Control.LastWarmUpStepMayUpdate | rljax/algorithm/base.py:191-192 | at `env_step == start_steps` the step still takes the sampled action, and an update is due there exactly when `start_steps` is a multiple of the interval |
| Control.TargetRule | rljax/algorithm/base.py:153-189 | construction fails exactly when neither `update_interval_target` nor `tau` is truthy; a truthy interval gives a hard copy (τ = 1.0); otherwise the given nonzero tau is used |
| Control.EpsilonGreedy | rljax/algorithm/base.py:311-325 | a draw below epsilon gives the sampled action; any other draw gives the greedy action |
| Control.EpsilonGreedyExtremes | rljax/algorithm/base.py:311-325 | for draws in [0, 1): epsilon ≤ 0 never explores, epsilon ≥ 1 always explores, and a draw that explores at one epsilon explores at every larger one |
| Control.Mask | rljax/algorithm/base.py:208 | the stored terminal flag holds exactly when done holds and the episode step is not `_max_episode_steps` |
| Control.EpisodeStepAfter | rljax/algorithm/base.py:211-215 | the returned episode counter is 0 exactly on done, and t + 1 otherwise |
| Control.OffPolicyStep | rljax/algorithm/base.py:198-215 | the appended record starts at the given state; its action is the sampled one exactly during warm-up (`env_step <= start_steps`) and the explored one after; it carries the environment's answer to that action; its mask is done unless the step hits the time limit, where it is false; the counter is 0 exactly on done and t + 1 otherwise; the next observation is the reset one after done |
| Control.OnPolicyStep | rljax/algorithm/base.py:116-129 | the appended record carries the state, the explored action and its log-probability, and the environment's answer; its mask is done unless the step hits the time limit; the counter restarts and the environment resets exactly on done, and the counter is t + 1 otherwise |
| Control.OffPolicyRun | rljax/algorithm/base.py:198-215 | a run of off-policy steps appends exactly one record per step |
| Control.OffPolicyRunWarmUp | rljax/algorithm/base.py:202-205 | the k-th step of a run takes the sampled action exactly when it is among the first `start_steps` environment steps overall |
| Control.OffPolicyRunContinues | rljax/algorithm/base.py:207-215 | each step of a run starts from the observation the previous step returned, which is the reset observation after a done |
| Agents.Pow | rljax/algorithm/base.py:179 | `gamma ** nstep` is 1 for nstep 0, and for gamma in [0, 1] it stays in [0, 1] and at most gamma once nstep is positive |
| Agents.OnPolicyActorCritic.constructor | rljax/algorithm/base.py:71-95 | `env_step` and `learning_step` start at 0, the rollout log is empty, and the discount is gamma |
| Agents.OnPolicyActorCritic.IsUpdate | rljax/algorithm/base.py:113-114 | `is_update` is the on-policy cadence applied to the object's current `env_step` and `buffer_size` |
| Agents.OnPolicyActorCritic.Step | rljax/algorithm/base.py:116-129 | `env_step` grows by exactly 1, `learning_step` is unchanged, and exactly the record of `OnPolicyStep` is appended, with its next observation and counter returned |
| Agents.OffPolicyAlgorithm.constructor | rljax/algorithm/base.py:137-189 | needs a truthy target interval or tau; counters start at 0 with an empty log; the discount is gamma to the power nstep; the target rule is that of `TargetRule` |
| Agents.OffPolicyAlgorithm.IsUpdate | rljax/algorithm/base.py:191-192 | `is_update` is the off-policy cadence applied to the object's current `env_step`, `update_interval` and `start_steps` |
| Agents.OffPolicyAlgorithm.Step | rljax/algorithm/base.py:198-215 | `env_step` grows by exactly 1, `learning_step` is unchanged, and exactly the record of `OffPolicyStep` at the new `env_step` is appended, with its next observation and counter returned |
| Agents.QLearning.constructor | rljax/algorithm/base.py:277-309 | needs a truthy target interval (no tau is passed); the off-policy core starts at 0 with an empty log and a hard target copy, keeps every hyperparameter passed on, and has discount `gamma ** nstep`; both epsilons are stored |
| Agents.QLearning.SelectAction | rljax/algorithm/base.py:311-317 | a draw below `eps_eval` gives the sampled action, otherwise `forward` of the state |
| Agents.QLearning.Explore | rljax/algorithm/base.py:319-325 | a draw below `eps` gives the sampled action, otherwise `forward` of the state |
| Agents.QLearning.Step | rljax/algorithm/base.py:200-215 | the inherited off-policy `step` with `explore` answering: `env_step` grows by 1 and exactly the `OffPolicyStep` record is appended; after warm-up, the stored action is the sampled one when the draw is below `eps` and `forward` of the state otherwise |

## Left out

- Floating point: observations, rewards and done flags are reals. float32 rounding and array shapes are not modelled.
- The action array's layout per action space is not modelled. It is float32 for Box and int64 for Discrete, but any `Action` value can be appended.
- Buffer.ReplayBuffer.constructor: requires a positive capacity. A zero-capacity buffer constructs in the source, but its first `append` raises IndexError.
- The random draws of `sample`, `np.random.rand()`, `action_space.sample()` and the PRNG key sequence are inputs. Seeding is not modelled.
- `jax.device_put`, `jax.jit` and the `soft_update` blend itself are out. These are calls into JAX. Only the chosen τ is modelled.
- The `fake_state`/`fake_action` construction in `Algorithm.__init__` is out. It only prepares JIT inputs.
- Prioritized, n-step and rollout buffers from `rljax.buffer` are not part of this model. The algorithms append to a log instead. `use_per` is only stored, and `nstep` is stored and used only for the discount `gamma ** nstep`. The `beta_steps` division is not modelled.
- `update` and the increments of `learning_step` are abstract in `base.py`. The model only starts the counter at 0 and keeps it unchanged in `step`.
- The actor-critic `select_action`/`explore` wrappers around the abstract `_select_action`/`_explore` appear only as the inputs they return.
- Control.OnPolicyIsUpdate and Control.OffPolicyIsUpdate: both require a positive divisor, because Python raises ZeroDivisionError for a zero buffer size or interval. Hyperparameters are natural numbers.
- The environment's own state and its `info` dictionary are out. Each step's answer is a pure function of the action.
