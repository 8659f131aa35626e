# Grid-agent simulation engine in Dafny

A model of the simulation engine of a grid-world survival simulation. One
agent lives on a rectangular grid of `rows` × `cols` cells. It starts at
(50, 50) with 100 energy. The food map holds at most one food item per cell,
each worth 100 energy. On every tick (`update`) a live agent asks its policy
for an action. The policy is always "step right". The engine then:

- computes the neighbouring candidate cell;
- moves the agent there if the cell is inside the grid, at a cost of one
  energy;
- removes any food keyed at the candidate cell and feeds it to the agent,
  with energy clamped at 100;
- kills the agent when its energy is zero.

The model has three modules:

- `GridWorld` (`grid_world.dfy`) holds the value types of
  `src/environment.rs`: Rust's `u32` and `i32` as subset types, `Position`,
  `Direction`, `Grid`, `Food` and `Draw`. It also holds the pure operations
  on them: the direction sampling match, `Increment`, the bounds test and
  the random-position draw.
- `Agents` (`agent.dfy`) models `src/agent.rs`. `AgentState` is the value of
  the agent's three fields, and one pure function per operation says what
  that operation does to it. The class `Agent` updates the fields in place,
  and each of its methods is proved against its function.
- `Environment` (`environment.dfy`) models `State`. `Snapshot` is the value
  of the whole world. `StepSpec` and `UpdateSpec` specify one tick. `Inv` is
  the world invariant and `Run` is a sequence of ticks. The class `State`
  holds the grid, the agent object and the food map, and its methods are
  proved against those functions.

The two halves of `src/environment.rs` sit in separate modules because that
file and `src/agent.rs` import each other, and Dafny modules cannot be
mutually dependent.

Where the model departs from the source or its design description:

- `alive()` (`src/environment.rs:30`) and `maybe_die()`
  (`src/environment.rs:59`) are called but not defined in `src/agent.rs`.
  `State.Update` reads the `alive` field. `Agent.MaybeDie` is
  `if should_die() { die() }`, specified by `MaybeKilled`.
- The design description says a blocked step still costs one energy. The
  code charges energy only inside the in-bounds branch, and the model follows
  the code. So a step into a wall is free, and an agent that keeps pushing
  against a wall never dies (`BlockedAgentIsFrozen`).
- The design description calls for rejection sampling of the initial food.
  The code makes exactly `INITIAL_FOOD_COUNT` draws and drops collisions
  (`entry().or_insert`), and the model follows the code. The map may
  therefore hold fewer items.
- The design description calls the policy random. The code always returns
  `Step(Right)`.
- The code removes food at the candidate cell even when that cell is outside
  the grid. The model keeps this order. For grids whose dimensions fit in
  i32, `Inv` keeps every food key inside the grid, so the case never arises
  (`StepOutOfBoundsIsNoop`).

Random numbers are inputs to the model. A `Draw` is the pair of raw samples
behind one `rand_position` call, and `Sample` takes the drawn integer. Rust's
overflow checks become preconditions:

- `Interior` guards the `i32` increment;
- `StepTo` requires energy ≥ 1 for the `u32` subtraction;
- `EatFood` requires that the `u32` sum does not overflow.

`Inv` implies all three whenever a tick runs. The `u32 as i32` casts in the
bounds test and the position draw are modelled by `AsI32`.

## Model

| member | source | states |
|---|---|---|
| `GridWorld.AsI32` | src/environment.rs:63-64 | the cast keeps the value modulo 2^32 and is non-negative exactly for values below 2^31 |
| `GridWorld.NewFood` | src/environment.rs:145-148 | a new food item carries FOOD_ENERGY |
| `GridWorld.Discriminant` | src/environment.rs:94-103 | the eight directions are numbered 0..7 in declaration order |
| `GridWorld.Sample` | src/environment.rs:105-118 | a draw in 0..=7 gives the direction with that number; every other value gives DownRight |
| `GridWorld.SampleCoversAll` | src/environment.rs:105-118 | every direction is the sample of exactly one draw in 0..=7 |
| `GridWorld.Increment` | src/environment.rs:127-138 | the result differs by a unit offset in {-1,0,1}² other than (0,0); the Up directions decrease y, the Down ones increase y, the Left ones decrease x and the Right ones increase x |
| `GridWorld.IncrementInjective` | src/environment.rs:127-138 | the eight directions give eight distinct neighbours |
| `GridWorld.IncrementCoversNeighbours` | src/environment.rs:127-138 | every one of the eight unit offsets is reached by some direction |
| `GridWorld.InBounds` | src/environment.rs:62-66 | the bounds test never admits a cell outside 0 ≤ x < cols, 0 ≤ y < rows, and admits every such cell when both dimensions fit in i32 |
| `GridWorld.InBoundsInterior` | src/environment.rs:62-66 | an in-bounds cell can be incremented without i32 overflow |
| `GridWorld.RandPosition` | src/environment.rs:86-91 | for a grid that fits in i32, the drawn position is the pair of samples and lies in bounds |
| `Agents.Initial` | src/agent.rs:20-26 | a new agent is at (50,50) with AGENT_MAX_ENERGY energy, alive, and satisfies the energy invariant |
| `Agents.Agent.constructor` | src/agent.rs:20-26 | the constructed fields equal `Initial()` |
| `Agents.ShouldDie` | src/agent.rs:28-30 | `energy <= 0` holds exactly when the unsigned energy is zero |
| `Agents.Killed` | src/agent.rs:32-34 | dying clears `alive` and leaves position and energy unchanged |
| `Agents.KilledIdempotent` | src/agent.rs:32-34 | dying twice is dying once; dying when dead changes nothing |
| `Agents.Agent.Die` | src/agent.rs:32-34 | the fields after `Die` are `Killed` of the fields before |
| `Agents.Fed` | src/agent.rs:36-38 | energy becomes min(AGENT_MAX_ENERGY, energy + food energy): at most both, equal to one; never below an in-range old energy; position and alive unchanged |
| `Agents.Agent.EatFood` | src/agent.rs:36-38 | the fields after `EatFood` are `Fed` of the fields before, given no u32 overflow |
| `Agents.SteppedTo` | src/agent.rs:40-43 | a step sets the position and lowers energy by AGENT_STEP_ENERGY_COST, which must be available |
| `Agents.Agent.StepTo` | src/agent.rs:40-43 | the fields after `StepTo` are `SteppedTo` of the fields before |
| `Agents.MaybeKilled` | src/agent.rs:28-34 | afterwards the agent is alive iff it was alive with energy ≥ 1; position and energy unchanged; the energy invariant is restored |
| `Agents.Agent.MaybeDie` | src/environment.rs:59 | the fields after `MaybeDie` are `MaybeKilled` of the fields before |
| `Agents.PreferredAction` | src/agent.rs:49-51 | the policy returns `Step(Right)` whatever the agent |
| `Environment.Inv` | src/environment.rs:44-60 | under the world invariant a live agent can step in any direction without i32 overflow, u32 underflow or u32 overflow |
| `Environment.StepSpec` | src/environment.rs:44-60 | a step keeps the grid, removes exactly the candidate key from the food map and changes no other entry, shrinks the map by at most one, moves the agent onto the candidate exactly when it is in bounds (otherwise the position is unchanged), and leaves it alive only if it was alive with energy ≥ 1 |
| `Environment.StepPreservesInv` | src/environment.rs:44-60 | a step of a live agent preserves the world invariant (bounds, energy in [0,100], alive ⇒ energy ≥ 1, food in bounds) |
| `Environment.StepEnergy` | src/environment.rs:47-57 | new energy is 100 after eating, energy − 1 after a move without food, unchanged after a blocked step; the agent survives iff that energy is positive |
| `Environment.StepOutOfBoundsIsNoop` | src/environment.rs:47-57 | a step towards an out-of-bounds cell leaves the whole world unchanged |
| `Environment.StepEatsOnlyUnderfoot` | src/environment.rs:52-57 | food removed by a step lies where the agent then stands |
| `Environment.UpdateSpec` | src/environment.rs:29-42 | `update` preserves the world invariant and is a no-op on the whole state when the agent is dead |
| `Environment.UpdateKeepsInBounds` | src/environment.rs:44-49 | an in-bounds agent is still in bounds after `update` |
| `Environment.UpdateMovesRight` | src/environment.rs:44-49 | a live agent whose right-hand neighbour is in bounds moves there in one `update` |
| `Environment.AgentInBounds` | src/environment.rs:44-49 | on a grid with more than 50 rows and columns, the agent is in bounds in every state satisfying the invariant |
| `Environment.Run` | src/environment.rs:29-33 | over n ticks the invariant holds, the grid is fixed, no food is added or changed, at most n items are eaten, death is never undone, and a dead world does not change |
| `Environment.DeathIsTerminal` | src/environment.rs:29-33 | once the agent is dead after n ticks, every later tick leaves the world as it was |
| `Environment.BlockedAgentIsFrozen` | src/environment.rs:44-49 | an agent whose right-hand neighbour is out of bounds never moves, never loses energy and never dies |
| `Environment.State.constructor` | src/environment.rs:18-27 | the new state satisfies the invariant, has the given grid and a new agent, food exactly at the drawn cells, and at most INITIAL_FOOD_COUNT items |
| `Environment.State.GenerateInitialFood` | src/environment.rs:68-77 | the food keys are exactly the drawn positions (one item per cell), there are at most INITIAL_FOOD_COUNT of them, each worth FOOD_ENERGY, and all in bounds when the grid fits in i32 |
| `Environment.State.Update` | src/environment.rs:29-33 | `update` keeps the invariant and changes the state as `UpdateSpec` says |
| `Environment.State.AgentAction` | src/environment.rs:35-42 | the agent takes one step in the direction its policy chooses |
| `Environment.State.StepAgent` | src/environment.rs:44-60 | the in-place step changes the state as `StepSpec` says |

## Left out

- `src/main.rs`: window creation, rendering and the event loop. It does not
  use `State`.
- Randomness: `rand::thread_rng` and `gen_range` are replaced by inputs (a
  sequence of `Draw`s for the initial food, an integer for `Sample`). The
  uniform distribution itself is not modelled.
- `Agent::sensory_input` and the `Input` type: a floating-point `ndarray`
  stub that is always empty and that the policy ignores.
- `HashMap` hashing: the food field is a Dafny `map`.
- Rust's release-mode wrap-around on integer overflow is not modelled. Every
  overflowing operation is a precondition, as in a debug build, where it
  panics.
- `Environment.State.constructor`: requires both grid dimensions to be below
  2^31. A dimension of 2^31 or more becomes a negative bound after the
  `as i32` cast, and drawn coordinates of 2^31 or more become negative too.
  With a negative bound `in_bounds` rejects every cell, so the agent never
  moves, yet `step_agent` still removes and eats food keyed at its
  out-of-bounds candidate (for example rows = 2^31, cols = 100 and food drawn
  at (51, 50): the agent eats it without moving). Such grids, and this
  eating-through-the-wall behaviour, are not modelled.
- Grids with zero rows or columns: `gen_range(0..0)` panics in the source,
  and the model's constructor cannot be called for them, since every draw
  must lie in range.
