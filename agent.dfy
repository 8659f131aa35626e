/**
 The agent: a position, an energy counter held as a `u32`, and an alive
 flag. `AgentState` is the value of those three fields; the pure
 functions below say what each operation does to that value, and the
 class `Agent` updates the fields in place, each method proved against
 its function.
 */
module Agents {
  import opened GridWorld

  const AGENT_STEP_ENERGY_COST: u32 := 1
  const AGENT_MAX_ENERGY: u32 := 100

  /** Where every agent is created. */
  const START := Position(50, 50)

  datatype AgentAction = Step(direction: Direction)

  datatype AgentState = AgentState(position: Position, energy: u32, alive: bool)

  /**
   The agent invariant: energy within [0, AGENT_MAX_ENERGY], and a live
   agent can pay for one step without the `u32` subtraction underflowing.
   */
  predicate Healthy(a: AgentState) {
    a.energy <= AGENT_MAX_ENERGY && (a.alive ==> a.energy >= AGENT_STEP_ENERGY_COST)
  }

  function Initial(): (a: AgentState)
    ensures a.position == START && a.energy == AGENT_MAX_ENERGY && a.alive
    ensures Healthy(a)
  {
    AgentState(START, AGENT_MAX_ENERGY, true)
  }

  /** The death test `energy <= 0`; on an unsigned counter it holds exactly at zero. */
  predicate ShouldDie(a: AgentState)
    ensures ShouldDie(a) <==> a.energy == 0
  {
    a.energy <= 0
  }

  function Killed(a: AgentState): (r: AgentState)
    ensures !r.alive
    ensures r.position == a.position && r.energy == a.energy
  {
    a.(alive := false)
  }

  /** Killing a dead agent changes nothing. */
  lemma KilledIdempotent(a: AgentState)
    ensures Killed(Killed(a)) == Killed(a)
    ensures !a.alive ==> Killed(a) == a
  {
  }

  /** `min(AGENT_MAX_ENERGY, energy + food.energy)`; the `u32` sum must not overflow. */
  function Fed(a: AgentState, food: Food): (r: AgentState)
    requires a.energy + food.energy < 0x1_0000_0000
    ensures r.energy <= AGENT_MAX_ENERGY && r.energy <= a.energy + food.energy
    ensures r.energy == AGENT_MAX_ENERGY || r.energy == a.energy + food.energy
    ensures a.energy <= AGENT_MAX_ENERGY ==> r.energy >= a.energy
    ensures r.position == a.position && r.alive == a.alive
  {
    var sum := a.energy + food.energy;
    a.(energy := if AGENT_MAX_ENERGY <= sum then AGENT_MAX_ENERGY else sum)
  }

  /** Moving to `p` costs AGENT_STEP_ENERGY_COST, which the agent must be able to pay. */
  function SteppedTo(a: AgentState, p: Position): (r: AgentState)
    requires a.energy >= AGENT_STEP_ENERGY_COST
    ensures r.position == p && r.alive == a.alive
    ensures r.energy + AGENT_STEP_ENERGY_COST == a.energy
  {
    AgentState(p, a.energy - AGENT_STEP_ENERGY_COST, a.alive)
  }

  /**
   `if should_die() { die() }`: afterwards the agent is alive exactly when
   it was alive and still has energy, and the health invariant holds
   again for any energy within range.
   */
  function MaybeKilled(a: AgentState): (r: AgentState)
    ensures r.alive <==> a.alive && a.energy >= 1
    ensures r.position == a.position && r.energy == a.energy
    ensures a.energy <= AGENT_MAX_ENERGY ==> Healthy(r)
  {
    if ShouldDie(a) then Killed(a) else a
  }

  /** The policy ignores both the agent and its (always empty) sensory input. */
  function PreferredAction(agent: AgentState): (action: AgentAction)
    ensures action == Step(Right)
  {
    Step(Right)
  }

  class Agent {
    var position: Position
    var energy: u32
    var alive: bool

    function View(): AgentState
      reads this
    {
      AgentState(position, energy, alive)
    }

    constructor ()
      ensures View() == Initial()
    {
      position := START;
      energy := AGENT_MAX_ENERGY;
      alive := true;
    }

    method Die()
      modifies this
      ensures View() == Killed(old(View()))
    {
      alive := false;
    }

    method EatFood(food: Food)
      requires energy + food.energy < 0x1_0000_0000
      modifies this
      ensures View() == Fed(old(View()), food)
    {
      energy := if AGENT_MAX_ENERGY <= energy + food.energy then AGENT_MAX_ENERGY else energy + food.energy;
    }

    method StepTo(p: Position)
      requires energy >= AGENT_STEP_ENERGY_COST
      modifies this
      ensures View() == SteppedTo(old(View()), p)
    {
      position := p;
      energy := energy - AGENT_STEP_ENERGY_COST;
    }

    method MaybeDie()
      modifies this
      ensures View() == MaybeKilled(old(View()))
    {
      if ShouldDie(View()) {
        Die();
      }
    }
  }
}
