/**
 The simulation state and its tick. `Snapshot` is the value of the whole
 world (grid, agent, food map); `StepSpec` and `UpdateSpec` say what one
 tick does to it, `Inv` is the invariant every tick keeps, and the class
 `State` holds the world and updates it in place, each method proved
 against its function.
 */
module Environment {
  import opened GridWorld
  import opened Agents

  datatype Snapshot = Snapshot(grid: Grid, agent: AgentState, food: map<Position, Food>)

  /**
   What makes one step free of arithmetic overflow: the agent's position
   can be incremented, a move can be paid for, and eating what lies at
   the candidate cell cannot overflow the `u32` sum.
   */
  predicate StepDefined(s: Snapshot, dir: Direction) {
    && Interior(s.agent.position)
    && var c := Increment(s.agent.position, dir);
    && (InBounds(s.grid, c) ==> s.agent.energy >= AGENT_STEP_ENERGY_COST)
    && (c in s.food ==> s.agent.energy + s.food[c].energy < 0x1_0000_0000)
  }

  /**
   The world invariant: the grid fits in `i32`, the agent is at its start
   cell or inside the grid, its energy is healthy, and every food item
   lies inside the grid and carries FOOD_ENERGY. Under it a live agent
   can take a step in any direction without overflow or underflow.
   */
  predicate Inv(s: Snapshot)
    ensures Inv(s) && s.agent.alive ==> forall dir :: StepDefined(s, dir)
  {
    && FitsI32(s.grid)
    && (s.agent.position == START || InBounds(s.grid, s.agent.position))
    && Healthy(s.agent)
    && (forall p | p in s.food :: InBounds(s.grid, p) && s.food[p] == NewFood())
  }

  /**
   One step in direction `dir`: move to the candidate cell if it is in
   bounds (paying one energy), remove and eat any food keyed at the
   candidate cell, then die if energy is exhausted.
   */
  function StepSpec(s: Snapshot, dir: Direction): (r: Snapshot)
    requires StepDefined(s, dir)
    ensures r.grid == s.grid
    ensures r.food.Keys == s.food.Keys - {Increment(s.agent.position, dir)}
    ensures forall p | p in r.food :: r.food[p] == s.food[p]
    ensures |r.food| == |s.food| || |r.food| == |s.food| - 1
    ensures var c := Increment(s.agent.position, dir);
            r.agent.position == (if InBounds(s.grid, c) then c else s.agent.position)
    ensures r.agent.alive ==> s.agent.alive && r.agent.energy >= 1
  {
    var c := Increment(s.agent.position, dir);
    var moved := if InBounds(s.grid, c) then SteppedTo(s.agent, c) else s.agent;
    if c in s.food then
      assert (s.food - {c}).Keys == s.food.Keys - {c};
      Snapshot(s.grid, MaybeKilled(Fed(moved, s.food[c])), s.food - {c})
    else
      Snapshot(s.grid, MaybeKilled(moved), s.food)
  }

  /** A step from a world satisfying the invariant leads to a world satisfying it. */
  lemma StepPreservesInv(s: Snapshot, dir: Direction)
    requires Inv(s) && s.agent.alive
    ensures Inv(StepSpec(s, dir))
  {
  }

  /**
   Energy accounting for one step of a live agent: one unit is paid only
   for an in-bounds move, and eating food refills to the maximum; the
   agent survives exactly when the resulting energy is positive.
   */
  lemma StepEnergy(s: Snapshot, dir: Direction)
    requires Inv(s) && s.agent.alive
    ensures var c := Increment(s.agent.position, dir);
            var r := StepSpec(s, dir);
            && r.agent.energy == (if c in s.food then AGENT_MAX_ENERGY
                                  else if InBounds(s.grid, c) then s.agent.energy - AGENT_STEP_ENERGY_COST
                                  else s.agent.energy)
            && (r.agent.alive <==> r.agent.energy >= 1)
  {
  }

  /**
   A step towards a cell outside the grid changes nothing at all: the
   agent keeps its position, its energy and its life, and the food map
   is untouched (no food ever lies outside the grid).
   */
  lemma StepOutOfBoundsIsNoop(s: Snapshot, dir: Direction)
    requires Inv(s) && s.agent.alive
    requires !InBounds(s.grid, Increment(s.agent.position, dir))
    ensures StepSpec(s, dir) == s
  {
  }

  /**
   Food disappears only where the agent then stands: a step that removes
   an entry moves the agent onto that cell.
   */
  lemma StepEatsOnlyUnderfoot(s: Snapshot, dir: Direction, p: Position)
    requires Inv(s) && s.agent.alive
    requires p in s.food && p !in StepSpec(s, dir).food
    ensures StepSpec(s, dir).agent.position == p
  {
  }

  /** `update`: one step by the fixed policy while the agent is alive, nothing otherwise. */
  function UpdateSpec(s: Snapshot): (r: Snapshot)
    requires Inv(s)
    ensures Inv(r)
    ensures !s.agent.alive ==> r == s
  {
    if s.agent.alive then
      var dir := PreferredAction(s.agent).direction;
      StepPreservesInv(s, dir);
      StepSpec(s, dir)
    else
      s
  }

  /** An agent inside the grid stays inside it. */
  lemma UpdateKeepsInBounds(s: Snapshot)
    requires Inv(s) && InBounds(s.grid, s.agent.position)
    ensures InBounds(s.grid, UpdateSpec(s).agent.position)
  {
  }

  /**
   The counterpart of a blocked step: a live agent whose right-hand
   neighbour lies inside the grid moves there in one `update`.
   */
  lemma UpdateMovesRight(s: Snapshot)
    requires Inv(s) && s.agent.alive
    requires InBounds(s.grid, Increment(s.agent.position, Right))
    ensures UpdateSpec(s).agent.position == Increment(s.agent.position, Right)
  {
  }

  /**
   On a grid larger than 50 in both dimensions the start cell is inside
   it, so in every state satisfying the invariant the agent is in bounds.
   */
  lemma AgentInBounds(s: Snapshot)
    requires Inv(s) && s.grid.rows > 50 && s.grid.cols > 50
    ensures InBounds(s.grid, s.agent.position)
  {
  }

  /** `n` consecutive updates, as a host calling `update` once per tick performs them. */
  function Run(s: Snapshot, n: nat): (r: Snapshot)
    requires Inv(s)
    ensures Inv(r) && r.grid == s.grid
    ensures r.food.Keys <= s.food.Keys && |s.food| <= |r.food| + n
    ensures forall p | p in r.food :: r.food[p] == s.food[p]
    ensures r.agent.alive ==> s.agent.alive
    ensures !s.agent.alive ==> r == s
    decreases n
  {
    if n == 0 then s else Run(UpdateSpec(s), n - 1)
  }

  /** Once dead, the agent stays dead and the world never changes again. */
  lemma {:induction false} DeathIsTerminal(s: Snapshot, n: nat, m: nat)
    requires Inv(s) && n <= m && !Run(s, n).agent.alive
    ensures Run(s, m) == Run(s, n)
    decreases n
  {
    if n == 0 {
      assert Run(s, m) == s;
    } else {
      var s' := UpdateSpec(s);
      DeathIsTerminal(s', n - 1, m - 1);
    }
  }

  /**
   The policy always steps right and a blocked step is free, so an agent
   whose right-hand neighbour lies outside the grid never moves, never
   loses energy and never dies.
   */
  lemma {:induction false} BlockedAgentIsFrozen(s: Snapshot, n: nat)
    requires Inv(s)
    requires !InBounds(s.grid, Increment(s.agent.position, Right))
    ensures Run(s, n) == s
    decreases n
  {
    if n > 0 {
      if s.agent.alive {
        StepOutOfBoundsIsNoop(s, Right);
      }
      assert UpdateSpec(s) == s;
      BlockedAgentIsFrozen(s, n - 1);
    }
  }

  class State {
    const grid: Grid
    const agent: Agent
    var food: map<Position, Food>

    function View(): Snapshot
      reads this, agent
    {
      Snapshot(grid, agent.View(), food)
    }

    ghost predicate Valid()
      reads this, agent
    {
      Inv(View())
    }

    /**
     `State::new`: the draws are the random samples behind the
     INITIAL_FOOD_COUNT calls to `rand_position`.
     */
    constructor (rows: u32, cols: u32, draws: seq<Draw>)
      requires rows < 0x8000_0000 && cols < 0x8000_0000
      requires |draws| == INITIAL_FOOD_COUNT
      requires forall i | 0 <= i < |draws| :: draws[i].x < cols && draws[i].y < rows
      ensures Valid() && fresh(agent)
      ensures grid == Grid(rows, cols) && agent.View() == Initial()
      ensures forall i | 0 <= i < |draws| :: Position(draws[i].x, draws[i].y) in food
      ensures forall p | p in food :: exists i | 0 <= i < |draws| :: p == Position(draws[i].x, draws[i].y)
      ensures |food| <= INITIAL_FOOD_COUNT
    {
      var g := Grid(rows, cols);
      var f := GenerateInitialFood(g, draws);
      grid := g;
      agent := new Agent();
      food := f;
    }

    /**
     `generate_initial_food`: one insertion attempt per draw; a draw that
     hits an occupied cell is dropped, so the map may hold fewer than
     INITIAL_FOOD_COUNT items. The keys are exactly the drawn positions.
     */
    static method GenerateInitialFood(grid: Grid, draws: seq<Draw>) returns (food: map<Position, Food>)
      requires |draws| == INITIAL_FOOD_COUNT
      requires forall i | 0 <= i < |draws| :: draws[i].x < grid.cols && draws[i].y < grid.rows
      ensures |food| <= INITIAL_FOOD_COUNT
      ensures forall i | 0 <= i < |draws| :: RandPosition(grid, draws[i]) in food
      ensures forall p | p in food :: exists i | 0 <= i < |draws| :: p == RandPosition(grid, draws[i])
      ensures forall p | p in food :: food[p] == NewFood()
      ensures FitsI32(grid) ==> forall p | p in food :: InBounds(grid, p)
    {
      food := map[];
      for i := 0 to INITIAL_FOOD_COUNT
        invariant |food| <= i
        invariant forall j | 0 <= j < i :: RandPosition(grid, draws[j]) in food
        invariant forall p | p in food :: exists j | 0 <= j < i :: p == RandPosition(grid, draws[j])
        invariant forall p | p in food :: food[p] == NewFood()
      {
        var position := RandPosition(grid, draws[i]);
        if position !in food {
          food := food[position := NewFood()];
        }
      }
    }

    /** `update`: `alive()` is read as the `alive` field. */
    method Update()
      requires Valid()
      modifies this, agent
      ensures Valid()
      ensures View() == UpdateSpec(old(View()))
    {
      if agent.alive {
        AgentAction();
      }
    }

    method AgentAction()
      requires Valid() && agent.alive
      modifies this, agent
      ensures View() == StepSpec(old(View()), PreferredAction(old(agent.View())).direction)
    {
      match PreferredAction(agent.View())
      case Step(direction) =>
        StepAgent(direction);
    }

    method StepAgent(dir: Direction)
      requires StepDefined(View(), dir)
      modifies this, agent
      ensures View() == StepSpec(old(View()), dir)
    {
      var newPosition := Increment(agent.position, dir);
      if InBounds(grid, newPosition) {
        agent.StepTo(newPosition);
      }
      if newPosition in food {
        var eaten := food[newPosition];
        food := food - {newPosition};
        agent.EatFood(eaten);
      }
      agent.MaybeDie();
    }
  }
}
