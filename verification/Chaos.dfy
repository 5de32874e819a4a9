/** The probability gate and the blast-radius budget (src/chaos.cpp). */
module Chaos {
  import opened Wrappers
  import opened Discovery

  /** How many targets a cycle may strike; a cap below one is raised to one, and a run cap of zero or less
      means no run cap. */
  function Allowance(maxPerCycle: int, maxPerRun: int, used: int): nat {
    var cycle := if maxPerCycle < 1 then 1 else maxPerCycle;
    if maxPerRun <= 0 then cycle
    else if used >= maxPerRun then 0
    else if maxPerRun - used < cycle then maxPerRun - used
    else cycle
  }

  /** `action_budget`, branch by branch. */
  function ActionBudget(armed: seq<Matched>, maxPerCycle: int, maxPerRun: int, used: int): (r: seq<Matched>)
    ensures r <= armed
    ensures |r| == if |armed| < Allowance(maxPerCycle, maxPerRun, used) then |armed|
                   else Allowance(maxPerCycle, maxPerRun, used)
  {
    var cycle := if maxPerCycle < 1 then 1 else maxPerCycle;
    var run := if maxPerRun < 0 then 0 else maxPerRun;
    if run > 0 && used >= run then []
    else
      var remaining := if run - used > 0 then run - used else 0;
      var allowed := if run > 0 && remaining < cycle then remaining else cycle;
      if |armed| <= allowed then armed else armed[..allowed]
  }

  /** The gate. Dice come from outside: any value in [0, 1). */
  class ChaosRoller {
    var probability: real
    var rolls: nat

    constructor ()
      ensures probability == 0.0 && rolls == 0
    {
      probability, rolls := 0.0, 0;
    }

    /** `None` is not-a-number. */
    method SetProbability(p: Option<real>)
      modifies this
      ensures probability == Clamp(p) && rolls == old(rolls)
    {
      if p.None? {
        probability := 0.0;
        return;
      }
      var q := p.value;
      if q < 0.0 { q := 0.0; }
      if q > 1.0 { q := 1.0; }
      probability := q;
    }

    method Roll(value: real) returns (fires: bool)
      modifies this
      ensures rolls == old(rolls) + 1 && probability == old(probability)
      ensures fires == (value < probability)
    {
      rolls := rolls + 1;
      fires := value < probability;
    }
  }

  function Clamp(p: Option<real>): (q: real)
    ensures 0.0 <= q <= 1.0
    ensures p.Some? && 0.0 <= p.value <= 1.0 ==> q == p.value
  {
    if p.None? || p.value < 0.0 then 0.0 else if p.value > 1.0 then 1.0 else p.value
  }
}
