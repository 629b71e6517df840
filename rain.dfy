/**
 * The rain controller as a state machine: the population, the rainEnabled flag
 * and whether the 300 ms interval is registered. The Engine class refines each
 * of these transitions; the lemmas here give the one-way population cap.
 */
module Rain {

  /** Above this many balls the rain is switched off. */
  const Cap: nat := 45

  datatype Controller = Controller(population: nat, raining: bool, timer: bool)

  /**
   * What can happen to the controller. A click or a timer firing spawns a ball
   * only when the container element is present; a timer fires only while it is
   * registered.
   */
  datatype Event =
    | StartRain
    | StopRain
    | RainTimer(container: bool)
    | Click(container: bool)
    | Teardown

  /** The effect that watches the ball count. */
  function Capped(c: Controller): (r: Controller)
    ensures r.population == c.population
    ensures r.population > Cap ==> !r.raining && !r.timer
    ensures r.population <= Cap ==> r == c
  {
    if c.population > Cap then c.(raining := false, timer := false) else c
  }

  function Next(c: Controller, e: Event): Controller {
    match e
    case StartRain => if c.raining then c else c.(raining := true, timer := true)
    case StopRain => c.(raining := false, timer := false)
    case RainTimer(present) =>
      if c.timer && present then Capped(c.(population := c.population + 1)) else c
    case Click(present) =>
      if present then Capped(c.(population := c.population + 1)) else c
    case Teardown => c.(population := 0, timer := false)
  }

  /** The interval is only ever registered while rainEnabled is set. */
  predicate Consistent(c: Controller) {
    c.timer ==> c.raining
  }

  /** The controller after a run of events. */
  function Run(c: Controller, es: seq<Event>): Controller
    decreases |es|
  {
    if es == [] then c else Run(Next(c, es[0]), es[1..])
  }

  /** True when the event is a timer firing that adds a ball. */
  predicate RainSpawn(c: Controller, e: Event) {
    e.RainTimer? && c.timer && e.container
  }

  /** How many of the events are timer firings that add a ball. */
  function RainSpawns(c: Controller, es: seq<Event>): nat
    decreases |es|
  {
    if es == [] then 0
    else (if RainSpawn(c, es[0]) then 1 else 0) + RainSpawns(Next(c, es[0]), es[1..])
  }

  lemma NextConsistent(c: Controller, e: Event)
    requires Consistent(c)
    ensures Consistent(Next(c, e))
  {
  }

  /** startRain does nothing while raining; stopRain always ends idle, and twice is once. */
  lemma StartStopShape(c: Controller)
    ensures c.raining ==> Next(c, StartRain) == c
    ensures !c.raining ==> Next(c, StartRain) == c.(raining := true, timer := true)
    ensures !Next(c, StopRain).raining && !Next(c, StopRain).timer
    ensures Next(Next(c, StopRain), StopRain) == Next(c, StopRain)
  {
  }

  /** True when the event adds a ball: a delivered timer firing or a click, with the container present. */
  predicate Spawns(c: Controller, e: Event) {
    RainSpawn(c, e) || (e.Click? && e.container)
  }

  /** A spawn that leaves the population over the cap leaves the rain off. */
  lemma SpawnOverCapStops(c: Controller, e: Event)
    requires Spawns(c, e)
    requires Next(c, e).population > Cap
    ensures !Next(c, e).raining && !Next(c, e).timer
  {
  }

  /**
   * Once the interval is not registered, no run of events without a startRain
   * spawns a rain ball or registers the interval again, whatever clicks add.
   */
  lemma {:induction false} NoRainWithoutStart(c: Controller, es: seq<Event>)
    requires !c.timer
    requires forall k :: 0 <= k < |es| ==> es[k] != StartRain
    ensures RainSpawns(c, es) == 0
    ensures !Run(c, es).timer
    decreases |es|
  {
    if es != [] {
      assert es[0] != StartRain;
      assert !Next(c, es[0]).timer;
      NoRainWithoutStart(Next(c, es[0]), es[1..]);
    }
  }

  /** Without a teardown the population never shrinks. */
  lemma {:induction false} PopulationGrows(c: Controller, es: seq<Event>)
    requires forall k :: 0 <= k < |es| ==> es[k] != Teardown
    ensures Run(c, es).population >= c.population
    decreases |es|
  {
    if es != [] {
      assert es[0] != Teardown;
      PopulationGrows(Next(c, es[0]), es[1..]);
    }
  }

  /**
   * The one-way valve: after a spawn takes the population over the cap, no run
   * of events without a startRain spawns another rain ball, and the population
   * stays over the cap until a teardown.
   */
  lemma CapIsOneWay(c: Controller, e: Event, es: seq<Event>)
    requires Spawns(c, e)
    requires Next(c, e).population > Cap
    requires forall k :: 0 <= k < |es| ==> es[k] != StartRain && es[k] != Teardown
    ensures RainSpawns(Next(c, e), es) == 0
    ensures !Run(Next(c, e), es).timer && Run(Next(c, e), es).population > Cap
  {
    SpawnOverCapStops(c, e);
    NoRainWithoutStart(Next(c, e), es);
    PopulationGrows(Next(c, e), es);
  }
}
