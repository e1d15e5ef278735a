/**
 The virtual pet of PetBot: its stats, the three-stage evolution, the
 elapsed-time drift applied by the background tick, and the two care actions
 (feed and play). Every operation is a pure function from a pet to a pet; the
 registry that stores pets per user is in module PetRegistry.

 Timestamps are integer milliseconds, as returned by `Date.now()`; stats are
 exact reals (the bot's stats are JavaScript numbers that become fractional as
 soon as a tick has run).
 */
module Pets {

  /** A millisecond timestamp. */
  type Millis = int

  const MillisPerHour: int := 3600000

  /** The four numeric stats of a pet; `level` is the evolution stage. */
  datatype Stats = Stats(hunger: real, happiness: real, energy: real, level: int)

  datatype Pet = Pet(stats: Stats, species: string, lastUpdated: Millis)

  function Min(a: real, b: real): real { if a <= b then a else b }

  function Max(a: real, b: real): real { if a >= b then a else b }

  /** The species label that belongs to each evolution level. */
  function SpeciesFor(level: int): string
  {
    if level == 1 then "Egg"
    else if level == 2 then "Dragon Hatchling"
    else "Ancient Dragon"
  }

  /** The state every pet of the bot is in: hunger and energy are percentages,
      happiness is non-negative (but has no upper bound, see Feed), the level
      is one of the three stages and the species label matches it. */
  ghost predicate WellFormed(p: Pet)
  {
    && 0.0 <= p.stats.hunger <= 100.0
    && 0.0 <= p.stats.energy <= 100.0
    && 0.0 <= p.stats.happiness
    && 1 <= p.stats.level <= 3
    && p.species == SpeciesFor(p.stats.level)
  }

  /** A freshly adopted pet: an egg at the adoption time. */
  function NewPet(now: Millis): (p: Pet)
    ensures WellFormed(p)
    ensures p.stats.level == 1 && p.species == "Egg"
    ensures p.stats.hunger == 50.0 && p.stats.happiness == 50.0 && p.stats.energy == 100.0
    ensures p.lastUpdated == now
  {
    Pet(Stats(50.0, 50.0, 100.0, 1), "Egg", now)
  }

  /** The evolution guard: level 1 needs happiness 75, level 2 needs 90, and
      level 3 (or any other level) never evolves. */
  predicate ReadyToEvolve(s: Stats)
  {
    (s.level == 1 && s.happiness >= 75.0) || (s.level == 2 && s.happiness >= 90.0)
  }

  /** One evaluation of the evolution state machine. */
  function Evolve(p: Pet): (r: Pet)
    // only the level and the species can change, and only when the guard holds
    ensures r.stats.hunger == p.stats.hunger
    ensures r.stats.happiness == p.stats.happiness
    ensures r.stats.energy == p.stats.energy
    ensures r.lastUpdated == p.lastUpdated
    ensures r != p <==> ReadyToEvolve(p.stats)
    // the level never decreases and advances by at most one stage per call
    ensures p.stats.level <= r.stats.level <= p.stats.level + 1
    ensures r != p ==> r.stats.level == p.stats.level + 1 && r.species == SpeciesFor(r.stats.level)
    ensures r.stats.level <= 3 || r == p
    ensures WellFormed(p) ==> WellFormed(r)
  {
    if p.stats.level == 1 && p.stats.happiness >= 75.0 then
      p.(species := "Dragon Hatchling", stats := p.stats.(level := 2))
    else if p.stats.level == 2 && p.stats.happiness >= 90.0 then
      p.(species := "Ancient Dragon", stats := p.stats.(level := 3))
    else
      p
  }

  /** Elapsed time in hours between two timestamps, computed exactly. */
  function HoursBetween(from: Millis, to: Millis): (h: real)
    ensures from <= to ==> h >= 0.0
    ensures h == 0.0 <==> from == to
    ensures h * MillisPerHour as real == (to - from) as real
  {
    (to - from) as real / MillisPerHour as real
  }

  /** Hours elapsed over two consecutive intervals add up. */
  lemma HoursAdd(t0: Millis, t1: Millis, t2: Millis)
    ensures HoursBetween(t0, t1) + HoursBetween(t1, t2) == HoursBetween(t0, t2)
  {
  }

  /** The stat drift of one tick after `hours` hours: hunger rises by 10 per
      hour up to 100, energy falls by 5 per hour down to 0, and happiness falls
      by 5 per hour down to 0 only when the already updated hunger exceeds 80. */
  function Drift(s: Stats, hours: real): (r: Stats)
    requires hours >= 0.0
    ensures r.level == s.level
    // hunger: capped at 100, otherwise exactly ten points per hour
    ensures r.hunger <= 100.0
    ensures r.hunger == 100.0 || r.hunger == s.hunger + 10.0 * hours
    ensures r.hunger == 100.0 <==> s.hunger + 10.0 * hours >= 100.0
    // energy: floored at 0, otherwise exactly five points per hour
    ensures r.energy >= 0.0
    ensures r.energy == 0.0 || r.energy == s.energy - 5.0 * hours
    ensures r.energy == 0.0 <==> s.energy - 5.0 * hours <= 0.0
    // happiness: only a hungry pet (updated hunger above 80) gets sadder
    ensures r.hunger <= 80.0 ==> r.happiness == s.happiness
    ensures r.hunger > 80.0 ==> r.happiness == Max(0.0, s.happiness - 5.0 * hours)
    ensures s.happiness >= 0.0 ==> 0.0 <= r.happiness <= s.happiness
    // drift only goes one way
    ensures s.hunger <= 100.0 ==> s.hunger <= r.hunger
    ensures s.energy >= 0.0 ==> r.energy <= s.energy
  {
    var hunger := Min(100.0, s.hunger + 10.0 * hours);
    var energy := Max(0.0, s.energy - 5.0 * hours);
    var happiness := if hunger > 80.0 then Max(0.0, s.happiness - 5.0 * hours) else s.happiness;
    Stats(hunger, happiness, energy, s.level)
  }

  /** The tick's work on one pet at time `now`: drift for the hours since the
      pet was last updated, one evolution check, and the new timestamp. */
  function TickPet(p: Pet, now: Millis): (r: Pet)
    requires p.lastUpdated <= now
    ensures r.lastUpdated == now
    ensures p.stats.level <= r.stats.level <= p.stats.level + 1
    ensures WellFormed(p) ==> WellFormed(r)
    ensures WellFormed(p) ==> p.stats.hunger <= r.stats.hunger && r.stats.energy <= p.stats.energy
    ensures WellFormed(p) ==> r.stats.happiness <= p.stats.happiness
    // the drift is proportional to the hours since the last update
    ensures var h := (now - p.lastUpdated) as real / MillisPerHour as real;
      r.stats.hunger == Min(100.0, p.stats.hunger + 10.0 * h)
    ensures var h := (now - p.lastUpdated) as real / MillisPerHour as real;
      r.stats.energy == Max(0.0, p.stats.energy - 5.0 * h)
    ensures var h := (now - p.lastUpdated) as real / MillisPerHour as real;
      r.stats.happiness
      == if r.stats.hunger > 80.0 then Max(0.0, p.stats.happiness - 5.0 * h) else p.stats.happiness
    // the evolution check sees the drifted stats
    ensures r.stats.level == p.stats.level + 1 <==> ReadyToEvolve(r.stats.(level := p.stats.level))
    ensures r.species == if r.stats.level == p.stats.level then p.species else SpeciesFor(r.stats.level)
  {
    var s := Drift(p.stats, HoursBetween(p.lastUpdated, now));
    Evolve(p.(stats := s)).(lastUpdated := now)
  }

  /** Feeding: hunger drops by 30 down to 0 and happiness rises by exactly 10,
      with no upper cap. Nothing else changes: no drift, no evolution check,
      no new timestamp. */
  function Feed(p: Pet): (r: Pet)
    ensures r.stats.hunger >= 0.0
    ensures r.stats.hunger == 0.0 || r.stats.hunger == p.stats.hunger - 30.0
    ensures r.stats.hunger == 0.0 <==> p.stats.hunger <= 30.0
    ensures r.stats.happiness == p.stats.happiness + 10.0
    ensures r.stats.energy == p.stats.energy && r.stats.level == p.stats.level
    ensures r.species == p.species && r.lastUpdated == p.lastUpdated
    ensures WellFormed(p) ==> WellFormed(r)
  {
    p.(stats := p.stats.(hunger := Max(0.0, p.stats.hunger - 30.0),
                         happiness := p.stats.happiness + 10.0))
  }

  /** Playing: happiness rises by 20 but is capped at 100, energy drops by 15
      down to 0. Nothing else changes: no drift, no evolution check, no new
      timestamp. */
  function Play(p: Pet): (r: Pet)
    ensures r.stats.happiness <= 100.0
    ensures r.stats.happiness == 100.0 || r.stats.happiness == p.stats.happiness + 20.0
    ensures r.stats.happiness == 100.0 <==> p.stats.happiness >= 80.0
    ensures r.stats.energy >= 0.0
    ensures r.stats.energy == 0.0 || r.stats.energy == p.stats.energy - 15.0
    ensures r.stats.energy == 0.0 <==> p.stats.energy <= 15.0
    ensures r.stats.hunger == p.stats.hunger && r.stats.level == p.stats.level
    ensures r.species == p.species && r.lastUpdated == p.lastUpdated
    ensures WellFormed(p) ==> WellFormed(r)
  {
    p.(stats := p.stats.(happiness := Min(100.0, p.stats.happiness + 20.0),
                         energy := Max(0.0, p.stats.energy - 15.0)))
  }

  /** A single evolution check never skips a stage, even when the happiness
      already meets the next stage's threshold; the next check takes the
      second step. */
  lemma EvolveOneStageAtATime(p: Pet)
    requires p.stats.level == 1 && p.stats.happiness >= 90.0
    ensures Evolve(p).stats.level == 2 && Evolve(p).species == "Dragon Hatchling"
    ensures Evolve(Evolve(p)).stats.level == 3 && Evolve(Evolve(p)).species == "Ancient Dragon"
  {
  }

  /** The level-1 threshold is exactly 75: at 75 the egg hatches, at 74 it
      does not. */
  lemma HatchThreshold(p: Pet)
    requires p.stats.level == 1
    ensures p.stats.happiness == 75.0 ==> Evolve(p).stats.level == 2
    ensures p.stats.happiness == 74.0 ==> Evolve(p) == p
  {
  }

  /** A tick with no elapsed time leaves the stats of a well-formed pet as
      they are; only the evolution check may act. */
  lemma TickWithoutElapsedTime(p: Pet)
    requires WellFormed(p)
    ensures TickPet(p, p.lastUpdated) == Evolve(p)
  {
    assert Drift(p.stats, 0.0) == p.stats;
  }

  /** Hunger and energy drift are additive in time: two ticks (at `mid`, then
      at `now`) give the same hunger and energy as one tick at `now`. */
  lemma TickSplitsForHungerAndEnergy(p: Pet, mid: Millis, now: Millis)
    requires p.lastUpdated <= mid <= now
    ensures TickPet(TickPet(p, mid), now).stats.hunger == TickPet(p, now).stats.hunger
    ensures TickPet(TickPet(p, mid), now).stats.energy == TickPet(p, now).stats.energy
  {
    HoursAdd(p.lastUpdated, mid, now);
  }

  /** The timestamps are in clock order, none before the pet's last update. */
  predicate ChronologicalFrom(p: Pet, times: seq<Millis>)
  {
    && (forall i :: 0 <= i < |times| ==> p.lastUpdated <= times[i])
    && (forall i, j :: 0 <= i < j < |times| ==> times[i] <= times[j])
  }

  /** The pet after one tick at each of the given times, in order. */
  function TickAt(p: Pet, times: seq<Millis>): (r: Pet)
    requires ChronologicalFrom(p, times)
    ensures |times| > 0 ==> r.lastUpdated == times[|times| - 1]
    ensures |times| == 0 ==> r == p
    decreases |times|
  {
    if |times| == 0 then p
    else TickAt(TickPet(p, times[0]), times[1..])
  }

  /** However many ticks the timer runs between the last update and `now`,
      hunger and energy end where a single tick at `now` puts them. */
  lemma {:induction false} TicksComposeForHungerAndEnergy(p: Pet, times: seq<Millis>)
    requires ChronologicalFrom(p, times) && |times| > 0
    ensures TickAt(p, times).stats.hunger == TickPet(p, times[|times| - 1]).stats.hunger
    ensures TickAt(p, times).stats.energy == TickPet(p, times[|times| - 1]).stats.energy
    decreases |times|
  {
    var last := times[|times| - 1];
    if |times| > 1 {
      var q := TickPet(p, times[0]);
      assert ChronologicalFrom(q, times[1..]);
      TicksComposeForHungerAndEnergy(q, times[1..]);
      assert times[1..][|times[1..]| - 1] == last;
      TickSplitsForHungerAndEnergy(p, times[0], last);
    }
  }

  /** Happiness is not additive in time, because the hunger gate is checked
      once per tick: a pet at hunger 75 that is ticked after half an hour and
      again after a full hour is happier than one ticked once after the hour. */
  lemma TickDoesNotSplitForHappiness()
    ensures var p := Pet(Stats(75.0, 50.0, 100.0, 1), "Egg", 0);
      && TickPet(p, 3600000).stats.happiness == 45.0
      && TickPet(TickPet(p, 1800000), 3600000).stats.happiness == 47.5
  {
    var p := Pet(Stats(75.0, 50.0, 100.0, 1), "Egg", 0);
    assert TickPet(p, 1800000).stats.hunger == 80.0;
    assert TickPet(p, 1800000).stats.happiness == 50.0;
  }

  /** Feeding has no happiness cap, while playing caps at 100: feeding a pet
      at happiness 95 takes it to 105, and playing afterwards brings it back
      down to 100. */
  lemma PlayLowersHappinessThatFeedRaised(p: Pet)
    requires p.stats.happiness == 95.0
    ensures Feed(p).stats.happiness == 105.0
    ensures Play(Feed(p)).stats.happiness == 100.0
    ensures Play(Feed(p)).stats.happiness < Feed(p).stats.happiness
  {
  }
}
