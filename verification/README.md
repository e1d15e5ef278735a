# PetBot virtual pet and FunctionalityBot uptime, modelled in Dafny

This project models two pieces of a pair of Discord bots.

**PetBot's virtual pet.** Every Discord user can adopt one pet. A pet has hunger,
happiness, energy, a level (1 to 3) with a species label, and the time it was
last updated. A background timer makes every pet hungrier and more tired in
proportion to the time since its last update. The timer also makes a pet
sadder when its hunger is above 80, and then gives the pet one evolution check:
"Egg" becomes "Dragon Hatchling" at happiness 75, which becomes "Ancient Dragon"
at happiness 90. The chat commands `!adopt`, `!status`, `!feed` and `!play` read
or change the pet of the user who sent them.

**FunctionalityBot's `/uptime`.** It splits the milliseconds since start-up into
days, hours, minutes and seconds.

Files:

- `pets.dfy`, module `Pets`, covers the pet datatype, the new egg, the
  evolution state machine, the per-pet tick (`Drift` followed by `Evolve`),
  feed and play. It also holds the lemmas about single pets.
- `registry.dfy`, module `PetRegistry`, covers the map from user id to pet, the
  four commands, and the tick over all pets. The tick appears twice: once as a
  map comprehension and once as the in-place loop the bot runs; the two are
  proved equal. The module also has a replay `Run` of any chronological
  sequence of commands and timer firings, with the invariants kept along it.
- `uptime.dfy`, module `Uptime`, covers the uptime split. It is written the
  way the bot computes it, with real division, JavaScript `%` and
  `Math.floor`. It is proved equal to the integer decomposition of the whole
  seconds.

Time is an explicit parameter: `Date.now()` becomes a `now` argument in
milliseconds. Elapsed hours are computed exactly as `real`.

The model follows what the code does, including these points a reader might
not expect:

- `!status`, `!feed` and `!play` apply no elapsed-time drift.
- `!feed` and `!play` do not run the evolution check and do not update
  `lastUpdated`. Only the timer does those.
- Because of this, adopt, feed and play in the same instant leave the pet at
  happiness 80 but still at level 1. It hatches at the next timer firing if
  that comes within six hours (`AdoptFeedPlayThenTick`); a first tick seven
  hours later finds it too hungry and sad to hatch
  (`AdoptFeedPlayThenLateTick`).
- Feeding raises happiness by 10 with no upper cap. Playing caps happiness at
  100, so playing can lower a happiness that feeding pushed above 100.
- The species labels are "Dragon Hatchling" and "Ancient Dragon".

## Model

| member | source | states |
|---|---|---|
| Pets.NewPet | PetBot/index.js:16-25 | a new pet has hunger 50, happiness 50, energy 100, level 1, species "Egg", is stamped with the adoption time and is well-formed |
| Pets.Evolve | PetBot/index.js:27-35 | only level and species can change, and they change exactly when level 1 has happiness at least 75 or level 2 has at least 90; the level never drops, rises by at most one, gets the matching species, and well-formedness is kept |
| Pets.EvolveOneStageAtATime | PetBot/index.js:27-35 | an egg with happiness 90 or more only hatches on one check (it does not jump to level 3); a second check makes it an Ancient Dragon |
| Pets.HatchThreshold | PetBot/index.js:28-30 | at level 1, happiness 75 hatches the egg and happiness 74 leaves the pet unchanged |
| Pets.HoursBetween | PetBot/index.js:42 | the elapsed hours times 3,600,000 are exactly the elapsed milliseconds; they are non-negative when time moves forward and zero exactly when no time passed |
| Pets.Drift | PetBot/index.js:42-49 | hunger rises by exactly 10 per hour unless it reaches the cap of 100; energy falls by exactly 5 per hour unless it reaches the floor of 0; happiness changes only when the updated hunger is above 80 and then falls by 5 per hour, never below 0; the level is untouched |
| Pets.TickPet | PetBot/index.js:41-53 | with `h` the hours since the last update: hunger becomes `min(100, hunger + 10h)`, energy `max(0, energy - 5h)`, and happiness `max(0, happiness - 5h)` only when that new hunger is above 80, otherwise it is unchanged; the level rises by one exactly when the drifted stats meet the evolution guard, with the matching species; the pet is stamped with `now`; a well-formed pet stays well-formed |
| Pets.TickWithoutElapsedTime | PetBot/index.js:42-52 | a tick with no elapsed time leaves a well-formed pet's stats as they were; only the evolution check acts |
| Pets.TickSplitsForHungerAndEnergy | PetBot/index.js:42-45 | two ticks in a row give the same hunger and energy as one tick over the whole interval |
| Pets.TickAt | PetBot/index.js:39-53 | after ticks at times in clock order the pet is stamped with the last time, and with no tick it is unchanged |
| Pets.TicksComposeForHungerAndEnergy | PetBot/index.js:42-45 | any number of ticks in clock order give the same hunger and energy as one tick at the last time |
| Pets.TickDoesNotSplitForHappiness | PetBot/index.js:44-49 | for happiness the split fails: from hunger 75, one one-hour tick gives happiness 45, while two half-hour ticks give 47.5 |
| Pets.Feed | PetBot/index.js:93-94 | hunger drops by 30 unless it hits the floor of 0; happiness rises by exactly 10 with no cap; energy, level, species and timestamp are unchanged |
| Pets.Play | PetBot/index.js:103-104 | happiness rises by 20 unless it hits the cap of 100, so it ends at most 100; energy drops by 15 unless it hits 0; hunger, level, species and timestamp are unchanged |
| Pets.PlayLowersHappinessThatFeedRaised | PetBot/index.js:93-104 | feeding a pet at happiness 95 gives 105, and playing afterwards lowers it to 100 |
| PetRegistry.AdoptPet | PetBot/index.js:64-71 | adoption adds the user and leaves every existing pet untouched; a new user gets a new egg stamped `now`; a user who already has a pet gets "already has a pet" and no change |
| PetRegistry.ShowStatus | PetBot/index.js:74-86 | status never changes the registry; it reports the stored pet, or "adopt first" exactly when the user has no pet |
| PetRegistry.FeedPet | PetBot/index.js:89-96 | feed never adds or removes a user; a user without a pet gets "adopt first" and no change; otherwise only that user's pet is fed |
| PetRegistry.PlayWithPet | PetBot/index.js:99-106 | play never adds or removes a user; a user without a pet gets "adopt first" and no change; otherwise only that user's pet is played with |
| PetRegistry.Handle | PetBot/index.js:63-106 | `!adopt` gives a user without a pet a new egg stamped `now` and leaves an existing pet alone; `!status` changes nothing and reports the stored pet; `!feed` and `!play` replace the sender's pet by `Feed` or `Play` of it; only adoption adds a user; no command touches another user's pet or changes any level; a command other than adoption from a user without a pet changes nothing; well-formedness and the timestamp bound are kept |
| PetRegistry.Tick | PetBot/index.js:39-54 | the timer keeps the set of users and replaces every pet by its own tick at `now` (drift for its elapsed hours, one evolution check, new timestamp); each level rises by at most one and never drops, and all pets stay well-formed |
| PetRegistry.TickEach | PetBot/index.js:39-54 | updating the pets one at a time, in any order, gives the same registry as updating them all at once |
| PetRegistry.Step | PetBot/index.js:39-106 | one event never removes a user and keeps every timestamp at or before the event time; a timer firing keeps the users and ticks every pet, a message is handled as its command says |
| PetRegistry.Run | PetBot/index.js:39-106 | no sequence of commands and timer firings removes a user |
| PetRegistry.RunKeepsPetsWellFormed | PetBot/index.js:39-106 | along any chronological run, hunger and energy stay in [0, 100], happiness stays at least 0, and the level stays in 1 to 3 with its species label |
| PetRegistry.RunNeverLowersLevels | PetBot/index.js:39-106 | along any chronological run, no pet disappears and no pet's level decreases |
| PetRegistry.OnlyAdoptionCreatesPets | PetBot/index.js:64-106 | if a user sends no `!adopt` during a run, they have a pet at the end exactly when they had one at the start |
| PetRegistry.AdoptFeedPlayThenTick | PetBot/index.js:39-106 | adopt, feed and play in one instant give hunger 20, happiness 80, energy 85 at level 1 "Egg"; a tick at that instant, or at any time up to six hours later, makes the pet a level 2 "Dragon Hatchling" |
| PetRegistry.AdoptFeedPlayThenLateTick | PetBot/index.js:39-53 | the same pet ticked seven hours later stays at level 1: hunger is above 80 by then, so the drift has lowered happiness below 75 before the evolution check |
| Uptime.Rem | FunctionalityBot/index.js:230-232 | JavaScript's remainder of a non-negative number by a positive divisor lies in [0, divisor) and differs from the dividend by a whole, non-negative number of divisors |
| Uptime.SplitUptime | FunctionalityBot/index.js:229-233 | the real-number floor/modulo split equals the integer split of the whole seconds `uptime / 1000`; so seconds and minutes lie in [0, 60), hours in [0, 24), days are at least 0, days·86400 + hours·3600 + minutes·60 + seconds equals the whole seconds, and an uptime under 1000 ms splits into all zeros |
| Uptime.ComponentsAreIntegerSplit | FunctionalityBot/index.js:230-233 | each floored component equals its integer counterpart: days `s / 86400`, hours `(s / 3600) % 24`, minutes `(s / 60) % 60`, seconds `s % 60` for `s = uptime / 1000` |
| Uptime.SplitSeconds | FunctionalityBot/index.js:230-233 | the integer split of whole seconds is in clock form and adds back up to those seconds |
| Uptime.SplitSecondsOfTotal | FunctionalityBot/index.js:230-233 | the integer split recovers every clock-form duration from its total seconds |
| Uptime.SplitUptimeRoundTrip | FunctionalityBot/index.js:230-233 | every clock-form duration, plus fewer than 1000 extra milliseconds, is split back into exactly that duration |

## Left out

- Discord plumbing is not modelled: the client, login, the `messageCreate`
  dispatch, slash-command registration and reply texts. This is network I/O
  and library code. Commands arrive as an already matched `Command`. The
  case-insensitive comparison of the message text and the filter on bot
  authors are not modelled.
- The `setInterval` schedule and `Date.now()` are not modelled. The timer
  firing is a `Timer(at)` event and the clock is a parameter.
- Negative elapsed time (the clock going backwards) is excluded by
  precondition (`lastUpdated <= now`). What the bot would compute then is not
  modelled.
- IEEE double rounding is not modelled. Stats and elapsed hours are exact
  reals, and the uptime divisions are exact. `Math.round` in the status reply
  is display-only and is not modelled.
- The rest of FunctionalityBot is not part of this model: the profanity
  filter (a foreign dictionary), the reminder timer and its `parseInt`
  checks, the user, server and ping information handlers, the poll and the
  mock translation. All of these are I/O or formatting of external data.
- Uptime.SplitUptime: the uptime is taken as a non-negative whole number of
  milliseconds, as `Date.now() - startTime` gives on a clock that does not go
  backwards.
