/**
 PetBot's pet registry: the map from Discord user id to that user's pet, the
 four chat commands that read or change it (adopt, status, feed, play), and
 the background tick that updates every pet. A replay of any sequence of
 commands and ticks is defined at the end, with the invariants the bot keeps
 along it.
 */
module PetRegistry {
  import opened Pets

  /** A Discord user id (a snowflake string). */
  type UserId = string

  type Registry = map<UserId, Pet>

  /** The commands the bot reacts to (`!adopt`, `!status`, `!feed`, `!play`),
      after the message text was matched. */
  datatype Command = AdoptCmd | StatusCmd | FeedCmd | PlayCmd

  /** What the bot answers; the wording of the replies is not modelled. */
  datatype Reply =
    | Adopted
    | AlreadyHasPet
    | NeedsPet
    | StatusReport(pet: Pet)
    | Ate
    | PlayedFetch

  datatype Outcome = Outcome(registry: Registry, reply: Reply)

  /** Every pet of the registry is well-formed. */
  ghost predicate AllWellFormed(reg: Registry)
  {
    forall u :: u in reg ==> WellFormed(reg[u])
  }

  /** No pet of the registry was updated after time `now`. */
  predicate UpdatedBy(reg: Registry, now: Millis)
  {
    forall u :: u in reg ==> reg[u].lastUpdated <= now
  }

  /** `!adopt`: a user without a pet gets a new egg stamped `now`; a user who
      already has one keeps it untouched. */
  function AdoptPet(reg: Registry, user: UserId, now: Millis): (r: Outcome)
    ensures r.registry.Keys == reg.Keys + {user}
    ensures user in reg ==> r.registry == reg && r.reply == AlreadyHasPet
    ensures user !in reg ==> r.registry[user] == NewPet(now) && r.reply == Adopted
    ensures forall u :: u in reg ==> r.registry[u] == reg[u]
  {
    if user !in reg then Outcome(reg[user := NewPet(now)], Adopted)
    else Outcome(reg, AlreadyHasPet)
  }

  /** `!status`: reports the stored pet as it is (no drift is applied). */
  function ShowStatus(reg: Registry, user: UserId): (r: Outcome)
    ensures r.registry == reg
    ensures r.reply == NeedsPet <==> user !in reg
    ensures user in reg ==> r.reply == StatusReport(reg[user])
  {
    if user !in reg then Outcome(reg, NeedsPet)
    else Outcome(reg, StatusReport(reg[user]))
  }

  /** `!feed`: feeds the user's pet; a user without a pet is told to adopt
      one and nothing is created. */
  function FeedPet(reg: Registry, user: UserId): (r: Outcome)
    ensures r.registry.Keys == reg.Keys
    ensures user !in reg ==> r.registry == reg && r.reply == NeedsPet
    ensures user in reg ==> r.registry[user] == Feed(reg[user]) && r.reply == Ate
    ensures forall u :: u in reg && u != user ==> r.registry[u] == reg[u]
  {
    if user !in reg then Outcome(reg, NeedsPet)
    else Outcome(reg[user := Feed(reg[user])], Ate)
  }

  /** `!play`: plays with the user's pet; a user without a pet is told to
      adopt one and nothing is created. */
  function PlayWithPet(reg: Registry, user: UserId): (r: Outcome)
    ensures r.registry.Keys == reg.Keys
    ensures user !in reg ==> r.registry == reg && r.reply == NeedsPet
    ensures user in reg ==> r.registry[user] == Play(reg[user]) && r.reply == PlayedFetch
    ensures forall u :: u in reg && u != user ==> r.registry[u] == reg[u]
  {
    if user !in reg then Outcome(reg, NeedsPet)
    else Outcome(reg[user := Play(reg[user])], PlayedFetch)
  }

  /** One chat command from `user` at time `now` (the time matters only for
      adoption). Only adoption adds a user; no command removes one or touches
      another user's pet. */
  function Handle(reg: Registry, user: UserId, cmd: Command, now: Millis): (r: Outcome)
    ensures r.registry.Keys == if cmd == AdoptCmd then reg.Keys + {user} else reg.Keys
    ensures forall u :: u in reg && u != user ==> r.registry[u] == reg[u]
    ensures cmd != AdoptCmd && user !in reg ==> r.registry == reg && r.reply == NeedsPet
    ensures AllWellFormed(reg) ==> AllWellFormed(r.registry)
    ensures UpdatedBy(reg, now) ==> UpdatedBy(r.registry, now)
    ensures forall u :: u in reg ==> reg[u].stats.level == r.registry[u].stats.level
    // what each command does to the sender's own pet
    ensures cmd == AdoptCmd && user !in reg ==> r.registry[user] == NewPet(now) && r.reply == Adopted
    ensures cmd == AdoptCmd && user in reg ==> r.registry == reg && r.reply == AlreadyHasPet
    ensures cmd == StatusCmd ==> r.registry == reg
    ensures cmd == StatusCmd && user in reg ==> r.reply == StatusReport(reg[user])
    ensures cmd == FeedCmd && user in reg ==> r.registry[user] == Feed(reg[user]) && r.reply == Ate
    ensures cmd == PlayCmd && user in reg ==> r.registry[user] == Play(reg[user]) && r.reply == PlayedFetch
  {
    match cmd
    case AdoptCmd => AdoptPet(reg, user, now)
    case StatusCmd => ShowStatus(reg, user)
    case FeedCmd => FeedPet(reg, user)
    case PlayCmd => PlayWithPet(reg, user)
  }

  /** The background tick at time `now`: every pet drifts for the time since
      its own last update, gets one evolution check and is stamped `now`. */
  function Tick(reg: Registry, now: Millis): (r: Registry)
    requires UpdatedBy(reg, now)
    ensures r.Keys == reg.Keys
    ensures forall u :: u in r ==> r[u].lastUpdated == now
    ensures forall u :: u in reg ==> reg[u].stats.level <= r[u].stats.level <= reg[u].stats.level + 1
    ensures AllWellFormed(reg) ==> AllWellFormed(r)
    ensures forall u :: u in reg ==> r[u] == TickPet(reg[u], now)
  {
    map u | u in reg :: TickPet(reg[u], now)
  }

  /** The tick as the bot runs it: the pets are visited one after another and
      each is overwritten in place. The order of the visit does not matter;
      the result is the same as updating all pets at once. */
  method TickEach(reg: Registry, now: Millis) returns (r: Registry)
    requires UpdatedBy(reg, now)
    ensures r == Tick(reg, now)
  {
    r := reg;
    var todo := reg.Keys;
    while todo != {}
      invariant todo <= reg.Keys
      invariant r.Keys == reg.Keys
      invariant forall u :: u in todo ==> r[u] == reg[u]
      invariant forall u :: u in reg && u !in todo ==> r[u] == TickPet(reg[u], now)
      decreases todo
    {
      var u :| u in todo;
      assert r[u] == reg[u];
      r := r[u := TickPet(r[u], now)];
      todo := todo - {u};
    }
    assert forall u :: u in reg ==> r[u] == Tick(reg, now)[u];
  }

  /** Something the bot reacts to: a command message, or the interval timer. */
  datatype Event =
    | Message(user: UserId, cmd: Command, at: Millis)
    | Timer(at: Millis)

  /** The bot's reaction to one event: a command changes the registry as
      Handle says, a timer firing as Tick says. */
  function Step(reg: Registry, e: Event): (r: Registry)
    requires UpdatedBy(reg, e.at)
    ensures UpdatedBy(r, e.at)
    ensures reg.Keys <= r.Keys
    ensures e.Timer? ==> r.Keys == reg.Keys && forall u :: u in reg ==> r[u] == TickPet(reg[u], e.at)
    ensures e.Message? ==> r == Handle(reg, e.user, e.cmd, e.at).registry
  {
    match e
    case Message(user, cmd, at) => Handle(reg, user, cmd, at).registry
    case Timer(at) => Tick(reg, at)
  }

  /** The events happen in clock order. */
  predicate Chronological(events: seq<Event>)
  {
    forall i, j :: 0 <= i < j < |events| ==> events[i].at <= events[j].at
  }

  /** No pet was updated after the first event. */
  predicate StartsAfter(reg: Registry, events: seq<Event>)
  {
    |events| > 0 ==> UpdatedBy(reg, events[0].at)
  }

  /** The registry after the bot has reacted to each event in turn. */
  function Run(reg: Registry, events: seq<Event>): (r: Registry)
    requires Chronological(events) && StartsAfter(reg, events)
    ensures reg.Keys <= r.Keys
    decreases |events|
  {
    if |events| == 0 then reg
    else
      var next := Step(reg, events[0]);
      assert StartsAfter(next, events[1..]);
      Run(next, events[1..])
  }

  /** Along any run, every pet stays well-formed: hunger and energy within
      [0, 100], happiness non-negative, a level of 1 to 3 with its species. */
  lemma {:induction false} RunKeepsPetsWellFormed(reg: Registry, events: seq<Event>)
    requires Chronological(events) && StartsAfter(reg, events)
    requires AllWellFormed(reg)
    ensures AllWellFormed(Run(reg, events))
    decreases |events|
  {
    if |events| > 0 {
      var next := Step(reg, events[0]);
      assert AllWellFormed(next);
      assert StartsAfter(next, events[1..]);
      RunKeepsPetsWellFormed(next, events[1..]);
    }
  }

  /** Along any run, no pet disappears and no pet's level ever goes down. */
  lemma {:induction false} RunNeverLowersLevels(reg: Registry, events: seq<Event>)
    requires Chronological(events) && StartsAfter(reg, events)
    ensures forall u :: u in reg ==> reg[u].stats.level <= Run(reg, events)[u].stats.level
    decreases |events|
  {
    if |events| > 0 {
      var next := Step(reg, events[0]);
      assert forall u :: u in reg ==> reg[u].stats.level <= next[u].stats.level;
      assert StartsAfter(next, events[1..]);
      RunNeverLowersLevels(next, events[1..]);
    }
  }

  /** Only `!adopt` creates a pet: a user who never adopts during a run has a
      pet at its end exactly when they had one at its start. */
  lemma {:induction false} OnlyAdoptionCreatesPets(reg: Registry, events: seq<Event>, user: UserId)
    requires Chronological(events) && StartsAfter(reg, events)
    requires forall i :: 0 <= i < |events| ==> events[i] != Message(user, AdoptCmd, events[i].at)
    ensures user in Run(reg, events) <==> user in reg
    decreases |events|
  {
    if |events| > 0 {
      var next := Step(reg, events[0]);
      assert user in next <==> user in reg;
      assert StartsAfter(next, events[1..]);
      OnlyAdoptionCreatesPets(next, events[1..], user);
    }
  }

  /** Adopting, feeding and playing in the same instant leaves the egg at
      happiness 80 but still at level 1, because neither command runs the
      evolution check. The next tick hatches it, whether it comes at that
      instant or up to six hours later: by then hunger has only climbed to
      80, which does not yet cost happiness. */
  lemma AdoptFeedPlayThenTick(user: UserId, t: Millis, t2: Millis)
    requires t <= t2 <= t + 6 * MillisPerHour
    ensures var r1 := Handle(map[], user, AdoptCmd, t).registry;
      var r2 := Handle(r1, user, FeedCmd, t).registry;
      var r3 := Handle(r2, user, PlayCmd, t).registry;
      && r3 == map[user := Pet(Stats(20.0, 80.0, 85.0, 1), "Egg", t)]
      && Tick(r3, t) == map[user := Pet(Stats(20.0, 80.0, 85.0, 2), "Dragon Hatchling", t)]
      && Tick(r3, t2)[user].stats.level == 2
      && Tick(r3, t2)[user].species == "Dragon Hatchling"
  {
    var r3 := map[user := Pet(Stats(20.0, 80.0, 85.0, 1), "Egg", t)];
    assert TickPet(r3[user], t) == Pet(Stats(20.0, 80.0, 85.0, 2), "Dragon Hatchling", t);
    var h := HoursBetween(t, t2);
    assert h <= 6.0;
    assert Drift(r3[user].stats, h).happiness == 80.0;
  }

  /** Past six hours the same pet no longer hatches: hunger has passed 80 and
      the drift has taken happiness below 75 before the evolution check. */
  lemma AdoptFeedPlayThenLateTick(user: UserId, t: Millis)
    ensures var r3 := map[user := Pet(Stats(20.0, 80.0, 85.0, 1), "Egg", t)];
      Tick(r3, t + 7 * MillisPerHour)[user].stats.level == 1
  {
    var p := Pet(Stats(20.0, 80.0, 85.0, 1), "Egg", t);
    assert HoursBetween(t, t + 7 * MillisPerHour) == 7.0;
    assert Drift(p.stats, 7.0).happiness == 45.0;
  }
}
