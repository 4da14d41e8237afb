/** The combat collector: shots, the discharges they come from, hits credited to them, deaths,
    and the trimming of the finished product to its byte budget. */
module Combat {
  import opened Base

  const MAX_DISCHARGES: nat := 65_536
  const MAX_DEATHS: nat := 8192
  const COUNTER_MAX: nat := 0xFFFF_FFFF

  datatype ShotKey = ShotKey(slot: nat, weapon: string)

  /** One remembered discharge; hit means an opponent hit has been credited to it. */
  datatype Discharge = Discharge(id: nat, key: ShotKey, hit: bool)

  datatype Count = Count(fired: nat, hits: nat)

  datatype Shot = Shot(id: nat, slot: nat, weapon: string)

  datatype Relationship = Opponent | Friendly | Self | Environment | Unknown

  datatype Damage = Damage(discharge: Option<nat>, attacker: Option<nat>, victim: nat, weapon: Option<string>,
                           relationship: Relationship)

  datatype DeathKind = Kill | Betrayal | Suicide | Surroundings | Unexplained

  datatype Death = Death(kind: DeathKind, killer: Option<nat>, victim: nat, weapon: Option<string>, size: nat)

  datatype DeathEvent = DeathEvent(index: nat, tick: nat, death: Death)

  // ----- the history the counters stand for -----

  /** The shots of a key among all shots ever accepted. */
  function FiredBy(history: seq<Shot>, key: ShotKey): nat {
    if history == [] then 0
    else FiredBy(history[..|history| - 1], key) + (if KeyOf(history[|history| - 1]) == key then 1 else 0)
  }

  /** The discharges of a key that an opponent hit has been credited to. */
  function HitBy(history: seq<Shot>, struck: set<nat>, key: ShotKey): nat {
    if history == [] then 0
    else
      var last := history[|history| - 1];
      HitBy(history[..|history| - 1], struck, key) + (if KeyOf(last) == key && last.id in struck then 1 else 0)
  }

  function KeyOf(shot: Shot): ShotKey {
    ShotKey(shot.slot, shot.weapon)
  }

  predicate Ascending(history: seq<Shot>) {
    forall i, j :: 0 <= i < j < |history| ==> history[i].id < history[j].id
  }

  /** No key has more hits than shots: every hit is a distinct discharge of that key. */
  lemma {:induction false} HitsWithinShots(history: seq<Shot>, struck: set<nat>, key: ShotKey)
    ensures HitBy(history, struck, key) <= FiredBy(history, key)
  {
    if history != [] {
      HitsWithinShots(history[..|history| - 1], struck, key);
    }
  }

  lemma PushShot(history: seq<Shot>, struck: set<nat>, shot: Shot, key: ShotKey)
    requires shot.id !in struck
    ensures FiredBy(history + [shot], key) == FiredBy(history, key) + (if KeyOf(shot) == key then 1 else 0)
    ensures HitBy(history + [shot], struck, key) == HitBy(history, struck, key)
  {
    assert (history + [shot])[..|history|] == history;
  }

  /** A further struck discharge adds one hit to its own key and none to any other. */
  lemma {:induction false} StrikeOne(history: seq<Shot>, struck: set<nat>, i: nat, key: ShotKey)
    requires Ascending(history) && i < |history| && history[i].id !in struck
    ensures HitBy(history, struck + {history[i].id}, key)
      == HitBy(history, struck, key) + (if KeyOf(history[i]) == key then 1 else 0)
  {
    var n := |history| - 1;
    var front := history[..n];
    if i == n {
      StrikeNone(front, struck, history[i].id, key);
    } else {
      StrikeOne(front, struck, i, key);
    }
  }

  lemma {:induction false} StrikeNone(history: seq<Shot>, struck: set<nat>, id: nat, key: ShotKey)
    requires forall i :: 0 <= i < |history| ==> history[i].id != id
    ensures HitBy(history, struck + {id}, key) == HitBy(history, struck, key)
  {
    if history != [] {
      StrikeNone(history[..|history| - 1], struck, id, key);
    }
  }

  /** Discharges come with strictly increasing identities, and only those are struck. */
  ghost predicate Lineage(history: seq<Shot>, struck: set<nat>, last: nat) {
    && Ascending(history)
    && (forall i :: 0 <= i < |history| ==> 0 < history[i].id <= last)
    && forall id :: id in struck ==> Occurs(history, id)
  }

  ghost predicate Occurs(history: seq<Shot>, id: nat) {
    exists i :: 0 <= i < |history| && history[i].id == id
  }

  lemma LineagePush(history: seq<Shot>, struck: set<nat>, last: nat, shot: Shot)
    requires Lineage(history, struck, last) && shot.id > last
    ensures Lineage(history + [shot], struck, shot.id) && shot.id !in struck
  {
    var longer := history + [shot];
    forall id | id in struck ensures Occurs(longer, id) && id <= last {
      assert Occurs(history, id);
      var i :| 0 <= i < |history| && history[i].id == id;
      assert longer[i] == history[i];
    }
  }

  /** The window remembers the newest shots, each with whether it has been struck. */
  ghost predicate Window(history: seq<Shot>, struck: set<nat>, discharges: seq<Discharge>) {
    && |discharges| <= |history|
    && forall i :: 0 <= i < |discharges| ==>
      var shot := history[|history| - |discharges| + i];
      discharges[i] == Discharge(shot.id, KeyOf(shot), shot.id in struck)
  }

  ghost predicate Counted(history: seq<Shot>, struck: set<nat>, shots: map<ShotKey, Count>) {
    forall key :: (if key in shots then shots[key] else Count(0, 0))
      == Count(FiredBy(history, key), HitBy(history, struck, key))
  }

  predicate Remembers(discharges: seq<Discharge>, id: nat) {
    exists i :: 0 <= i < |discharges| && discharges[i].id == id
  }

  /** The remembered discharge belongs to another slot or weapon. */
  predicate Contradicted(discharges: seq<Discharge>, damage: Damage)
    requires damage.discharge.Some?
  {
    exists i :: 0 <= i < |discharges| && discharges[i].id == damage.discharge.value
      && (damage.attacker != Some(discharges[i].key.slot) || damage.weapon != Some(discharges[i].key.weapon))
  }

  // ----- what one tick amounts to -----

  /** The window after one further shot: the oldest discharge makes room when it is full. */
  function Remember(discharges: seq<Discharge>, shot: Shot): seq<Discharge> {
    (if |discharges| == 65_536 then discharges[1..] else discharges) + [Discharge(shot.id, KeyOf(shot), false)]
  }

  function RememberAll(discharges: seq<Discharge>, fired: seq<Shot>, n: nat): seq<Discharge>
    requires n <= |fired|
  {
    if n == 0 then discharges else Remember(RememberAll(discharges, fired, n - 1), fired[n - 1])
  }

  /** The window is never longer than its limit, and short of it nothing is forgotten. */
  lemma {:induction false} RememberedCount(discharges: seq<Discharge>, fired: seq<Shot>, n: nat)
    requires n <= |fired| && |discharges| <= 65_536
    ensures |RememberAll(discharges, fired, n)| == if |discharges| + n <= 65_536 then |discharges| + n
      else 65_536
    ensures |discharges| + n <= 65_536 ==> discharges <= RememberAll(discharges, fired, n)
  {
    if n > 0 {
      RememberedCount(discharges, fired, n - 1);
    }
  }

  /** The same discharges, struck or not. */
  predicate SameWindow(a: seq<Discharge>, b: seq<Discharge>) {
    |a| == |b| && forall i :: 0 <= i < |a| ==> a[i].id == b[i].id && a[i].key == b[i].key
  }

  lemma SameWindowVerdicts(a: seq<Discharge>, b: seq<Discharge>, damage: Damage)
    requires SameWindow(a, b)
    ensures damage.discharge.Some? ==> (Remembers(a, damage.discharge.value) <==> Remembers(b, damage.discharge.value))
    ensures damage.discharge.Some? ==> (Contradicted(a, damage) <==> Contradicted(b, damage))
  {
    if damage.discharge.Some? {
      SameWindowOneWay(a, b, damage);
      SameWindowOneWay(b, a, damage);
    }
  }

  lemma SameWindowOneWay(a: seq<Discharge>, b: seq<Discharge>, damage: Damage)
    requires SameWindow(a, b) && damage.discharge.Some?
    ensures Remembers(a, damage.discharge.value) ==> Remembers(b, damage.discharge.value)
    ensures Contradicted(a, damage) ==> Contradicted(b, damage)
  {
    if i :| 0 <= i < |a| && a[i].id == damage.discharge.value {
      assert b[i].id == damage.discharge.value;
    }
    if i :|
      && 0 <= i < |a| && a[i].id == damage.discharge.value
      && (damage.attacker != Some(a[i].key.slot) || damage.weapon != Some(a[i].key.weapon)) {
      assert b[i].id == damage.discharge.value;
    }
  }

  /** Every shot names a known slot and weapon, comes with a larger identity than the one
      before, and leaves its counter in range. */
  predicate ShotsAccepted(slots: set<nat>, weapons: set<string>, last: nat, history: seq<Shot>, fired: seq<Shot>,
                          n: nat)
    requires n <= |fired|
  {
    forall i :: 0 <= i < n ==> ShotAcceptedAt(slots, weapons, last, history, fired, i)
  }

  predicate ShotAcceptedAt(slots: set<nat>, weapons: set<string>, last: nat, history: seq<Shot>, fired: seq<Shot>,
                           i: nat)
    requires i < |fired|
  {
    ShotAccepted(slots, weapons, if i == 0 then last else fired[i - 1].id, history + fired[..i], fired[i])
  }

  predicate ShotAccepted(slots: set<nat>, weapons: set<string>, last: nat, history: seq<Shot>, shot: Shot) {
    shot.slot in slots && shot.weapon in weapons && shot.id > last && FiredBy(history, KeyOf(shot)) < 4_294_967_295
  }

  predicate Named(slots: set<nat>, weapons: set<string>, first: Option<nat>, second: nat, weapon: Option<string>) {
    (first.Some? ==> first.value in slots) && second in slots && (weapon.Some? ==> weapon.value in weapons)
  }

  /** The relationship says who may have dealt the damage: another player, the victim, or nobody. */
  predicate Related(damage: Damage) {
    match damage.relationship
    case Opponent => damage.attacker.Some? && damage.attacker.value != damage.victim
    case Friendly => damage.attacker.Some? && damage.attacker.value != damage.victim
    case Self => damage.attacker == Some(damage.victim)
    case Environment => damage.attacker == None
    case Unknown => true
  }

  /** The kind says who may have been the killer. */
  predicate Killed(death: Death) {
    match death.kind
    case Kill => death.killer.Some? && death.killer.value != death.victim
    case Betrayal => death.killer.Some? && death.killer.value != death.victim
    case Suicide => death.killer == Some(death.victim)
    case Surroundings => death.killer == None
    case Unexplained => true
  }

  predicate HitAccepted(slots: set<nat>, weapons: set<string>, window: seq<Discharge>, damage: Damage) {
    && Named(slots, weapons, damage.attacker, damage.victim, damage.weapon) && Related(damage)
    && !(damage.relationship.Opponent? && damage.discharge.Some? && Contradicted(window, damage))
  }

  predicate DeathAccepted(slots: set<nat>, weapons: set<string>, death: Death) {
    Named(slots, weapons, death.killer, death.victim, death.weapon) && Killed(death)
  }

  predicate DamageAccepted(slots: set<nat>, weapons: set<string>, window: seq<Discharge>, damage: seq<Damage>, n: nat)
    requires n <= |damage|
  {
    forall i :: 0 <= i < n ==> HitAccepted(slots, weapons, window, damage[i])
  }

  predicate DeathsAccepted(slots: set<nat>, weapons: set<string>, died: seq<Death>, n: nat)
    requires n <= |died|
  {
    forall i :: 0 <= i < n ==> DeathAccepted(slots, weapons, died[i])
  }

  /** The remembered discharges that the opponent hits among the first n damages name. */
  function Credited(window: seq<Discharge>, damage: seq<Damage>, n: nat): set<nat>
    requires n <= |damage|
  {
    set i | 0 <= i < n && damage[i].relationship.Opponent? && damage[i].discharge.Some?
      && Remembers(window, damage[i].discharge.value) :: damage[i].discharge.value
  }

  /** What one damage credits. */
  function CreditOf(window: seq<Discharge>, damage: Damage): set<nat> {
    if damage.relationship.Opponent? && damage.discharge.Some? && Remembers(window, damage.discharge.value) then
      {damage.discharge.value}
    else {}
  }

  /** An opponent hit among the first n names a discharge no longer remembered. */
  predicate Forgotten(window: seq<Discharge>, damage: seq<Damage>, n: nat)
    requires n <= |damage|
  {
    exists i ::
      && 0 <= i < n && damage[i].relationship.Opponent? && damage[i].discharge.Some?
      && !Remembers(window, damage[i].discharge.value)
  }

  /** Missing evidence raises the coverage level to one, if it is not there yet. */
  function CoverageAfter(level: nat, missing: bool): (after: nat)
    ensures after >= level && (missing ==> after >= 1) && (after == level || (missing && level == 0 && after == 1))
  {
    if missing && level < 1 then 1 else level
  }

  /** The deaths of one tick, numbered on. */
  function Numbered(died: seq<Death>, next: nat, ordinal: nat, n: nat): (events: seq<DeathEvent>)
    requires n <= |died|
    ensures |events| == n
  {
    seq(n, i requires 0 <= i < n => DeathEvent(next + i, ordinal, died[i]))
  }

  function FirstDeaths(events: seq<DeathEvent>): seq<DeathEvent> {
    if |events| <= 8192 then events else events[..8192]
  }

  lemma CreditedStep(window: seq<Discharge>, damage: seq<Damage>, n: nat)
    requires n < |damage|
    ensures
      var d := damage[n];
      && Credited(window, damage, n + 1) == Credited(window, damage, n) + CreditOf(window, d)
      && (Forgotten(window, damage, n + 1) <==>
          || Forgotten(window, damage, n)
          || (d.relationship.Opponent? && d.discharge.Some? && !Remembers(window, d.discharge.value)))
  {
    hide Remembers;
    var d := damage[n];
    if d.relationship.Opponent? && d.discharge.Some? && !Remembers(window, d.discharge.value) {
      assert Forgotten(window, damage, n + 1);
    }
  }

  lemma DamageAcceptedStep(slots: set<nat>, weapons: set<string>, window: seq<Discharge>, damage: seq<Damage>, n: nat)
    requires n < |damage| && DamageAccepted(slots, weapons, window, damage, n)
    ensures HitAccepted(slots, weapons, window, damage[n]) ==> DamageAccepted(slots, weapons, window, damage, n + 1)
    ensures !HitAccepted(slots, weapons, window, damage[n]) ==>
      !DamageAccepted(slots, weapons, window, damage, |damage|)
  {
    hide HitAccepted;
  }

  lemma ShotsAcceptedStep(slots: set<nat>, weapons: set<string>, last: nat, history: seq<Shot>, fired: seq<Shot>,
                          n: nat)
    requires n < |fired| && ShotsAccepted(slots, weapons, last, history, fired, n)
    ensures
      var accepted := ShotAccepted(slots, weapons, if n == 0 then last else fired[n - 1].id, history + fired[..n],
                                   fired[n]);
      && (accepted ==> ShotsAccepted(slots, weapons, last, history, fired, n + 1))
      && (!accepted ==> !ShotsAccepted(slots, weapons, last, history, fired, |fired|))
  {
    hide ShotAccepted;
    assert ShotAcceptedAt(slots, weapons, last, history, fired, n) <==>
      ShotAccepted(slots, weapons, if n == 0 then last else fired[n - 1].id, history + fired[..n], fired[n]);
  }

  lemma DeathsStep(slots: set<nat>, weapons: set<string>, died: seq<Death>, next: nat, ordinal: nat, n: nat)
    requires n < |died| && DeathsAccepted(slots, weapons, died, n)
    ensures Numbered(died, next, ordinal, n + 1)
      == Numbered(died, next, ordinal, n) + [DeathEvent(next + n, ordinal, died[n])]
    ensures
      var accepted := DeathAccepted(slots, weapons, died[n]);
      && (accepted ==> DeathsAccepted(slots, weapons, died, n + 1))
      && (!accepted ==> !DeathsAccepted(slots, weapons, died, |died|))
  {
    hide DeathAccepted;
  }

  lemma FirstDeathsPush(events: seq<DeathEvent>, event: DeathEvent)
    ensures FirstDeaths(events + [event]) == if |FirstDeaths(events)| == 8192 then FirstDeaths(events)
      else FirstDeaths(events) + [event]
  {
  }

  class Collector {
    var slots: set<nat>
    var weapons: set<string>
    var shots: map<ShotKey, Count>
    var discharges: seq<Discharge>
    var lastDischarge: nat
    var shotCoverage: nat
    var deaths: seq<DeathEvent>
    var deathCoverage: nat
    var nextEvent: nat
    /** Every shot accepted so far, and the discharges credited with an opponent hit. */
    ghost var history: seq<Shot>
    ghost var struck: set<nat>
    ghost var lastTick: nat

    ghost predicate Valid()
      reads this
    {
      && ShotsValid()
      && DeathsValid()
    }

    ghost predicate ShotsValid()
      reads this
    {
      && Lineage(history, struck, lastDischarge)
      && (forall key :: key in shots ==> shots[key].fired <= 4_294_967_295)
      && |discharges| <= 65_536
      && Window(history, struck, discharges)
      && Counted(history, struck, shots)
    }

    /** Death indices strictly increase, ticks never decrease. */
    ghost predicate DeathsValid()
      reads this
    {
      && |deaths| <= 8192
      && (forall i, j :: 0 <= i < j < |deaths| ==>
          deaths[i].index < deaths[j].index && deaths[i].tick <= deaths[j].tick)
      && (forall i :: 0 <= i < |deaths| ==> deaths[i].index < nextEvent && deaths[i].tick <= lastTick)
    }

    constructor ()
      ensures Valid() && history == [] && struck == {} && deaths == []
    {
      slots, weapons := {}, {};
      shots, discharges, lastDischarge := map[], [], 0;
      shotCoverage, deathCoverage := 0, 0;
      deaths, nextEvent := [], 0;
      history, struck, lastTick := [], {}, 0;
    }

    /** What the product reports for a key. */
    lemma CountsAreLineage(key: ShotKey)
      requires Valid() && key in shots
      ensures shots[key] == Count(FiredBy(history, key), HitBy(history, struck, key))
      ensures shots[key].hits <= shots[key].fired
    {
      HitsWithinShots(history, struck, key);
    }

    method ObserveShot(shot: Shot) returns (ok: bool)
      requires Valid()
      modifies this`shots, this`discharges, this`lastDischarge, this`shotCoverage, this`history
      ensures ok ==> Valid() && history == old(history) + [shot] && lastDischarge == shot.id
      ensures ok ==> discharges == Remember(old(discharges), shot)
      ensures ok ==> shotCoverage == if |old(discharges)| == 65_536 then 2 else old(shotCoverage)
      ensures ok <==> ShotAccepted(slots, weapons, old(lastDischarge), old(history), shot)
    {
      hide FiredBy, HitBy, Window, Counted, Lineage, Ascending;
      if shot.slot !in slots || shot.weapon !in weapons || shot.id <= lastDischarge {
        return false;
      }
      var key := KeyOf(shot);
      var summary := if key in shots then shots[key] else Count(0, 0);
      CountedAt(history, struck, shots, key);
      if summary.fired == COUNTER_MAX {
        return false;
      }
      LineagePush(history, struck, lastDischarge, shot);
      CountShot(history, struck, shots, shot);
      RememberShot(history, struck, discharges, shot);
      lastDischarge := shot.id;
      shots := shots[key := Count(summary.fired + 1, summary.hits)];
      if |discharges| == MAX_DISCHARGES {
        discharges := discharges[1..];
        shotCoverage := 2;
      }
      discharges := discharges + [Discharge(shot.id, key, false)];
      history := history + [shot];
      return true;
    }

    /** The remembered discharge with an identity, if it is still in the window. */
    method Find(id: nat) returns (index: Option<nat>)
      ensures index.Some? ==> index.value < |discharges| && discharges[index.value].id == id
      ensures index.None? ==> forall i :: 0 <= i < |discharges| ==> discharges[i].id != id
    {
      for i := 0 to |discharges|
        invariant forall j :: 0 <= j < i ==> discharges[j].id != id
      {
        if discharges[i].id == id {
          return Some(i);
        }
      }
      return None;
    }

    /** An opponent hit is credited to its discharge once; a contradiction is refused; a discharge
        no longer remembered only lowers the coverage. */
    method ObserveHit(damage: Damage) returns (ok: bool)
      requires Valid()
      modifies this`shots, this`discharges, this`shotCoverage, this`struck
      ensures ok ==> Valid()
      ensures SameWindow(old(discharges), discharges)
      ensures ok ==> struck == old(struck) + CreditOf(old(discharges), damage)
      ensures ok ==>
        shotCoverage
          == CoverageAfter(old(shotCoverage),
                           damage.relationship.Opponent? && damage.discharge.Some?
                           && !Remembers(old(discharges), damage.discharge.value))
      ensures !ok <==> damage.relationship.Opponent? && damage.discharge.Some? && Contradicted(old(discharges), damage)
    {
      hide FiredBy, HitBy, Window, Counted, Lineage, Ascending, Remembers, Contradicted;
      SameWindowSelf(discharges);
      if !damage.relationship.Opponent? || damage.discharge.None? {
        return true;
      }
      var id := damage.discharge.value;
      var found := Find(id);
      Looked(history, struck, lastDischarge, discharges, damage, found);
      if found.None? {
        shotCoverage := if shotCoverage < 1 then 1 else shotCoverage;
        return true;
      }
      var entry := discharges[found.value];
      if damage.attacker != Some(entry.key.slot) || damage.weapon != Some(entry.key.weapon) {
        return false;
      }
      if !entry.hit {
        LineageAscends(history, struck, lastDischarge);
        StrikeEntry(history, struck, discharges, shots, found.value);
        LineageStrike(history, struck, lastDischarge, id);
        SameWindowStruck(discharges, found.value);
        shots := shots[entry.key := Count(shots[entry.key].fired, shots[entry.key].hits + 1)];
        discharges := discharges[found.value := entry.(hit := true)];
        struck := struck + {id};
      } else {
        WindowStruck(history, struck, discharges, found.value);
      }
      return true;
    }

    /** A further death, numbered even when the list is full. */
    method ObserveDeath(death: Death, ordinal: nat) returns (ok: bool)
      requires Valid() && ordinal >= lastTick
      modifies this`deaths, this`deathCoverage, this`nextEvent, this`lastTick
      ensures Valid()
      ensures ok <==> DeathAccepted(slots, weapons, death)
      ensures ok ==> lastTick == ordinal && nextEvent == old(nextEvent) + 1
      ensures ok ==> deaths == if |old(deaths)| == 8192 then old(deaths)
        else old(deaths) + [DeathEvent(old(nextEvent), ordinal, death)]
      ensures ok ==> deathCoverage == if |old(deaths)| == 8192 then 2 else old(deathCoverage)
    {
      if !Killed(death) || (death.killer.Some? && death.killer.value !in slots) || death.victim !in slots
        || (death.weapon.Some? && death.weapon.value !in weapons) {
        return false;
      }
      hide Window, Counted, Ascending;
      var event := DeathEvent(nextEvent, ordinal, death);
      nextEvent := nextEvent + 1;
      lastTick := ordinal;
      if |deaths| == MAX_DEATHS {
        deathCoverage := 2;
      } else {
        deaths := deaths + [event];
      }
      return true;
    }

    method ObserveShots(fired: seq<Shot>) returns (ok: bool)
      requires Valid()
      modifies this`shots, this`discharges, this`lastDischarge, this`shotCoverage, this`history
      ensures ok ==>
        && Valid() && history == old(history) + fired
        && discharges == RememberAll(old(discharges), fired, |fired|)
      ensures ok ==> shotCoverage == if |old(discharges)| + |fired| > 65_536 then 2 else old(shotCoverage)
      ensures ok <==> ShotsAccepted(slots, weapons, old(lastDischarge), old(history), fired, |fired|)
    {
      hide Window, Counted, Lineage, Ascending, FiredBy, HitBy, ShotsAccepted, ShotAccepted, Remember;
      NoShots(slots, weapons, lastDischarge, history, fired);
      for i := 0 to |fired|
        invariant Valid() && history == old(history) + fired[..i]
        invariant discharges == RememberAll(old(discharges), fired, i)
        invariant lastDischarge == if i == 0 then old(lastDischarge) else fired[i - 1].id
        invariant shotCoverage == if |old(discharges)| + i > 65_536 then 2 else old(shotCoverage)
        invariant ShotsAccepted(slots, weapons, old(lastDischarge), old(history), fired, i)
      {
        ShotsAcceptedStep(slots, weapons, old(lastDischarge), old(history), fired, i);
        RememberedCount(old(discharges), fired, i);
        ok := ObserveShot(fired[i]);
        if !ok {
          return;
        }
        assert fired[..i + 1] == fired[..i] + [fired[i]];
      }
      assert fired[..|fired|] == fired;
      return true;
    }

    method ObserveDamage(damage: seq<Damage>) returns (ok: bool)
      requires Valid()
      modifies this`shots, this`discharges, this`shotCoverage, this`struck
      ensures ok ==>
        && Valid() && SameWindow(old(discharges), discharges)
        && struck == old(struck) + Credited(old(discharges), damage, |damage|)
      ensures ok ==> shotCoverage == CoverageAfter(old(shotCoverage), Forgotten(old(discharges), damage, |damage|))
      ensures ok <==> DamageAccepted(slots, weapons, old(discharges), damage, |damage|)
    {
      hide Window, Counted, Lineage, Ascending, FiredBy, HitBy, Credited, Forgotten, DamageAccepted, Remembers,
        Contradicted;
      ghost var window := discharges;
      NoDamage(slots, weapons, window, damage);
      for i := 0 to |damage|
        invariant Valid() && SameWindow(window, discharges) && struck == old(struck) + Credited(window, damage, i)
        invariant shotCoverage == CoverageAfter(old(shotCoverage), Forgotten(window, damage, i))
        invariant DamageAccepted(slots, weapons, window, damage, i)
      {
        DamageAcceptedStep(slots, weapons, window, damage, i);
        CreditedStep(window, damage, i);
        SameWindowVerdicts(window, discharges, damage[i]);
        var named := Named(slots, weapons, damage[i].attacker, damage[i].victim, damage[i].weapon);
        if !named || !Related(damage[i]) {
          return false;
        }
        ok := ObserveHit(damage[i]);
        if !ok {
          return;
        }
      }
      return true;
    }

    method ObserveDeaths(died: seq<Death>, ordinal: nat) returns (ok: bool)
      requires Valid() && ordinal >= lastTick
      modifies this`deaths, this`deathCoverage, this`nextEvent, this`lastTick
      ensures Valid()
      ensures ok ==>
        && nextEvent == old(nextEvent) + |died|
        && deaths == FirstDeaths(old(deaths) + Numbered(died, old(nextEvent), ordinal, |died|))
        && deathCoverage == if |old(deaths)| + |died| > 8192 then 2 else old(deathCoverage)
      ensures ok <==> DeathsAccepted(slots, weapons, died, |died|)
    {
      hide Window, Counted, Lineage, Ascending, FiredBy, HitBy, DeathAccepted, DeathsAccepted, FirstDeaths, Numbered;
      NoDeaths(slots, weapons, old(deaths), died, nextEvent, ordinal);
      for i := 0 to |died|
        invariant Valid() && lastTick <= ordinal && nextEvent == old(nextEvent) + i
        invariant |deaths| == if |old(deaths)| + i <= 8192 then |old(deaths)| + i else 8192
        invariant deathCoverage == if |old(deaths)| + i > 8192 then 2 else old(deathCoverage)
        invariant deaths == FirstDeaths(old(deaths) + Numbered(died, old(nextEvent), ordinal, i))
        invariant DeathsAccepted(slots, weapons, died, i)
      {
        DeathsStep(slots, weapons, died, old(nextEvent), ordinal, i);
        FirstDeathsPush(old(deaths) + Numbered(died, old(nextEvent), ordinal, i),
                        DeathEvent(old(nextEvent) + i, ordinal, died[i]));
        assert old(deaths) + Numbered(died, old(nextEvent), ordinal, i + 1)
            == old(deaths) + Numbered(died, old(nextEvent), ordinal, i)
              + [DeathEvent(old(nextEvent) + i, ordinal, died[i])];
        ok := ObserveDeath(died[i], ordinal);
        if !ok {
          return;
        }
      }
      return true;
    }

    /** One tick: the roster and the catalogue grow, then shots, damage and deaths in order.
        A refused tick ends the collection. */
    method Observe(roster: seq<nat>, catalogue: seq<string>, fired: seq<Shot>, damage: seq<Damage>, died: seq<Death>,
                   ordinal: nat) returns (ok: bool)
      requires Valid() && ordinal >= lastTick
      modifies this
      ensures slots == old(slots) + (set s | s in roster) && weapons == old(weapons) + (set w | w in catalogue)
      ensures
        var window := RememberAll(old(discharges), fired, |fired|);
        && (ok <==>
          && ShotsAccepted(slots, weapons, old(lastDischarge), old(history), fired, |fired|)
          && DamageAccepted(slots, weapons, window, damage, |damage|)
          && DeathsAccepted(slots, weapons, died, |died|))
        && (ok ==>
          && Valid() && history == old(history) + fired
          && SameWindow(window, discharges)
          && struck == old(struck) + Credited(window, damage, |damage|)
          && nextEvent == old(nextEvent) + |died|
          && deaths == FirstDeaths(old(deaths) + Numbered(died, old(nextEvent), ordinal, |died|))
          && shotCoverage == CoverageAfter(if |old(discharges)| + |fired| > 65_536 then 2 else old(shotCoverage),
                                           Forgotten(window, damage, |damage|))
          && deathCoverage == if |old(deaths)| + |died| > 8192 then 2 else old(deathCoverage))
    {
      hide Window, Counted, Lineage, RememberAll, ShotsAccepted, DamageAccepted, DeathsAccepted, Credited, Forgotten,
        SameWindow, FirstDeaths, Numbered, CoverageAfter;
      slots := slots + set s | s in roster;
      weapons := weapons + set w | w in catalogue;
      ok := ObserveShots(fired);
      if !ok {
        return;
      }
      ok := ObserveDamage(damage);
      if !ok {
        return;
      }
      ok := ObserveDeaths(died, ordinal);
    }
  }

  lemma SameWindowSelf(discharges: seq<Discharge>)
    ensures SameWindow(discharges, discharges)
  {
  }

  lemma SameWindowStruck(discharges: seq<Discharge>, i: nat)
    requires i < |discharges|
    ensures SameWindow(discharges, discharges[i := discharges[i].(hit := true)])
  {
  }

  lemma LineageAscends(history: seq<Shot>, struck: set<nat>, last: nat)
    requires Lineage(history, struck, last)
    ensures Ascending(history)
  {
  }

  /** The window answers for an identity through the one discharge that has it. */
  lemma Looked(history: seq<Shot>, struck: set<nat>, last: nat, discharges: seq<Discharge>, damage: Damage,
               found: Option<nat>)
    requires Lineage(history, struck, last) && Window(history, struck, discharges) && damage.discharge.Some?
    requires found.Some? ==> found.value < |discharges| && discharges[found.value].id == damage.discharge.value
    requires found.None? ==> forall i :: 0 <= i < |discharges| ==> discharges[i].id != damage.discharge.value
    ensures Remembers(discharges, damage.discharge.value) <==> found.Some?
    ensures
      Contradicted(discharges, damage) <==>
      && found.Some?
      && (damage.attacker != Some(discharges[found.value].key.slot)
          || damage.weapon != Some(discharges[found.value].key.weapon))
  {
    WindowDistinct(history, struck, discharges);
  }

  lemma NoShots(slots: set<nat>, weapons: set<string>, last: nat, history: seq<Shot>, fired: seq<Shot>)
    ensures ShotsAccepted(slots, weapons, last, history, fired, 0)
  {
  }

  lemma NoDamage(slots: set<nat>, weapons: set<string>, window: seq<Discharge>, damage: seq<Damage>)
    ensures DamageAccepted(slots, weapons, window, damage, 0) && Credited(window, damage, 0) == {}
    ensures !Forgotten(window, damage, 0)
  {
  }

  lemma NoDeaths(slots: set<nat>, weapons: set<string>, deaths: seq<DeathEvent>, died: seq<Death>, next: nat,
                 ordinal: nat)
    ensures DeathsAccepted(slots, weapons, died, 0) && deaths + Numbered(died, next, ordinal, 0) == deaths
    ensures |deaths| <= 8192 ==> FirstDeaths(deaths) == deaths
  {
  }

  lemma CountedAt(history: seq<Shot>, struck: set<nat>, shots: map<ShotKey, Count>, key: ShotKey)
    requires Counted(history, struck, shots)
    ensures (if key in shots then shots[key] else Count(0, 0))
      == Count(FiredBy(history, key), HitBy(history, struck, key))
  {
  }

  lemma CountShot(history: seq<Shot>, struck: set<nat>, shots: map<ShotKey, Count>, shot: Shot)
    requires Counted(history, struck, shots) && shot.id !in struck
    ensures
      var key := KeyOf(shot);
      var summary := if key in shots then shots[key] else Count(0, 0);
      Counted(history + [shot], struck, shots[key := Count(summary.fired + 1, summary.hits)])
  {
    var key := KeyOf(shot);
    var summary := if key in shots then shots[key] else Count(0, 0);
    var shots' := shots[key := Count(summary.fired + 1, summary.hits)];
    forall k ensures (if k in shots' then shots'[k] else Count(0, 0))
      == Count(FiredBy(history + [shot], k), HitBy(history + [shot], struck, k)) {
      PushShot(history, struck, shot, k);
    }
  }

  lemma RememberShot(history: seq<Shot>, struck: set<nat>, discharges: seq<Discharge>, shot: Shot)
    requires Window(history, struck, discharges) && shot.id !in struck
    ensures
      var kept := if |discharges| == 65_536 then discharges[1..] else discharges;
      Window(history + [shot], struck, kept + [Discharge(shot.id, KeyOf(shot), false)])
  {
  }

  lemma LineageStrike(history: seq<Shot>, struck: set<nat>, last: nat, id: nat)
    requires Lineage(history, struck, last) && Occurs(history, id)
    ensures Lineage(history, struck + {id}, last)
  {
  }

  lemma WindowDistinct(history: seq<Shot>, struck: set<nat>, discharges: seq<Discharge>)
    requires Ascending(history) && Window(history, struck, discharges)
    ensures forall i, j :: 0 <= i < j < |discharges| ==> discharges[i].id < discharges[j].id
  {
  }

  lemma WindowStruck(history: seq<Shot>, struck: set<nat>, discharges: seq<Discharge>, i: nat)
    requires Window(history, struck, discharges) && i < |discharges| && discharges[i].hit
    ensures discharges[i].id in struck
  {
  }

  lemma StrikeEntry(history: seq<Shot>, struck: set<nat>, discharges: seq<Discharge>, shots: map<ShotKey, Count>,
                    i: nat)
    requires Ascending(history) && Window(history, struck, discharges) && Counted(history, struck, shots)
    requires i < |discharges| && !discharges[i].hit
    ensures
      var entry := discharges[i];
      && entry.key in shots
      && Window(history, struck + {entry.id}, discharges[i := entry.(hit := true)])
      && Counted(history, struck + {entry.id},
                 shots[entry.key := Count(shots[entry.key].fired, shots[entry.key].hits + 1)])
      && Occurs(history, entry.id)
  {
    var entry := discharges[i];
    var n := |history| - |discharges| + i;
    assert history[n].id == entry.id && KeyOf(history[n]) == entry.key;
    FiredAtLeastOne(history, n);
    var shots' := shots[entry.key := Count(shots[entry.key].fired, shots[entry.key].hits + 1)];
    forall k ensures (if k in shots' then shots'[k] else Count(0, 0))
      == Count(FiredBy(history, k), HitBy(history, struck + {entry.id}, k)) {
      StrikeOne(history, struck, n, k);
    }
    WindowDistinct(history, struck, discharges);
  }

  lemma {:induction false} FiredAtLeastOne(history: seq<Shot>, i: nat)
    requires i < |history|
    ensures FiredBy(history, KeyOf(history[i])) > 0
  {
    var n := |history| - 1;
    if i < n {
      FiredAtLeastOne(history[..n], i);
    }
  }

  // ----- the trimmed product -----

  /** The serialised list of deaths: brackets, events and the commas between them. */
  function ListBytes(deaths: seq<DeathEvent>): nat {
    if deaths == [] then 2
    else if |deaths| == 1 then 2 + deaths[0].death.size
    else ListBytes(deaths[..|deaths| - 1]) + deaths[|deaths| - 1].death.size + 1
  }

  lemma {:induction false} ListBytesGrow(deaths: seq<DeathEvent>, n: nat)
    requires n <= |deaths|
    ensures ListBytes(deaths[..n]) <= ListBytes(deaths)
    decreases |deaths| - n
  {
    assert deaths[..|deaths|] == deaths;
    if n < |deaths| {
      ListBytesGrow(deaths, n + 1);
      assert deaths[..n + 1][..n] == deaths[..n];
    }
  }

  /** The product without its deaths has the given size, and another once the coverage of the
      deaths says it was capped. The running byte count is the true size throughout; what remains
      is the longest list of oldest deaths within the budget, or nothing fits. */
  method Trim(deaths: seq<DeathEvent>, rest: nat, cappedRest: nat, budget: nat) returns (res: Option<seq<DeathEvent>>)
    ensures rest + ListBytes(deaths) <= budget ==> res == Some(deaths)
    ensures rest + ListBytes(deaths) > budget && res.Some? ==>
      && res.value <= deaths
      && cappedRest + ListBytes(res.value) <= budget
      && forall n :: |res.value| < n <= |deaths| ==> cappedRest + ListBytes(deaths[..n]) > budget
    ensures res.None? <==> rest + ListBytes(deaths) > budget && cappedRest + ListBytes([]) > budget
  {
    if rest + ListBytes(deaths) <= budget {
      return Some(deaths);
    }
    var kept := deaths;
    var bytes: int := cappedRest + ListBytes(deaths);
    assert deaths[..|deaths|] == deaths;
    while bytes > budget
      invariant kept <= deaths && bytes == cappedRest + ListBytes(kept)
      invariant forall n :: |kept| < n <= |deaths| ==> cappedRest + ListBytes(deaths[..n]) > budget
      decreases |kept|
    {
      assert kept == deaths[..|kept|];
      if kept == [] {
        return None;
      }
      var removed := kept[|kept| - 1];
      ghost var longer := kept;
      kept := kept[..|kept| - 1];
      bytes := bytes - (removed.death.size + if kept != [] then 1 else 0);
      assert longer[..|longer| - 1] == kept;
    }
    ListBytesGrow(kept, 0);
    assert kept[..0] == [];
    return Some(kept);
  }
}
