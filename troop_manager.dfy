/** The troop manager of the lane battle as an object: its troops, its cooldown map,
    its graphics maps and its two spawn queues are fields its methods update in
    place, and the castles are shared objects whose health and money it changes.
    Each method is proved against the functions of the combat model and of the
    spawn decision below. Timers are not run: an attempt reports the delay after
    which it asked to be called again. */
module Manager {
  import opened Troops
  import opened Targeting
  import Combat

  /** A castle sprite: fixed in place, with health and money that change. */
  class Castle {
    const x: real
    const y: real
    var health: real
    var money: real

    constructor(x: real, y: real, health: real, money: real)
      ensures this.x == x && this.y == y && this.health == health && this.money == money
    {
      this.x := x;
      this.y := y;
      this.health := health;
      this.money := money;
    }

    function State(): CastleState
      reads this
    {
      CastleState(x, y, health, money)
    }
  }

  /** One queued request: the team, the type name, the castle that asked (possibly
      none), and the type's cost, recorded but never deducted. */
  datatype SpawnRequest = SpawnRequest(team: Team, troopType: string, castle: Castle?, cost: real)

  datatype SpawnError =
    | MissingCastle     // the request has no castle, so reading its money fails
    | UnknownTroopType  // the catalog has no such type, so building the troop fails

  /** What one spawn attempt did. */
  datatype SpawnOutcome =
    | QueueEmpty
    | Blocked(retryAfter: nat)                      // spawn point occupied; retried later
    | Stalled                                       // the castle's money check failed; nothing rescheduled
    | Spawned(troop: nat, nextAttemptAfter: Option<nat>)
    | Crashed(error: SpawnError)                    // the attempt throws; nothing changed

  const RetryDelay: nat := 50
  const SpawnInterval: nat := 500

  /** The decision of one spawn attempt, from the team's queue, the troops, and the
      money of the castle of the head request (None when the request has no castle). */
  function Attempt(queue: seq<SpawnRequest>, troops: seq<Troop>, team: Team, headMoney: Option<real>): SpawnOutcome {
    if queue == [] then QueueEmpty
    else if !SpawnAreaClear(troops, team) then Blocked(RetryDelay)
    else if headMoney.None? then Crashed(MissingCastle)
    else if !(headMoney.value >= 0.0) then Stalled
    else if KindNamed(queue[0].troopType).None? then Crashed(UnknownTroopType)
    else Spawned(|troops|, if |queue| > 1 then Some(SpawnInterval) else None)
  }

  /** A spawn happens exactly when the queue is not empty, the spawn point is clear,
      the head's castle exists with non-negative money and the head's type is known;
      the new troop takes the next index, and another attempt is scheduled exactly
      when requests remain. */
  lemma AttemptSpawnsExactly(queue: seq<SpawnRequest>, troops: seq<Troop>, team: Team, headMoney: Option<real>)
    ensures var o := Attempt(queue, troops, team, headMoney);
      o.Spawned? <==>
        queue != [] && SpawnAreaClear(troops, team) && headMoney.Some? && headMoney.value >= 0.0 &&
        KindNamed(queue[0].troopType).Some?
    ensures var o := Attempt(queue, troops, team, headMoney);
      o.Spawned? ==> o.troop == |troops| && (o.nextAttemptAfter == Some(500) <==> |queue| > 1) &&
                     (o.nextAttemptAfter.None? <==> |queue| == 1)
    ensures var o := Attempt(queue, troops, team, headMoney);
      o == Blocked(50) <==> queue != [] && !SpawnAreaClear(troops, team)
  {
  }

  /** Only the spawning team's own active troops matter: adding troops of the other
      team, or dead troops, never changes an attempt's decision. */
  lemma AttemptIgnoresOthers(queue: seq<SpawnRequest>, troops: seq<Troop>, others: seq<Troop>, team: Team, headMoney: Option<real>)
    requires forall k :: 0 <= k < |others| ==> !others[k].active || others[k].team != team
    ensures Attempt(queue, others + troops, team, headMoney).Spawned? <==> Attempt(queue, troops, team, headMoney).Spawned?
    ensures Attempt(queue, others + troops, team, headMoney).Blocked? <==> Attempt(queue, troops, team, headMoney).Blocked?
  {
    OnlyActiveTeammatesBlock(troops, others, team);
  }

  /** Right after a spawn, the team's next attempt finds the new troop on the spawn
      point and is put off, or finds the queue empty; the other team's next attempt is
      decided as if the troop were not there. */
  lemma SpawnBlocksNextAttempt(queue: seq<SpawnRequest>, troops: seq<Troop>, team: Team, headMoney: Option<real>,
                                nextMoney: Option<real>, other: seq<SpawnRequest>, otherMoney: Option<real>)
    requires Attempt(queue, troops, team, headMoney).Spawned?
    ensures var after := troops + [NewTroop(team, KindNamed(queue[0].troopType).value)];
      Attempt(queue[1..], after, team, nextMoney) == (if |queue| > 1 then Blocked(50) else QueueEmpty)
    ensures var after := troops + [NewTroop(team, KindNamed(queue[0].troopType).value)];
      var before, now := Attempt(other, troops, team.Opponent(), otherMoney), Attempt(other, after, team.Opponent(), otherMoney);
      (now.Spawned? <==> before.Spawned?) && (now.Spawned? ==> now.troop == before.troop + 1) &&
      (!now.Spawned? ==> now == before)
  {
    NewTroopBlocksItsSpawnPoint(troops, team, KindNamed(queue[0].troopType).value);
  }

  class TroopManager {
    const castleLeft: Castle
    const castleRight: Castle
    /** The troops in creation order; a troop's index is its identity. */
    var troops: seq<Troop>
    var lastDamageTime: map<nat, int>
    /** The troops that still own an attack-zone graphic and a walk-stop graphic. */
    var attackZoneGraphics: set<nat>
    var walkStopZoneGraphics: set<nat>
    var spawnQueueLeft: seq<SpawnRequest>
    var spawnQueueRight: seq<SpawnRequest>

    /** The castles are two objects; each troop owns its graphics exactly while it is
        active; the cooldown map only knows troops of this manager. */
    ghost predicate Valid()
      reads this, castleLeft, castleRight
    {
      castleLeft != castleRight &&
      Combat.GraphicsOfActive(World()) && Combat.CooldownsOfTroops(World())
    }

    /** Everything the combat pass reads and writes. */
    function World(): Combat.World
      reads this, castleLeft, castleRight
    {
      Combat.World(troops, castleLeft.State(), castleRight.State(), lastDamageTime,
                   attackZoneGraphics, walkStopZoneGraphics)
    }

    function Queue(team: Team): seq<SpawnRequest>
      reads this
    {
      if team == Left then spawnQueueLeft else spawnQueueRight
    }

    /** The castle of the head request of a team's queue, as a frame. */
    function HeadCastle(team: Team): set<object>
      reads this
    {
      if Queue(team) != [] && Queue(team)[0].castle != null then {Queue(team)[0].castle} else {}
    }

    /** The money of the castle of the head request, None when it has no castle. */
    function HeadMoney(team: Team): Option<real>
      reads this, HeadCastle(team)
    {
      if Queue(team) == [] || Queue(team)[0].castle == null then None else Some(Queue(team)[0].castle.money)
    }

    constructor(castleLeft: Castle, castleRight: Castle)
      requires castleLeft != castleRight
      ensures Valid()
      ensures this.castleLeft == castleLeft && this.castleRight == castleRight
      ensures troops == [] && lastDamageTime == map[] && attackZoneGraphics == {} && walkStopZoneGraphics == {}
      ensures spawnQueueLeft == [] && spawnQueueRight == []
    {
      this.castleLeft := castleLeft;
      this.castleRight := castleRight;
      troops := [];
      lastDamageTime := map[];
      attackZoneGraphics := {};
      walkStopZoneGraphics := {};
      spawnQueueLeft := [];
      spawnQueueRight := [];
    }

    method SetQueue(team: Team, q: seq<SpawnRequest>)
      modifies this
      ensures Queue(team) == q && Queue(team.Opponent()) == old(Queue(team.Opponent()))
      ensures troops == old(troops) && lastDamageTime == old(lastDamageTime)
      ensures attackZoneGraphics == old(attackZoneGraphics) && walkStopZoneGraphics == old(walkStopZoneGraphics)
    {
      if team == Left { spawnQueueLeft := q; } else { spawnQueueRight := q; }
    }

    /** Builds a troop of the named type at the team's spawn point, walking forward at
        its speed, and gives it its two graphics. An unknown name fails before anything
        changes. */
    method CreateTroop(team: Team, name: string) returns (id: Option<nat>)
      requires Valid()
      modifies this
      ensures Valid()
      ensures KindNamed(name).None? ==>
        id.None? && troops == old(troops) &&
        attackZoneGraphics == old(attackZoneGraphics) && walkStopZoneGraphics == old(walkStopZoneGraphics)
      ensures KindNamed(name).Some? ==>
        id == Some(old(|troops|)) &&
        troops == old(troops) + [NewTroop(team, KindNamed(name).value)] &&
        attackZoneGraphics == old(attackZoneGraphics) + {old(|troops|)} &&
        walkStopZoneGraphics == old(walkStopZoneGraphics) + {old(|troops|)}
      ensures lastDamageTime == old(lastDamageTime)
      ensures spawnQueueLeft == old(spawnQueueLeft) && spawnQueueRight == old(spawnQueueRight)
    {
      var kind := KindNamed(name);
      if kind.None? {
        return None;
      }
      var t := NewTroop(team, kind.value);
      id := Some(|troops|);
      attackZoneGraphics := attackZoneGraphics + {|troops|};
      walkStopZoneGraphics := walkStopZoneGraphics + {|troops|};
      troops := troops + [t];
      assert forall k :: 0 <= k < |old(troops)| ==> troops[k] == old(troops)[k];
    }

    /** One attempt to spawn the head of a team's queue: put off while the spawn point
        is occupied, stalled while the castle's money is negative, and otherwise the
        head troop is built and leaves the queue. */
    method TrySpawnNextTroop(team: Team) returns (outcome: SpawnOutcome)
      requires Valid()
      modifies this
      ensures Valid()
      ensures outcome == Attempt(old(Queue(team)), old(troops), team, old(HeadMoney(team)))
      ensures outcome.Spawned? ==>
        troops == old(troops) + [NewTroop(team, KindNamed(old(Queue(team))[0].troopType).value)] &&
        Queue(team) == old(Queue(team))[1..] &&
        attackZoneGraphics == old(attackZoneGraphics) + {outcome.troop} &&
        walkStopZoneGraphics == old(walkStopZoneGraphics) + {outcome.troop}
      ensures !outcome.Spawned? ==>
        troops == old(troops) && Queue(team) == old(Queue(team)) &&
        attackZoneGraphics == old(attackZoneGraphics) && walkStopZoneGraphics == old(walkStopZoneGraphics)
      ensures Queue(team.Opponent()) == old(Queue(team.Opponent())) && lastDamageTime == old(lastDamageTime)
    {
      var queue := Queue(team);
      if queue == [] {
        return QueueEmpty;
      }
      var clear := IsSpawnAreaClear(team);
      if !clear {
        return Blocked(RetryDelay);
      }
      var next := queue[0];
      if next.castle == null {
        return Crashed(MissingCastle);
      }
      if !(next.castle.money >= 0.0) {
        return Stalled;
      }
      var id := CreateTroop(team, next.troopType);
      if id.None? {
        return Crashed(UnknownTroopType);
      }
      SetQueue(team, queue[1..]);
      outcome := Spawned(id.value, if |queue| > 1 then Some(SpawnInterval) else None);
    }

    /** No active troop of the team stands within the safe distance of its spawn point. */
    method IsSpawnAreaClear(team: Team) returns (clear: bool)
      ensures clear == SpawnAreaClear(troops, team)
    {
      clear := true;
      var k := 0;
      while k < |troops|
        invariant 0 <= k <= |troops|
        invariant clear == forall m :: 0 <= m < k ==> !BlocksSpawn(troops[m], team)
      {
        var other := troops[k];
        if other.active && other.team == team {
          var dx, dy := other.x - SpawnX(team), other.y - GroundY;
          if dx * dx + dy * dy < SafeDistance * SafeDistance {
            clear := false;
          }
        }
        k := k + 1;
      }
    }

    /** Queues a request and, when it is the only one, attempts it at once. */
    method RequestTroopSpawn(team: Team, name: string, castle: Castle?) returns (attempt: Option<SpawnOutcome>)
      requires Valid()
      modifies this
      ensures Valid()
      ensures var request := SpawnRequest(team, name, castle, GetTroopCost(name));
        if old(Queue(team)) == [] then
          attempt.Some? &&
          attempt.value == Attempt([request], old(troops), team, if castle == null then None else Some(castle.money)) &&
          (attempt.value.Spawned? ==> Queue(team) == [] && troops == old(troops) + [NewTroop(team, KindNamed(name).value)]) &&
          (!attempt.value.Spawned? ==> Queue(team) == [request] && troops == old(troops))
        else
          attempt.None? && Queue(team) == old(Queue(team)) + [request] && troops == old(troops)
      ensures Queue(team.Opponent()) == old(Queue(team.Opponent())) && lastDamageTime == old(lastDamageTime)
    {
      var request := SpawnRequest(team, name, castle, GetTroopCost(name));
      SetQueue(team, Queue(team) + [request]);
      if |Queue(team)| == 1 {
        var outcome := TrySpawnNextTroop(team);
        attempt := Some(outcome);
      } else {
        attempt := None;
      }
    }

    /** The entry point of the spawn buttons, as written: the request carries no castle. */
    method SpawnTroop(team: Team, name: string) returns (attempt: Option<SpawnOutcome>)
      requires Valid()
      modifies this
      ensures Valid()
      ensures old(Queue(team)) == [] ==>
        attempt == Some(if SpawnAreaClear(old(troops), team) then Crashed(MissingCastle) else Blocked(50))
      ensures old(Queue(team)) != [] ==> attempt.None?
      ensures troops == old(troops) && Queue(team) == old(Queue(team)) + [SpawnRequest(team, name, null, GetTroopCost(name))]
      ensures Queue(team.Opponent()) == old(Queue(team.Opponent())) && lastDamageTime == old(lastDamageTime)
    {
      attempt := RequestTroopSpawn(team, name, null);
    }

    /** The entry point as evidently intended: the request carries the team's castle. */
    method SpawnTroopForCastle(team: Team, name: string) returns (attempt: Option<SpawnOutcome>)
      requires Valid()
      modifies this
      ensures Valid()
      ensures var castle := if team == Left then castleLeft else castleRight;
        var request := SpawnRequest(team, name, castle, GetTroopCost(name));
        old(Queue(team)) == [] ==>
          attempt == Some(Attempt([request], old(troops), team, Some(old(castle.money)))) &&
          (attempt.value.Spawned? ==> Queue(team) == [] && troops == old(troops) + [NewTroop(team, KindNamed(name).value)]) &&
          (!attempt.value.Spawned? ==> Queue(team) == [request] && troops == old(troops))
      ensures var castle := if team == Left then castleLeft else castleRight;
        old(Queue(team)) != [] ==>
          attempt.None? && troops == old(troops) &&
          Queue(team) == old(Queue(team)) + [SpawnRequest(team, name, castle, GetTroopCost(name))]
      ensures Queue(team.Opponent()) == old(Queue(team.Opponent())) && lastDamageTime == old(lastDamageTime)
    {
      var castle := if team == Left then castleLeft else castleRight;
      attempt := RequestTroopSpawn(team, name, castle);
    }

    /** The attacker strikes the target, with the effects of `Combat.Damaged`. */
    method Damage(attacker: nat, target: nat)
      requires castleLeft != castleRight && attacker < |troops| && target < |troops|
      modifies this, castleLeft, castleRight
      ensures World() == Combat.Damaged(old(World()), attacker, target)
      ensures spawnQueueLeft == old(spawnQueueLeft) && spawnQueueRight == old(spawnQueueRight)
    {
      var hit := troops[target].(hp := troops[target].hp - troops[attacker].Damage());
      troops := troops[target := hit];
      if hit.hp <= 0.0 {
        var castle := if troops[attacker].team == Left then castleLeft else castleRight;
        castle.money := castle.money + hit.Reward();
        attackZoneGraphics := attackZoneGraphics - {target};
        walkStopZoneGraphics := walkStopZoneGraphics - {target};
        troops := troops[target := hit.(active := false)];
      }
    }

    /** The per-frame pass at time `now`: every active troop in order looks at every
        other active troop and at the enemy castle, strikes when its cooldown allows,
        then stops or resumes walking. */
    method Update(now: int)
      requires Valid()
      modifies this, castleLeft, castleRight
      ensures Valid()
      ensures World() == Combat.Update(old(World()), now)
      ensures spawnQueueLeft == old(spawnQueueLeft) && spawnQueueRight == old(spawnQueueRight)
    {
      ghost var w0 := World();
      var n := |troops|;
      var i := 0;
      while i < n
        invariant 0 <= i <= n == |w0.troops|
        invariant World() == Combat.UpdateUpTo(w0, i, now)
        invariant Valid()
        invariant spawnQueueLeft == old(spawnQueueLeft) && spawnQueueRight == old(spawnQueueRight)
      {
        if troops[i].active {
          TroopTurn(i, now);
        }
        i := i + 1;
      }
    }

    /** Troop i's turn: the scan of the other troops, the castle check, the walking rule. */
    method TroopTurn(i: nat, now: int)
      requires Valid() && i < |troops| && troops[i].active
      modifies this, castleLeft, castleRight
      ensures Valid()
      ensures World() == Combat.TroopTurn(old(World()), i, now)
      ensures spawnQueueLeft == old(spawnQueueLeft) && spawnQueueRight == old(spawnQueueRight)
    {
      ghost var wi := World();
      var stop := ScanTroops(i, now);
      stop := CheckCastle(i, stop, now);
      Walk(i, stop);
      Combat.TurnFacts(wi, i, now);
    }

    /** Troop i looks at every other active troop in order: it notes whether one is within
        its walk-stop range, and strikes each enemy within its attack range while its
        cooldown allows. */
    method ScanTroops(i: nat, now: int) returns (stop: bool)
      requires castleLeft != castleRight && i < |troops|
      modifies this, castleLeft, castleRight
      ensures (World(), stop) == Combat.Scan(old(World()), i, |old(troops)|, now)
      ensures spawnQueueLeft == old(spawnQueueLeft) && spawnQueueRight == old(spawnQueueRight)
    {
      ghost var wi := World();
      var n := |troops|;
      stop := false;
      var j := 0;
      while j < n
        invariant 0 <= j <= n == |wi.troops|
        invariant (World(), stop) == Combat.Scan(wi, i, j, now)
        invariant spawnQueueLeft == old(spawnQueueLeft) && spawnQueueRight == old(spawnQueueRight)
      {
        if j != i && troops[j].active {
          var t, other := troops[i], troops[j];
          if IsInRange(t, other, t.WalkStopRange()) {
            stop := true;
          }
          if IsInRange(t, other, t.AttackRange()) && t.team != other.team {
            var last := if i in lastDamageTime then lastDamageTime[i] else 0;
            if now - last >= Combat.DamageDelay {
              Damage(i, j);
              lastDamageTime := lastDamageTime[i := now];
            }
          }
        }
        j := j + 1;
      }
    }

    /** Troop i looks at the enemy castle: it may stop for it and strike it. */
    method CheckCastle(i: nat, stop: bool, now: int) returns (stop': bool)
      requires castleLeft != castleRight && i < |troops|
      modifies this, castleLeft, castleRight
      ensures (World(), stop') == Combat.CastleCheck(old(World()), stop, i, now)
      ensures spawnQueueLeft == old(spawnQueueLeft) && spawnQueueRight == old(spawnQueueRight)
    {
      stop' := stop;
      var t := troops[i];
      var targetCastle := if t.team == Left then castleRight else castleLeft;
      if IsInRangeCastle(t, targetCastle.State(), t.WalkStopRange()) {
        stop' := true;
      }
      if IsInRangeCastle(t, targetCastle.State(), t.AttackRange()) {
        var last := if i in lastDamageTime then lastDamageTime[i] else 0;
        if now - last >= Combat.DamageDelay {
          targetCastle.health := targetCastle.health - t.CastleDamage();
          lastDamageTime := lastDamageTime[i := now];
        }
      }
    }

    /** The walking rule for troop i. */
    method Walk(i: nat, stop: bool)
      requires castleLeft != castleRight && i < |troops|
      modifies this
      ensures World() == Combat.Move(old(World()), i, stop)
      ensures spawnQueueLeft == old(spawnQueueLeft) && spawnQueueRight == old(spawnQueueRight)
    {
      if stop {
        troops := troops[i := troops[i].(vx := 0.0)];
      } else if troops[i].vx == 0.0 && troops[i].hp > 0.0 {
        var dir := if troops[i].team == Left then 1.0 else -1.0;
        troops := troops[i := troops[i].(vx := dir * troops[i].BaseSpeed())];
      }
    }
  }

  // ---------------------------------------------------------------------------
  // Scenarios on a fresh battle

  /** The spawn buttons' entry point passes no castle: on a fresh battle the first
      request fails when its money is read, stays at the head of the queue, and every
      later request only queues behind it, so no troop is ever built. */
  method MissingCastleScenario() returns (first: Option<SpawnOutcome>, second: Option<SpawnOutcome>, retry: SpawnOutcome, built: nat)
    ensures first == Some(Crashed(MissingCastle))
    ensures second.None?
    ensures retry == Crashed(MissingCastle)
    ensures built == 0
  {
    var left := new Castle(CastleLeftX, GroundY, InitialCastleHealth, 0.0);
    var right := new Castle(CastleRightX, GroundY, InitialCastleHealth, 0.0);
    var manager := new TroopManager(left, right);
    first := manager.SpawnTroop(Left, "MELEE");
    second := manager.SpawnTroop(Left, "TANK");
    retry := manager.TrySpawnNextTroop(Left);
    built := |manager.troops|;
  }

  /** With the team's castle passed along, the first request builds its troop at once;
      the next request finds that troop on the spawn point and is put off for 50 ms,
      while the other team spawns unhindered. */
  method CorrectedSpawnScenario() returns (first: Option<SpawnOutcome>, second: Option<SpawnOutcome>, other: Option<SpawnOutcome>, built: nat)
    ensures first == Some(Spawned(0, None))
    ensures second == Some(Blocked(50))
    ensures other == Some(Spawned(1, None))
    ensures built == 2
  {
    var left := new Castle(CastleLeftX, GroundY, InitialCastleHealth, 0.0);
    var right := new Castle(CastleRightX, GroundY, InitialCastleHealth, 0.0);
    var manager := new TroopManager(left, right);
    first := manager.SpawnTroopForCastle(Left, "MELEE");
    NewTroopBlocksItsSpawnPoint([], Left, Melee);
    assert [] + [NewTroop(Left, Melee)] == [NewTroop(Left, Melee)];
    second := manager.SpawnTroopForCastle(Left, "TANK");
    other := manager.SpawnTroopForCastle(Right, "RANGE");
    built := |manager.troops|;
  }
}
