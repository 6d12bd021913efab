/** The per-frame combat pass of the lane battle, as functions on a snapshot of
    everything the pass reads and writes. The pass visits every troop in order;
    an active troop looks at every other active troop (stop check, then attack
    check), then at the enemy castle, then decides whether to walk. A killed troop
    is destroyed at once, so the troops visited after it skip it. */
module Combat {
  import opened Troops
  import opened Targeting

  /** Everything the pass reads and writes: the troops (identified by their index),
      both castles, the per-troop time of the last hit, and which troops still own
      their two range-drawing graphics. */
  datatype World = World(
    troops: seq<Troop>,
    castleLeft: CastleState,
    castleRight: CastleState,
    lastDamageTime: map<nat, int>,
    attackZoneGraphics: set<nat>,
    walkStopZoneGraphics: set<nat>)

  /** The minimum time between two hits of one troop, in milliseconds. */
  const DamageDelay: int := 1000

  function Castle(w: World, team: Team): CastleState {
    if team == Left then w.castleLeft else w.castleRight
  }

  function WithCastle(w: World, team: Team, c: CastleState): World {
    if team == Left then w.(castleLeft := c) else w.(castleRight := c)
  }

  /** The time of the troop's last hit; 0 when it never hit. */
  function LastDamageTime(w: World, i: nat): int {
    if i in w.lastDamageTime then w.lastDamageTime[i] else 0
  }

  predicate CooldownElapsed(w: World, i: nat, now: int) {
    now - LastDamageTime(w, i) >= DamageDelay
  }

  // ---------------------------------------------------------------------------
  // Damage, death and reward

  /** The attacker strikes the target: the target loses the attacker's damage; if
      that leaves it at or below 0 hit points, the attacker's castle earns the
      target's reward, the target's graphics are released and it is destroyed. */
  function Damaged(w: World, attacker: nat, target: nat): (r: World)
    requires attacker < |w.troops| && target < |w.troops|
    ensures |r.troops| == |w.troops|
  {
    var hit := w.troops[target].(hp := w.troops[target].hp - w.troops[attacker].Damage());
    if hit.hp <= 0.0 then
      var team := w.troops[attacker].team;
      var own := Castle(w, team);
      WithCastle(w.(troops := w.troops[target := hit.(active := false)],
                    attackZoneGraphics := w.attackZoneGraphics - {target},
                    walkStopZoneGraphics := w.walkStopZoneGraphics - {target}),
                 team, own.(money := own.money + hit.Reward()))
    else
      w.(troops := w.troops[target := hit])
  }

  /** What one strike does, and that it does nothing else. */
  lemma DamageEffects(w: World, attacker: nat, target: nat)
    requires attacker < |w.troops| && target < |w.troops|
    ensures var r, a, t := Damaged(w, attacker, target), w.troops[attacker], w.troops[target];
      var killed := t.hp - a.Damage() <= 0.0;
      |r.troops| == |w.troops| &&
      r.troops[target] == t.(hp := t.hp - a.Damage(), active := t.active && !killed) &&
      (forall k :: 0 <= k < |w.troops| && k != target ==> r.troops[k] == w.troops[k]) &&
      Castle(r, a.team) == Castle(w, a.team).(money := Castle(w, a.team).money + (if killed then t.Reward() else 0.0)) &&
      Castle(r, a.team.Opponent()) == Castle(w, a.team.Opponent()) &&
      r.attackZoneGraphics == (if killed then w.attackZoneGraphics - {target} else w.attackZoneGraphics) &&
      r.walkStopZoneGraphics == (if killed then w.walkStopZoneGraphics - {target} else w.walkStopZoneGraphics) &&
      r.lastDamageTime == w.lastDamageTime
  {
  }

  /** A troop strikes an enemy troop and records the time. */
  function StrikeTroop(w: World, i: nat, j: nat, now: int): (r: World)
    requires i < |w.troops| && j < |w.troops|
    ensures |r.troops| == |w.troops|
  {
    var d := Damaged(w, i, j);
    d.(lastDamageTime := d.lastDamageTime[i := now])
  }

  /** A troop strikes the enemy castle and records the time; castle health has no floor. */
  function StrikeCastle(w: World, i: nat, now: int): (r: World)
    requires i < |w.troops|
    ensures |r.troops| == |w.troops|
  {
    var t := w.troops[i];
    var enemy := Castle(w, t.team.Opponent());
    WithCastle(w, t.team.Opponent(), enemy.(health := enemy.health - t.CastleDamage()))
      .(lastDamageTime := w.lastDamageTime[i := now])
  }

  // ---------------------------------------------------------------------------
  // The pass, step by step as the code runs it

  /** Troop i looks at troop j: the stop check, then the attack check. */
  function Visit(w: World, stop: bool, i: nat, j: nat, now: int): (r: (World, bool))
    requires i < |w.troops| && j < |w.troops|
    ensures |r.0.troops| == |w.troops|
  {
    if j == i || !w.troops[j].active then (w, stop)
    else
      var t, other := w.troops[i], w.troops[j];
      var stop' := stop || IsInRange(t, other, t.WalkStopRange());
      if IsInRange(t, other, t.AttackRange()) && t.team != other.team && CooldownElapsed(w, i, now)
      then (StrikeTroop(w, i, j, now), stop')
      else (w, stop')
  }

  /** Troop i after looking at troops 0 .. m-1. */
  function Scan(w: World, i: nat, m: nat, now: int): (r: (World, bool))
    requires i < |w.troops| && m <= |w.troops|
    ensures |r.0.troops| == |w.troops|
    decreases m
  {
    if m == 0 then (w, false)
    else
      var prev := Scan(w, i, m - 1, now);
      Visit(prev.0, prev.1, i, m - 1, now)
  }

  /** Troop i looks at the enemy castle. */
  function CastleCheck(w: World, stop: bool, i: nat, now: int): (r: (World, bool))
    requires i < |w.troops|
    ensures |r.0.troops| == |w.troops|
  {
    var t := w.troops[i];
    var enemy := Castle(w, t.team.Opponent());
    var stop' := stop || IsInRangeCastle(t, enemy, t.WalkStopRange());
    if IsInRangeCastle(t, enemy, t.AttackRange()) && CooldownElapsed(w, i, now)
    then (StrikeCastle(w, i, now), stop')
    else (w, stop')
  }

  /** The walking rule: stop when something is within the walk-stop range, otherwise
      resume at base speed only when standing still and alive. */
  function NewVelocity(t: Troop, stop: bool): real {
    if stop then 0.0
    else if t.vx == 0.0 && t.hp > 0.0 then t.team.Direction() * t.BaseSpeed()
    else t.vx
  }

  function Move(w: World, i: nat, stop: bool): (r: World)
    requires i < |w.troops|
    ensures |r.troops| == |w.troops|
  {
    w.(troops := w.troops[i := w.troops[i].(vx := NewVelocity(w.troops[i], stop))])
  }

  /** Troop i's turn in the pass. */
  function TroopTurn(w: World, i: nat, now: int): (r: World)
    requires i < |w.troops|
    ensures |r.troops| == |w.troops|
  {
    if !w.troops[i].active then w
    else
      var scanned := Scan(w, i, |w.troops|, now);
      var checked := CastleCheck(scanned.0, scanned.1, i, now);
      Move(checked.0, i, checked.1)
  }

  /** The world after the turns of troops 0 .. n-1. */
  function UpdateUpTo(w: World, n: nat, now: int): (r: World)
    requires n <= |w.troops|
    ensures |r.troops| == |w.troops|
    decreases n
  {
    if n == 0 then w else TroopTurn(UpdateUpTo(w, n - 1, now), n - 1, now)
  }

  /** One whole pass at time `now`. */
  function Update(w: World, now: int): (r: World)
    ensures |r.troops| == |w.troops|
  {
    UpdateUpTo(w, |w.troops|, now)
  }

  // ---------------------------------------------------------------------------
  // One turn, stated declaratively

  /** Troop j is an enemy that troop i may strike. */
  ghost predicate IsTarget(w: World, i: nat, j: nat) {
    i < |w.troops| && j < |w.troops| && j != i && w.troops[j].active &&
    w.troops[j].team != w.troops[i].team &&
    IsInRange(w.troops[i], w.troops[j], w.troops[i].AttackRange())
  }

  /** Troop j is the first enemy, in the pass's order, that troop i may strike. */
  ghost predicate FirstTarget(w: World, i: nat, j: nat) {
    IsTarget(w, i, j) && forall k: nat :: k < j ==> !IsTarget(w, i, k)
  }

  /** Troop k, of either team, makes troop i stop. */
  ghost predicate StopsFor(w: World, i: nat, k: nat) {
    i < |w.troops| && k < |w.troops| && k != i && w.troops[k].active &&
    IsInRange(w.troops[i], w.troops[k], w.troops[i].WalkStopRange())
  }

  /** Some other active troop, or the enemy castle, is within troop i's walk-stop range. */
  ghost predicate WalkBlocked(w: World, i: nat)
    requires i < |w.troops|
  {
    (exists k: nat :: StopsFor(w, i, k)) ||
    IsInRangeCastle(w.troops[i], Castle(w, w.troops[i].team.Opponent()), w.troops[i].WalkStopRange())
  }

  /** Troop i's turn: at most one strike, on the first enemy troop in range if there is
      one, otherwise on the enemy castle if it is in range, and only once the cooldown
      has elapsed; then the walking rule, on what was in range when the turn began. */
  ghost function TurnSpec(w: World, i: nat, now: int): World
    requires i < |w.troops|
  {
    if !w.troops[i].active then w else Move(Struck(w, i, now), i, WalkBlocked(w, i))
  }

  /** The strike of troop i's turn, if any. */
  ghost function Struck(w: World, i: nat, now: int): World
    requires i < |w.troops|
  {
    var t := w.troops[i];
    if !CooldownElapsed(w, i, now) then w
    else if exists j: nat :: FirstTarget(w, i, j) then
      var j: nat :| FirstTarget(w, i, j); StrikeTroop(w, i, j, now)
    else if IsInRangeCastle(t, Castle(w, t.team.Opponent()), t.AttackRange()) then StrikeCastle(w, i, now)
    else w
  }

  /** Scanning changes only troops already looked at, never troop i itself. */
  lemma {:induction false} ScanFrame(w: World, i: nat, m: nat, now: int)
    requires i < |w.troops| && m <= |w.troops|
    ensures forall k :: m <= k < |w.troops| ==> Scan(w, i, m, now).0.troops[k] == w.troops[k]
    ensures Scan(w, i, m, now).0.troops[i] == w.troops[i]
    ensures Castle(Scan(w, i, m, now).0, w.troops[i].team.Opponent()) == Castle(w, w.troops[i].team.Opponent())
    decreases m
  {
    if m > 0 {
      ScanFrame(w, i, m - 1, now);
    }
  }

  /** Without a strike so far, scanning leaves the world as it was. */
  lemma {:induction false} ScanWithoutTarget(w: World, i: nat, m: nat, now: int)
    requires i < |w.troops| && m <= |w.troops|
    requires !CooldownElapsed(w, i, now) || forall j: nat :: j < m ==> !IsTarget(w, i, j)
    ensures Scan(w, i, m, now).0 == w
    decreases m
  {
    if m > 0 {
      ScanWithoutTarget(w, i, m - 1, now);
      assert !CooldownElapsed(w, i, now) || !IsTarget(w, i, m - 1);
    }
  }

  /** Once the first target has been struck, the rest of the scan changes nothing. */
  lemma {:induction false} ScanStrikesFirstTarget(w: World, i: nat, j: nat, m: nat, now: int)
    requires i < |w.troops| && j < m <= |w.troops|
    requires CooldownElapsed(w, i, now) && FirstTarget(w, i, j)
    ensures Scan(w, i, m, now).0 == StrikeTroop(w, i, j, now)
    decreases m
  {
    if m == j + 1 {
      ScanWithoutTarget(w, i, j, now);
    } else {
      ScanStrikesFirstTarget(w, i, j, m - 1, now);
      var s := StrikeTroop(w, i, j, now);
      assert LastDamageTime(s, i) == now;
    }
  }

  /** The stop flag after looking at troops 0 .. m-1. */
  lemma {:induction false} ScanStopFlag(w: World, i: nat, m: nat, now: int)
    requires i < |w.troops| && m <= |w.troops|
    ensures Scan(w, i, m, now).1 <==> exists k: nat :: k < m && StopsFor(w, i, k)
    decreases m
  {
    if m > 0 {
      ScanStopFlag(w, i, m - 1, now);
      ScanFrame(w, i, m - 1, now);
      if StopsFor(w, i, m - 1) {
        assert exists k: nat :: k < m && StopsFor(w, i, k);
      }
      if exists k: nat :: k < m && StopsFor(w, i, k) {
        var k: nat :| k < m && StopsFor(w, i, k);
        assert k < m - 1 || k == m - 1;
      }
    }
  }

  /** The castle check: the stop flag is raised when the enemy castle is within the
      walk-stop range; the castle is struck, losing exactly the attacker's castle damage,
      only when it is within the attack range and the cooldown has elapsed, and the time
      is then recorded; troops, the own castle and the graphics never change. */
  lemma CastleCheckEffects(w: World, stop: bool, i: nat, now: int)
    requires i < |w.troops|
    ensures var r, t := CastleCheck(w, stop, i, now), w.troops[i];
      var enemy, strikes := Castle(w, t.team.Opponent()), IsInRangeCastle(t, Castle(w, t.team.Opponent()), t.AttackRange()) && CooldownElapsed(w, i, now);
      (r.1 <==> stop || IsInRangeCastle(t, enemy, t.WalkStopRange())) &&
      r.0.troops == w.troops && Castle(r.0, t.team) == Castle(w, t.team) &&
      r.0.attackZoneGraphics == w.attackZoneGraphics && r.0.walkStopZoneGraphics == w.walkStopZoneGraphics &&
      (strikes ==> Castle(r.0, t.team.Opponent()) == enemy.(health := enemy.health - t.CastleDamage()) &&
                   Castle(r.0, t.team.Opponent()).health < enemy.health &&
                   r.0.lastDamageTime == w.lastDamageTime[i := now]) &&
      (!strikes ==> r.0 == w)
  {
    CatalogIsPositive(w.troops[i].kind);
  }

  /** The code's turn is the declarative turn. */
  lemma TroopTurnMeetsSpec(w: World, i: nat, now: int)
    requires i < |w.troops|
    ensures TroopTurn(w, i, now) == TurnSpec(w, i, now)
  {
    var t := w.troops[i];
    if t.active {
      var n := |w.troops|;
      var scanned := Scan(w, i, n, now);
      ScanStopFlag(w, i, n, now);
      ScanFrame(w, i, n, now);
      var enemy := Castle(w, t.team.Opponent());
      if CooldownElapsed(w, i, now) && exists j: nat :: FirstTarget(w, i, j) {
        var j: nat :| FirstTarget(w, i, j);
        ScanStrikesFirstTarget(w, i, j, n, now);
        assert forall j': nat :: FirstTarget(w, i, j') ==> j' == j;
        assert LastDamageTime(scanned.0, i) == now;
      } else {
        if CooldownElapsed(w, i, now) {
          forall j: nat | j < n ensures !IsTarget(w, i, j) {
            if IsTarget(w, i, j) { FirstTargetExists(w, i, j); }
          }
        }
        ScanWithoutTarget(w, i, n, now);
      }
    }
  }

  /** The walking rule of a turn is decided on what was in range when the turn began:
      an active troop stops exactly when another active troop or the enemy castle is
      within its walk-stop range, and otherwise keeps a non-zero velocity. */
  lemma TurnMovement(w: World, i: nat, now: int)
    requires i < |w.troops| && w.troops[i].active
    ensures var t, r := w.troops[i], TroopTurn(w, i, now).troops[i];
      (r.vx == 0.0 <==> WalkBlocked(w, i) || (t.vx == 0.0 && t.hp <= 0.0)) &&
      (!WalkBlocked(w, i) && t.vx != 0.0 ==> r.vx == t.vx) &&
      (!WalkBlocked(w, i) && t.vx == 0.0 && t.hp > 0.0 ==> r.vx == t.team.Direction() * t.BaseSpeed()) &&
      r.(vx := t.vx) == t
  {
    TroopTurnMeetsSpec(w, i, now);
    StruckEffects(w, i, now);
    CatalogIsPositive(w.troops[i].kind);
  }

  /** Among the targets, one comes first. */
  lemma {:induction false} FirstTargetExists(w: World, i: nat, j: nat)
    requires IsTarget(w, i, j)
    ensures exists f: nat :: f <= j && FirstTarget(w, i, f)
    decreases j
  {
    if !FirstTarget(w, i, j) {
      var k: nat :| k < j && IsTarget(w, i, k);
      FirstTargetExists(w, i, k);
    }
  }

  // ---------------------------------------------------------------------------
  // What a whole pass preserves

  /** `b` is a later state of troop `a` within a pass: the same troop at the same
      place, no hit points gained, never revived, and deactivated only by death. */
  predicate Later(a: Troop, b: Troop) {
    a.kind == b.kind && a.team == b.team && a.x == b.x && a.y == b.y &&
    b.hp <= a.hp && (b.active ==> a.active) && (a.active && !b.active ==> b.hp <= 0.0)
  }

  /** Castle `b` is a later state of castle `a`: in place, no health gained, no money lost. */
  predicate LaterCastle(a: CastleState, b: CastleState) {
    a.x == b.x && a.y == b.y && b.health <= a.health && b.money >= a.money
  }

  ghost predicate Progress(w: World, r: World) {
    |r.troops| == |w.troops| &&
    (forall k :: 0 <= k < |w.troops| ==> Later(w.troops[k], r.troops[k])) &&
    LaterCastle(w.castleLeft, r.castleLeft) && LaterCastle(w.castleRight, r.castleRight)
  }

  /** Each troop owns its two graphics exactly while it is active. */
  ghost predicate GraphicsOfActive(w: World) {
    (forall k: nat :: k in w.attackZoneGraphics <==> k < |w.troops| && w.troops[k].active) &&
    (forall k: nat :: k in w.walkStopZoneGraphics <==> k < |w.troops| && w.troops[k].active)
  }

  /** The cooldown map only has entries for troops of the world. */
  predicate CooldownsOfTroops(w: World) {
    forall k :: k in w.lastDamageTime ==> k < |w.troops|
  }

  /** The reward for troop `a` if it died on the way to state `b`, credited to `team`
      when it belonged to the other team. */
  function KillReward(a: Troop, b: Troop, team: Team): real {
    if a.active && !b.active && a.team == team.Opponent() then a.Reward() else 0.0
  }

  /** The rewards `team` earns for the deaths among troops 0 .. n-1. */
  function KillRewards(before: seq<Troop>, after: seq<Troop>, team: Team, n: nat): real
    requires n <= |before| && n <= |after|
    decreases n
  {
    if n == 0 then 0.0 else KillRewards(before, after, team, n - 1) + KillReward(before[n - 1], after[n - 1], team)
  }

  /** When only troop j may change its activity, only its death is rewarded. */
  lemma {:induction false} KillRewardsOfOne(before: seq<Troop>, after: seq<Troop>, team: Team, n: nat, j: nat)
    requires n <= |before| && n <= |after|
    requires forall k :: 0 <= k < n && k != j ==> before[k].active == after[k].active
    ensures KillRewards(before, after, team, n) == if j < n then KillReward(before[j], after[j], team) else 0.0
    decreases n
  {
    if n > 0 {
      KillRewardsOfOne(before, after, team, n - 1, j);
    }
  }

  /** The rewards over two successive stretches add up. */
  lemma {:induction false} KillRewardsAdd(a: seq<Troop>, b: seq<Troop>, c: seq<Troop>, team: Team, n: nat)
    requires n <= |a| && n <= |b| && n <= |c|
    requires forall k :: 0 <= k < n ==> Later(a[k], b[k]) && Later(b[k], c[k])
    ensures KillRewards(a, c, team, n) == KillRewards(a, b, team, n) + KillRewards(b, c, team, n)
    decreases n
  {
    if n > 0 {
      KillRewardsAdd(a, b, c, team, n - 1);
    }
  }

  /** The effects one turn may have on the world, relative to troop i. */
  ghost predicate TurnEffects(w: World, r: World, i: nat, now: int)
    requires i < |w.troops|
  {
    Progress(w, r) &&
    (forall k :: 0 <= k < |w.troops| && k != i ==> r.troops[k].vx == w.troops[k].vx) &&
    (r.lastDamageTime == w.lastDamageTime ||
     (r.lastDamageTime == w.lastDamageTime[i := now] && CooldownElapsed(w, i, now))) &&
    (GraphicsOfActive(w) ==> GraphicsOfActive(r)) &&
    (forall team :: Castle(r, team).money == Castle(w, team).money + KillRewards(w.troops, r.troops, team, |w.troops|))
  }

  lemma NoKills(w: World, r: World)
    requires |r.troops| == |w.troops|
    requires forall k :: 0 <= k < |w.troops| ==> r.troops[k].active == w.troops[k].active
    ensures forall team :: KillRewards(w.troops, r.troops, team, |w.troops|) == 0.0
  {
    forall team ensures KillRewards(w.troops, r.troops, team, |w.troops|) == 0.0 {
      KillRewardsOfOne(w.troops, r.troops, team, |w.troops|, |w.troops|);
    }
  }

  lemma StrikeTroopEffects(w: World, i: nat, j: nat, now: int)
    requires IsTarget(w, i, j) && CooldownElapsed(w, i, now)
    ensures TurnEffects(w, StrikeTroop(w, i, j, now), i, now)
    ensures StrikeTroop(w, i, j, now).troops[i] == w.troops[i]
  {
    CatalogIsPositive(w.troops[i].kind);
    DamageEffects(w, i, j);
    var r := StrikeTroop(w, i, j, now);
    forall team ensures Castle(r, team).money == Castle(w, team).money + KillRewards(w.troops, r.troops, team, |w.troops|) {
      KillRewardsOfOne(w.troops, r.troops, team, |w.troops|, j);
    }
  }

  lemma StrikeCastleEffects(w: World, i: nat, now: int)
    requires i < |w.troops| && CooldownElapsed(w, i, now)
    ensures TurnEffects(w, StrikeCastle(w, i, now), i, now)
    ensures StrikeCastle(w, i, now).troops[i] == w.troops[i]
  {
    CatalogIsPositive(w.troops[i].kind);
    NoKills(w, StrikeCastle(w, i, now));
  }

  lemma StruckEffects(w: World, i: nat, now: int)
    requires i < |w.troops|
    ensures TurnEffects(w, Struck(w, i, now), i, now)
    ensures Struck(w, i, now).troops[i] == w.troops[i]
  {
    var t := w.troops[i];
    if CooldownElapsed(w, i, now) && exists j: nat :: FirstTarget(w, i, j) {
      var j: nat :| FirstTarget(w, i, j);
      assert forall j': nat :: FirstTarget(w, i, j') ==> j' == j;
      StrikeTroopEffects(w, i, j, now);
    } else if CooldownElapsed(w, i, now) && IsInRangeCastle(t, Castle(w, t.team.Opponent()), t.AttackRange()) {
      StrikeCastleEffects(w, i, now);
    } else {
      NoKills(w, w);
    }
  }

  /** Moving changes troop i's velocity and nothing else. */
  lemma MoveKeepsEffects(w: World, s: World, i: nat, stop: bool, now: int)
    requires i < |w.troops| && TurnEffects(w, s, i, now)
    ensures TurnEffects(w, Move(s, i, stop), i, now)
  {
    var r := Move(s, i, stop);
    assert forall k :: 0 <= k < |w.troops| ==> r.troops[k].active == s.troops[k].active;
    forall team ensures KillRewards(w.troops, r.troops, team, |w.troops|) == KillRewards(w.troops, s.troops, team, |w.troops|) {
      KillRewardsSameActivity(w.troops, s.troops, r.troops, team, |w.troops|);
    }
  }

  lemma {:induction false} KillRewardsSameActivity(a: seq<Troop>, b: seq<Troop>, c: seq<Troop>, team: Team, n: nat)
    requires n <= |a| && n <= |b| && n <= |c|
    requires forall k :: 0 <= k < n ==> b[k].active == c[k].active
    ensures KillRewards(a, b, team, n) == KillRewards(a, c, team, n)
    decreases n
  {
    if n > 0 {
      KillRewardsSameActivity(a, b, c, team, n - 1);
    }
  }

  /** What one turn changes: only troop i's velocity besides the effects of at most one
      strike, which happens only once the cooldown has elapsed and records the time. */
  lemma TurnFacts(w: World, i: nat, now: int)
    requires i < |w.troops|
    ensures TurnEffects(w, TroopTurn(w, i, now), i, now)
  {
    TroopTurnMeetsSpec(w, i, now);
    if w.troops[i].active {
      StruckEffects(w, i, now);
      MoveKeepsEffects(w, Struck(w, i, now), i, WalkBlocked(w, i), now);
    } else {
      NoKills(w, w);
    }
  }

  /** Over a whole pass: troops keep their identity and place, lose hit points only,
      are deactivated only by death and never come back; castles lose health only and
      gain money only, and each castle's money grows by exactly the rewards of the
      enemy troops that died in the pass; every troop that struck had waited out its
      cooldown, and struck at most once; the graphics follow the active troops. */
  lemma {:induction false} UpdateUpToFacts(w: World, n: nat, now: int)
    requires n <= |w.troops|
    ensures var r := UpdateUpTo(w, n, now);
      Progress(w, r) &&
      (forall k: nat :: n <= k ==> LastDamageTime(r, k) == LastDamageTime(w, k)) &&
      (forall k: nat :: LastDamageTime(r, k) == LastDamageTime(w, k) ||
                        (LastDamageTime(r, k) == now && CooldownElapsed(w, k, now))) &&
      (GraphicsOfActive(w) ==> GraphicsOfActive(r)) &&
      (forall team :: Castle(r, team).money == Castle(w, team).money + KillRewards(w.troops, r.troops, team, |w.troops|))
    decreases n
  {
    if n == 0 {
      forall team ensures KillRewards(w.troops, w.troops, team, |w.troops|) == 0.0 {
        KillRewardsOfOne(w.troops, w.troops, team, |w.troops|, |w.troops|);
      }
    } else {
      UpdateUpToFacts(w, n - 1, now);
      var mid := UpdateUpTo(w, n - 1, now);
      var r := UpdateUpTo(w, n, now);
      TurnFacts(mid, n - 1, now);
      assert TurnEffects(mid, r, n - 1, now);
      forall team ensures Castle(r, team).money == Castle(w, team).money + KillRewards(w.troops, r.troops, team, |w.troops|) {
        KillRewardsAdd(w.troops, mid.troops, r.troops, team, |w.troops|);
      }
      forall k: nat ensures LastDamageTime(r, k) == LastDamageTime(w, k) ||
                            (LastDamageTime(r, k) == now && CooldownElapsed(w, k, now)) {
        if k != n - 1 {
          assert LastDamageTime(r, k) == LastDamageTime(mid, k);
        }
      }
    }
  }

  /** The pass records hit times only for troops of the world. */
  lemma {:induction false} UpdateUpToKeepsCooldowns(w: World, n: nat, now: int)
    requires n <= |w.troops| && CooldownsOfTroops(w)
    ensures CooldownsOfTroops(UpdateUpTo(w, n, now))
    decreases n
  {
    if n > 0 {
      UpdateUpToKeepsCooldowns(w, n - 1, now);
      TurnFacts(UpdateUpTo(w, n - 1, now), n - 1, now);
    }
  }

  lemma UpdateFacts(w: World, now: int)
    ensures var r := Update(w, now);
      Progress(w, r) &&
      (forall k: nat :: LastDamageTime(r, k) == LastDamageTime(w, k) ||
                        (LastDamageTime(r, k) == now && now - LastDamageTime(w, k) >= DamageDelay)) &&
      (GraphicsOfActive(w) ==> GraphicsOfActive(r)) &&
      (CooldownsOfTroops(w) ==> CooldownsOfTroops(r)) &&
      Castle(r, Left).money == Castle(w, Left).money + KillRewards(w.troops, r.troops, Left, |w.troops|) &&
      Castle(r, Right).money == Castle(w, Right).money + KillRewards(w.troops, r.troops, Right, |w.troops|)
  {
    UpdateUpToFacts(w, |w.troops|, now);
    if CooldownsOfTroops(w) {
      UpdateUpToKeepsCooldowns(w, |w.troops|, now);
    }
  }
}
