# Lane battle, password strength and Pong, in Dafny

This project models the game logic of the Transcendance front end and of its
lane-battle prototype, and proves properties of that model.

- **Lane battle** (`test-game/TroopManager.js`). Two castles face each other on a
  road, and each team spawns troops from a catalog of three types.
  - A per-team FIFO queue spawns troops one at a time, and only while the
    team's spawn point is clear.
  - Every frame, each active troop does three things in order:
    1. It looks at every other active troop. It stops for any troop within its
       walk-stop range, and strikes any enemy within its attack range when its
       1000 ms cooldown allows.
    2. It does the same with the enemy castle.
    3. It stops, or walks again at base speed.
  - A troop killed by a strike is destroyed at once, and its killer's castle earns
    the troop's reward.
  - Modules:
    - `Troops` (`troops.dfy`): the catalog and the entities.
    - `Targeting` (`targeting.dfy`): the range tests and spawn clearance.
    - `Combat` (`combat.dfy`): the pass as functions over a snapshot `World`,
      with a declarative statement of one troop's turn and the invariants of a
      whole pass.
    - `Manager` (`troop_manager.dfy`): the `TroopManager` and `Castle` classes.
      Their methods update fields in place and are proved against the `Combat`
      functions and the spawn decision `Attempt`.
- **Password strength** (`frontend/src/scripts/password-check.ts`, module
  `PasswordCheck`). A password is classified by these tests, in this order:
  its length, a list of common fragments, then how many of the four character
  classes it uses.
- **Pong** (`frontend/src/components/games/pong/PongGame.tsx`, module `Pong`).
  - The per-frame state update: ball advance, wall and paddle bounces, the
    computer paddle following the ball, and scoring.
  - The mouse-driven player paddle.
  - The start, stop and reset buttons.

Real-number arithmetic replaces the source's floating point:
- The distance test `sqrt(dx² + dy²) > range` becomes a comparison of squares.
  `Targeting.DistanceGate` proves the two are equivalent.
- The `atan2` sector test becomes a test on the signs of dx and dy.
  `Targeting.InSectorMatchesBearing` proves it agrees with the sector comparison
  for every angle `atan2` can return.
- The clock (`Date.now()`) becomes a parameter `now`, one value per pass.
- Phaser's `delayedCall` timers become outcome values that carry the requested
  delay: `Blocked(50)`, and `Spawned(_, Some(500))`.

These behaviours of the code are modelled as written, although the comment on
line 16 suggests otherwise for the first:
- The comment on the catalog's walk-stop range (`test-game/TroopManager.js:16`) calls
  it larger than the attack range. The catalog sets it to 30 against attack ranges of
  40, 50 and 150, so a troop strikes while it still walks
  (`Troops.WalkStopBelowAttackRange`).
- A killed troop is destroyed at once (line 460). Troops visited later in the same
  pass skip it (lines 203 and 264): nothing is deferred to the end of the frame.
- Spawning never deducts the cost (line 128). The money check only compares money
  with 0.

## Model

| member | source | states |
|---|---|---|
| PasswordCheck.CheckPasswordStrength | frontend/src/scripts/password-check.ts:20-46 | Short exactly when shorter than 7 characters, whatever the content; Common exactly when long enough and it starts with "passw" or contains one of the nine other fragments anywhere; otherwise Weak, Ok or Strong exactly when fewer than 3, exactly 3 or all 4 character classes are used |
| PasswordCheck.ClassCount | frontend/src/scripts/password-check.ts:23-27 | the four successive tests count exactly the set of character classes the password uses, so the count is at most 4 |
| PasswordCheck.CommonFragments | frontend/src/scripts/password-check.ts:14-18 | `IsPasswordCommon` holds for any of the nine floating fragments wherever it occurs and for "passw" at the start; "passw" elsewhere is matched only at the start, so for example "xpassw" is not common |
| PasswordCheck.CountAmongIsCardinality | frontend/src/scripts/password-check.ts:23-27 | over distinct classes, one increment per successful test equals the number of classes used |
| Pong.Step | frontend/src/components/games/pong/PongGame.tsx:32-97 | the ball moves by exactly (dx, dy); dy flips exactly at the walls, dx exactly inside a paddle band; the computer paddle stays in [0, 320], does not move inside the ±5 dead zone, and otherwise moves 3 toward the ball centre or stops at the edge it reaches; passing the left edge adds one to the computer's score and serves (400, 200, 4, 3), passing the right edge adds one to the player's and serves (400, 200, -4, 3); the player paddle and the running flag are unchanged |
| Pong.TrackBall | frontend/src/components/games/pong/PongGame.tsx:66-75 | a paddle on the canvas stays on it and moves at most 3; inside the ±5 dead zone it stays; with the ball centre more than 5 below its centre it moves down by 3 or to 320, and strictly down unless already there; symmetrically up by 3 or to 0 |
| Pong.GameLoopUpdate | frontend/src/components/games/pong/PongGame.tsx:32-97 | the field-by-field updater computes exactly `Step` |
| Pong.FramesKeepPaddlesInBounds | frontend/src/components/games/pong/PongGame.tsx:66-75 | paddles that start on the canvas stay on it for any number of frames |
| Pong.FramesScoreAtMostOnePerFrame | frontend/src/components/games/pong/PongGame.tsx:77-94 | scores never decrease and grow by at most one point per frame in total |
| Pong.PausedGameIsFrozen | frontend/src/components/games/pong/PongGame.tsx:29-30 | while the game is not running, frames change nothing |
| Pong.HandleMouseMove | frontend/src/components/games/pong/PongGame.tsx:157-171 | ignored while paused; otherwise only the player paddle changes, centred on the mouse and clamped to [0, 320] |
| Pong.StartGame | frontend/src/components/games/pong/PongGame.tsx:173-175 | only the running flag changes, to true |
| Pong.StopGame | frontend/src/components/games/pong/PongGame.tsx:177-179 | only the running flag changes, to false |
| Pong.ResetGame | frontend/src/components/games/pong/PongGame.tsx:181-189 | ball (400, 200, 4, 3), both paddles at 150, scores 0, paused |
| Pong.ResetIsInitial | frontend/src/components/games/pong/PongGame.tsx:12-18 | reset gives back the initial state, whose computer paddle is on the canvas |
| Troops.GetTroopCost | test-game/TroopManager.js:194-197 | the catalog cost of a known type, which is positive, and 0 for an unknown name |
| Troops.NewTroop | test-game/TroopManager.js:148-186 | a new troop of the requested kind stands at its team's spawn point (128 or 1152, 630), has its type's hit points, is active, faces its team and walks forward at its type's speed |
| Troops.CatalogNames | test-game/TroopManager.js:2-46 | `KindNamed`, the catalog lookup, finds each kind under its upper-case key and nothing under any other name; each type's key is the lower-case form of its name |
| Troops.CatalogIsPositive | test-game/TroopManager.js:2-46 | every stat in `Stats`, the catalog, that drives combat is positive |
| Troops.WalkStopBelowAttackRange | test-game/TroopManager.js:2-46 | every type's walk-stop range is below its attack range |
| Targeting.DistanceGate | test-game/TroopManager.js:349-361 | the squared comparison passes exactly when the distance does not exceed the range |
| Targeting.RangeBoundaryIsInclusive | test-game/TroopManager.js:357-361 | a target straight ahead at exactly the range is in range |
| Targeting.InSectorMatchesBearing | test-game/TroopManager.js:363-383 | the sign test agrees with the normalised-degree sector comparison of both facings for every bearing, perpendicular bearings included, and a coincident point counts only for the left-facing test |
| Targeting.IsInRangeMatchesSource | test-game/TroopManager.js:324-384 | `IsInRange` accepts exactly when the Euclidean distance to the target's anchor does not exceed the range and the normalised arc-tangent bearing to it lies in the attacker's sector; the anchor is the target's position, or for a teammate its position shifted back by its full body width |
| Targeting.IsInRangeCastleMatchesSource | test-game/TroopManager.js:386-435 | `IsInRangeCastle` accepts exactly when the distance to the castle's position shifted 64 toward the attacker's side does not exceed the range and the bearing to it lies in the attacker's sector |
| Targeting.SafeDistanceGate | test-game/TroopManager.js:77-91 | a troop blocks its team's spawn point exactly when it is active, of that team, and strictly closer than 50 |
| Targeting.OnlyActiveTeammatesBlock | test-game/TroopManager.js:83-90 | troops of the other team and inactive troops never change the clearance |
| Targeting.NewTroopBlocksItsSpawnPoint | test-game/TroopManager.js:77-91 | a troop just created blocks its own team's spawn point and not the other team's |
| Combat.DamageEffects | test-game/TroopManager.js:437-462 | `Damaged`: a strike lowers the target's hit points by exactly the attacker's damage; at 0 or below, the target becomes inactive, loses both graphics and the attacker's own castle gains exactly its reward; nothing else changes |
| Combat.ScanStopFlag | test-game/TroopManager.js:258-288 | the stop flag after `Scan` is set exactly when some other active troop, of either team, is within the walk-stop range |
| Combat.CastleCheckEffects | test-game/TroopManager.js:290-309 | `CastleCheck` raises the stop flag exactly when the enemy castle is within the walk-stop range; it strikes the castle, lowering its health by exactly the attacker's castle damage and recording the time, exactly when the castle is within the attack range and the cooldown has elapsed, and otherwise changes nothing |
| Combat.ScanStrikesFirstTarget | test-game/TroopManager.js:262-288 | once the cooldown allows, the scan strikes the first enemy in range and no other |
| Combat.ScanWithoutTarget | test-game/TroopManager.js:262-288 | with no enemy in range, or the cooldown running, the scan changes nothing |
| Combat.ScanFrame | test-game/TroopManager.js:262-288 | the scan changes only troops already looked at, never the scanning troop or the enemy castle |
| Combat.TroopTurnMeetsSpec | test-game/TroopManager.js:201-321 | `TroopTurn`, the code's turn, strikes at most once: the first enemy troop in range if any, otherwise the enemy castle if in range, and only after the cooldown; then the walking rule (`Move`) is applied on what was in range at the start of the turn |
| Combat.TurnMovement | test-game/TroopManager.js:311-320 | the velocity becomes 0 exactly when something is within the walk-stop range (or the troop stands still at no hit points); a moving troop keeps its velocity, a standing troop with hit points walks again at ± base speed; nothing else about the troop changes |
| Combat.TurnFacts | test-game/TroopManager.js:257-321 | one turn only lowers hit points, kills only at 0 or below, lowers castle health, credits exactly the rewards of the enemies killed, changes no other troop's velocity, keeps graphics tied to active troops, and records a hit time only when the cooldown had elapsed |
| Combat.UpdateUpToFacts | test-game/TroopManager.js:199-322 | after the first n turns of a pass: the same facts as for one turn, and hit times of troops not yet visited unchanged |
| Combat.UpdateUpToKeepsCooldowns | test-game/TroopManager.js:277-307 | the pass records hit times only for its own troops |
| Combat.UpdateFacts | test-game/TroopManager.js:199-322 | over a whole pass (`Update`): troops keep identity and place, never gain hit points, die only at 0 or below and never come back; castles never gain health nor lose money; each castle gains exactly the rewards of the enemy troops killed; every hit time recorded is `now` with at least 1000 ms since the previous one |
| Manager.AttemptSpawnsExactly | test-game/TroopManager.js:114-146 | a spawn attempt builds a troop exactly when the queue is not empty, the spawn point is clear, the head's castle exists with money at least 0 and its type is known; the next attempt is scheduled after 500 ms exactly when requests remain; an occupied spawn point puts the attempt off by 50 ms |
| Manager.AttemptIgnoresOthers | test-game/TroopManager.js:77-91 | troops of the other team and dead troops never change whether an attempt spawns or is put off |
| Manager.SpawnBlocksNextAttempt | test-game/TroopManager.js:114-146 | right after a spawn, the team's next attempt is put off by 50 ms, or finds the queue empty; the other team's attempts decide as before |
| Manager.TroopManager.constructor | test-game/TroopManager.js:50-66 | a manager starts with no troops, empty maps and empty queues |
| Manager.TroopManager.IsSpawnAreaClear | test-game/TroopManager.js:77-91 | the loop over the troops computes `SpawnAreaClear` |
| Manager.TroopManager.CreateTroop | test-game/TroopManager.js:148-186 | a known type appends `NewTroop` under the next index and gives it both graphics; an unknown type fails and changes nothing |
| Manager.TroopManager.TrySpawnNextTroop | test-game/TroopManager.js:114-146 | the outcome is `Attempt` of the queue, troops and head castle money; a spawn appends the head's troop and removes only the head; every other outcome changes nothing; the other queue and the cooldown map are untouched |
| Manager.TroopManager.RequestTroopSpawn | test-game/TroopManager.js:93-112 | the request, with its type's cost, is appended; an attempt is made, with the outcome above, only when the queue had been empty |
| Manager.TroopManager.SpawnTroop | test-game/TroopManager.js:188-192 | as written: the request, with no castle, is appended; the first attempt fails on the castle unless the spawn point is occupied; troops, the other queue and the cooldown map are unchanged |
| Manager.TroopManager.SpawnTroopForCastle | test-game/TroopManager.js:188-192 | corrected: the request carries the team's castle; an attempt is made, decided on that castle's money, only when the queue was empty, and otherwise the request is appended; the other queue and the cooldown map are unchanged |
| Manager.TroopManager.Damage | test-game/TroopManager.js:437-462 | the fields change exactly as `Combat.Damaged` says |
| Manager.TroopManager.Update | test-game/TroopManager.js:199-322 | the nested loops compute exactly `Combat.Update` at time `now`, keep the manager's invariant (graphics exactly for active troops) and leave the queues alone |
| Manager.TroopManager.TroopTurn | test-game/TroopManager.js:201-321 | one troop's turn computes exactly `Combat.TroopTurn` and keeps the invariant |
| Manager.TroopManager.ScanTroops | test-game/TroopManager.js:257-288 | the inner loop computes exactly `Combat.Scan` over all troops |
| Manager.TroopManager.CheckCastle | test-game/TroopManager.js:290-309 | the castle check computes exactly `Combat.CastleCheck` |
| Manager.TroopManager.Walk | test-game/TroopManager.js:311-320 | the walking rule computes exactly `Combat.Move` |
| Manager.MissingCastleScenario | test-game/TroopManager.js:188-192 | on a fresh battle, a button spawn fails on the missing castle, the next request only queues, a retry fails again, and no troop is built |
| Manager.CorrectedSpawnScenario | test-game/TroopManager.js:93-146 | with the castle passed, the first request spawns troop 0 with nothing rescheduled, the team's next request is put off by 50 ms, and the other team spawns troop 1 |

## Left out

- Rendering is not modelled: Phaser drawing of the attack and walk-stop arcs, the road and the castles, and the red flash of `showDamageEffect` with its 100 ms timer. The graphics are modelled only by which troops own them.
- The physics engine is not modelled: colliders, velocity integration and positions changing between frames. A pass reads positions as given and writes only velocities.
- Phaser timers are not run. `delayedCall` becomes the delay carried in the outcome, and a scheduled retry is another call of `TrySpawnNextTroop`.
- A destroyed sprite stays in the troop sequence as inactive instead of leaving Phaser's group. In the source, destroying a sprite (line 460) splices it out of the group's live child array while both `forEach` loops (lines 201 and 262) walk that array, with two effects the model does not have:
  - In the current attacker's scan (line 262), the troop just after the killed one is not looked at.
  - In the outer pass (line 201), when the killed troop came before the attacker, the troop just after the attacker gets no turn that frame. For example, with troops [R0, L1, L2], if L1 kills R0 the array becomes [L1, L2] and the pass ends before L2.
  The model visits every troop in both loops.
- Troop identity is the index in the troop sequence. The object identity of sprites, which keys the source's maps, is not modelled.
- `Date.now()` is read once per pass as `now`. The source reads it again before each hit, which differs by at most the time the pass takes.
- Floating point is not modelled: `sqrt`, `atan2`, the radian-to-degree conversion, and the rounding of 0.5 and 1.5 damage. Reals are exact.
- Castle money is taken as a parameter of `Castle`'s constructor. The visible scene code sets only the castles' health, so in the source money starts undefined. Every comparison on an undefined value fails, so such a castle would always be `Stalled`. That case is not modelled separately.
- CreateTroop and Attempt: type names inherited from `Object.prototype` (`constructor`, `toString`, `valueOf`, `__proto__`) are treated as unknown, giving `Crashed(UnknownTroopType)` with the request kept. The source's plain-object lookup at line 150 finds them, builds a troop with undefined stats and shifts the queue. No caller in these files passes such a name.
- Default arguments (`troopType = 'MELEE'`) are not modelled. Every call names its type.
- `setupCollisions` and the scene wiring of `GameScene.js` and `UIScene.js` are not modelled. Only their constants are used: castle positions 64 and 1216, health 100, texture sizes 32, 38 and 24.
- The flag `hasTargetInAttackRange` is not modelled. The source sets it and never reads it.
- `lastDamageTime` keeps entries for dead troops, exactly as in the source.
- A null password is not modelled. Strings cannot be null, and the source's null check is unreachable from TypeScript callers.
- Password length counts characters, not UTF-16 code units.
- Pong's React aspects are not modelled: the shallow copy shares the ball and paddle objects with the previous state, and a double call of the updater under React's strict mode would advance twice. The model applies the updater once per frame to a fresh value.
- Pong's mouse position is an integer. The browser's `clientY - rect.top` can be fractional.
- Pong's canvas drawing and its animation-frame loop are not modelled.

## Findings

| source | as written | input that shows it | evidently intended | confidence | as-written member | corrected member |
|---|---|---|---|---|---|---|
| test-game/TroopManager.js:188-192 | `spawnTroop` queues a request without a castle, so `nextSpawn.castle.money` at line 126 throws on the first attempt. The failed request stays at the head of the queue, and every later request only queues behind it. | a fresh battle and `spawnTroop('left', 'MELEE')` | the request carries the team's castle, so the attempt is decided on that castle's money | high, not executed | Manager.MissingCastleScenario | Manager.CorrectedSpawnScenario |
