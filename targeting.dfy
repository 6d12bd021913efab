/** The range tests of the lane battle: a distance gate, then a half-plane gate
    on the bearing from the attacker to the target's anchor point; and the
    spawn-point clearance test. Square roots and arc tangents are replaced by
    exact comparisons on reals, each justified by a lemma below. */
module Targeting {
  import opened Troops

  // ---------------------------------------------------------------------------
  // Distance gate

  /** The distance from the origin to (dx, dy) is at most `range`. */
  predicate WithinRange(dx: real, dy: real, range: real) {
    range >= 0.0 && dx * dx + dy * dy <= range * range
  }

  /** `d` is the Euclidean length of (dx, dy). */
  ghost predicate IsDistance(dx: real, dy: real, d: real) {
    d >= 0.0 && d * d == dx * dx + dy * dy
  }

  /** The squared comparison passes exactly when the distance does not exceed the
      range: the test fails fast on `distance > range` and on nothing else. */
  lemma DistanceGate(dx: real, dy: real, d: real, range: real)
    requires IsDistance(dx, dy, d)
    ensures WithinRange(dx, dy, range) <==> !(d > range)
  {
    if d > range && range >= 0.0 {
      var p, q := d - range, d + range;
      PositiveProduct(p, q);
      assert d * d - range * range == p * q;
    }
    if d <= range {
      var p, q := range - d, range + d;
      NonNegativeProduct(p, q);
      assert range * range - d * d == p * q;
    }
  }

  lemma PositiveProduct(a: real, b: real)
    requires a > 0.0 && b > 0.0
    ensures a * b > 0.0
  {
  }

  lemma NonNegativeProduct(a: real, b: real)
    requires a >= 0.0 && b >= 0.0
    ensures a * b >= 0.0
  {
  }

  // ---------------------------------------------------------------------------
  // Direction gate

  /** `a` is a value the arc tangent of (dy, dx) can take, in degrees in (-180, 180]:
      which value exactly depends on the magnitudes; its interval depends on the signs.
      Coincident points give 0. */
  ghost predicate IsBearing(dx: real, dy: real, a: real) {
    if dy == 0.0 then (if dx >= 0.0 then a == 0.0 else a == 180.0)
    else if dx == 0.0 then (if dy > 0.0 then a == 90.0 else a == -90.0)
    else if dx > 0.0 && dy > 0.0 then 0.0 < a < 90.0
    else if dx < 0.0 && dy > 0.0 then 90.0 < a < 180.0
    else if dx < 0.0 && dy < 0.0 then -180.0 < a < -90.0
    else -90.0 < a < 0.0
  }

  /** Degrees brought into [0, 360). */
  function Normalise(degrees: real): real {
    if degrees < 0.0 then degrees + 360.0 else degrees
  }

  /** The sector comparison on normalised degrees, for each facing. */
  predicate FacesBearing(facing: Team, degrees: real) {
    match facing
    case Left => degrees >= 270.0 || degrees <= 90.0
    case Right => degrees >= 90.0 && degrees <= 270.0
  }

  /** The half-plane in front of the attacker, decided on the signs of (dx, dy). */
  predicate InSector(facing: Team, dx: real, dy: real) {
    match facing
    case Left => dx >= 0.0
    case Right => dx < 0.0 || (dx == 0.0 && dy != 0.0)
  }

  /** The sign test decides the sector comparison for every bearing the arc tangent
      can produce: both perpendicular bearings are inside either half-plane, and the
      coincident point (0 degrees) is inside the left-facing one only. */
  lemma InSectorMatchesBearing(facing: Team, dx: real, dy: real, a: real)
    requires IsBearing(dx, dy, a)
    ensures InSector(facing, dx, dy) <==> FacesBearing(facing, Normalise(a))
  {
  }

  // ---------------------------------------------------------------------------
  // Range tests

  /** The point of the target the attacker measures to. For a teammate it is moved
      by the teammate's full body width, toward the back of its team's advance. */
  function AnchorX(attacker: Troop, target: Troop): real {
    if attacker.team == target.team then
      (if attacker.team == Left then target.x - target.Width() else target.x + target.Width())
    else target.x
  }

  /** The distance gate, then the direction gate, toward the target's anchor. */
  predicate IsInRange(attacker: Troop, target: Troop, range: real) {
    var dx, dy := AnchorX(attacker, target) - attacker.x, target.y - attacker.y;
    WithinRange(dx, dy, range) && InSector(attacker.Facing(), dx, dy)
  }

  /** An enemy castle is measured to its near edge: its position moved by its width
      toward the attacker, according to the attacker's team. */
  function CastleAnchorX(attacker: Troop, castle: CastleState): real {
    castle.x + (if attacker.team == Left then -CastleWidth else CastleWidth)
  }

  predicate IsInRangeCastle(attacker: Troop, castle: CastleState, range: real) {
    var dx, dy := CastleAnchorX(attacker, castle) - attacker.x, castle.y - attacker.y;
    WithinRange(dx, dy, range) && InSector(attacker.Facing(), dx, dy)
  }

  /** The troop range test decides what the source's computation decides: with `d` the
      Euclidean distance and `a` the arc-tangent bearing from the attacker to the target's
      anchor (its position, or for a teammate its position shifted back by its full body
      width), the target is in range exactly when `d` does not exceed the range and the
      normalised bearing lies in the attacker's sector. */
  lemma IsInRangeMatchesSource(attacker: Troop, target: Troop, range: real, d: real, a: real)
    requires var ax := if attacker.team != target.team then target.x
                       else if attacker.team == Left then target.x - BodyWidth(target.kind)
                       else target.x + BodyWidth(target.kind);
      IsDistance(ax - attacker.x, target.y - attacker.y, d) && IsBearing(ax - attacker.x, target.y - attacker.y, a)
    ensures IsInRange(attacker, target, range) <==> !(d > range) && FacesBearing(attacker.Facing(), Normalise(a))
  {
    var dx, dy := AnchorX(attacker, target) - attacker.x, target.y - attacker.y;
    DistanceGate(dx, dy, d, range);
    InSectorMatchesBearing(attacker.Facing(), dx, dy, a);
  }

  /** The castle range test decides what the source's computation decides, measured to
      the castle's position shifted by its width of 64 toward the attacker's side. */
  lemma IsInRangeCastleMatchesSource(attacker: Troop, castle: CastleState, range: real, d: real, a: real)
    requires var cx := castle.x + (if attacker.team == Left then -64.0 else 64.0);
      IsDistance(cx - attacker.x, castle.y - attacker.y, d) && IsBearing(cx - attacker.x, castle.y - attacker.y, a)
    ensures IsInRangeCastle(attacker, castle, range) <==> !(d > range) && FacesBearing(attacker.Facing(), Normalise(a))
  {
    var dx, dy := CastleAnchorX(attacker, castle) - attacker.x, castle.y - attacker.y;
    DistanceGate(dx, dy, d, range);
    InSectorMatchesBearing(attacker.Facing(), dx, dy, a);
  }

  /** A target straight ahead at exactly the range passes (beyond the range, `DistanceGate`
      shows every test fails). */
  lemma RangeBoundaryIsInclusive(attacker: Troop, target: Troop, range: real)
    requires range > 0.0
    requires target.y == attacker.y && AnchorX(attacker, target) == attacker.x + attacker.Facing().Direction() * range
    ensures IsInRange(attacker, target, range)
  {
  }

  // ---------------------------------------------------------------------------
  // Spawn clearance

  const SafeDistance: real := 50.0

  /** An active troop of the team stands strictly closer than the safe distance to
      the team's spawn point. */
  predicate BlocksSpawn(t: Troop, team: Team) {
    t.active && t.team == team &&
    (t.x - SpawnX(team)) * (t.x - SpawnX(team)) + (t.y - GroundY) * (t.y - GroundY) < SafeDistance * SafeDistance
  }

  /** No troop blocks the team's spawn point. */
  predicate SpawnAreaClear(troops: seq<Troop>, team: Team) {
    forall k :: 0 <= k < |troops| ==> !BlocksSpawn(troops[k], team)
  }

  /** The squared comparison is the strict distance comparison. */
  lemma SafeDistanceGate(t: Troop, team: Team, d: real)
    requires IsDistance(t.x - SpawnX(team), t.y - GroundY, d)
    ensures BlocksSpawn(t, team) <==> t.active && t.team == team && d < SafeDistance
  {
    if d >= SafeDistance {
      var p, q := d - SafeDistance, d + SafeDistance;
      NonNegativeProduct(p, q);
      assert d * d - SafeDistance * SafeDistance == p * q;
    } else {
      var p, q := SafeDistance - d, SafeDistance + d;
      PositiveProduct(p, q);
      assert SafeDistance * SafeDistance - d * d == p * q;
      assert d * d < SafeDistance * SafeDistance;
    }
  }

  /** Troops of the other team, and inactive troops, never block a spawn point:
      adding or removing them leaves the clearance as it was. */
  lemma {:induction false} OnlyActiveTeammatesBlock(troops: seq<Troop>, others: seq<Troop>, team: Team)
    requires forall k :: 0 <= k < |others| ==> !others[k].active || others[k].team != team
    ensures SpawnAreaClear(troops + others, team) <==> SpawnAreaClear(troops, team)
    ensures SpawnAreaClear(others + troops, team) <==> SpawnAreaClear(troops, team)
  {
    if SpawnAreaClear(troops, team) {
      forall k | 0 <= k < |troops + others| ensures !BlocksSpawn((troops + others)[k], team) {
        if k >= |troops| { assert (troops + others)[k] == others[k - |troops|]; }
      }
      forall k | 0 <= k < |others + troops| ensures !BlocksSpawn((others + troops)[k], team) {
        if k < |others| { assert (others + troops)[k] == others[k]; }
      }
    }
    if SpawnAreaClear(troops + others, team) {
      forall k | 0 <= k < |troops| ensures !BlocksSpawn(troops[k], team) {
        assert (troops + others)[k] == troops[k];
      }
    }
    if SpawnAreaClear(others + troops, team) {
      forall k | 0 <= k < |troops| ensures !BlocksSpawn(troops[k], team) {
        assert (others + troops)[k + |others|] == troops[k];
      }
    }
  }

  /** A troop just created stands on its spawn point, so it blocks the next spawn of
      its team until it has walked away, and never blocks the other team's. */
  lemma NewTroopBlocksItsSpawnPoint(troops: seq<Troop>, team: Team, kind: Kind)
    ensures !SpawnAreaClear(troops + [NewTroop(team, kind)], team)
    ensures SpawnAreaClear(troops + [NewTroop(team, kind)], team.Opponent()) <==> SpawnAreaClear(troops, team.Opponent())
  {
    assert (troops + [NewTroop(team, kind)])[|troops|] == NewTroop(team, kind);
    OnlyActiveTeammatesBlock(troops, [NewTroop(team, kind)], team.Opponent());
  }
}
