/** The entities of the lane battle: the two teams, the troop catalog, one troop
    as the update pass sees it, and a castle's state. Positions, hit points,
    damage and money are reals; the catalog's 0.5 and 1.5 damages are exact. */
module Troops {

  datatype Option<T> = None | Some(value: T)

  /** A team is named after the side of the lane its castle stands on; a troop
      faces the way its team is named (facing 'left' means advancing to the right). */
  datatype Team = Left | Right
  {
    function Opponent(): Team {
      if this == Left then Right else Left
    }

    /** The sign of a troop's velocity when it advances. */
    function Direction(): real {
      if this == Left then 1.0 else -1.0
    }
  }

  datatype Kind = Melee | Tank | Range

  /** The stats a troop type gives every troop created from it. */
  datatype TroopType = TroopType(
    key: string,
    hp: real,
    damage: real,
    speed: real,
    cost: real,
    reward: real,
    castleDamage: real,
    attackRange: real,
    walkStopRange: real)

  /** The troop catalog. */
  function Stats(kind: Kind): TroopType {
    match kind
    case Melee => TroopType("melee", 10.0, 1.0, 80.0, 10.0, 20.0, 10.0, 40.0, 30.0)
    case Tank => TroopType("tank", 30.0, 0.5, 80.0, 30.0, 60.0, 3.0, 50.0, 30.0)
    case Range => TroopType("range", 5.0, 1.5, 80.0, 15.0, 30.0, 2.0, 150.0, 30.0)
  }

  /** The catalog is keyed by the upper-case type names. */
  function KindNamed(name: string): Option<Kind> {
    if name == "MELEE" then Some(Melee)
    else if name == "TANK" then Some(Tank)
    else if name == "RANGE" then Some(Range)
    else None
  }

  /** The key under which the catalog lists a kind. */
  function TypeName(kind: Kind): string {
    match kind
    case Melee => "MELEE"
    case Tank => "TANK"
    case Range => "RANGE"
  }

  /** Looking a type up by name inverts naming it: every kind is found under its own
      key, a name finds a kind only when it is that kind's key, and the kind's stats
      carry the lower-case form of the key. */
  lemma CatalogNames(kind: Kind, name: string)
    ensures KindNamed(TypeName(kind)) == Some(kind)
    ensures KindNamed(name) == Some(kind) ==> name == TypeName(kind)
    ensures KindNamed(name).None? <==> name != "MELEE" && name != "TANK" && name != "RANGE"
    ensures |Stats(kind).key| == |TypeName(kind)| &&
      forall i :: 0 <= i < |TypeName(kind)| ==> Stats(kind).key[i] as int == TypeName(kind)[i] as int + 32
  {
  }

  /** The cost of a type, 0 for a name the catalog does not know. */
  function GetTroopCost(name: string): (c: real)
    ensures KindNamed(name).None? ==> c == 0.0
    ensures KindNamed(name).Some? ==> c == Stats(KindNamed(name).value).cost && c > 0.0
  {
    match KindNamed(name)
    case Some(kind) => Stats(kind).cost
    case None => 0.0
  }

  /** The width of a troop's physics body: the side of its square texture. */
  function BodyWidth(kind: Kind): real {
    match kind
    case Melee => 32.0
    case Tank => 38.0
    case Range => 24.0
  }

  /** The width of a castle's physics body. */
  const CastleWidth: real := 64.0

  /** A troop as the update pass reads and writes it. Its stats are those of its
      kind; `facing` is its team; `active` turns false when it is destroyed. */
  datatype Troop = Troop(kind: Kind, team: Team, x: real, y: real, vx: real, hp: real, active: bool)
  {
    function Damage(): real { Stats(kind).damage }
    function CastleDamage(): real { Stats(kind).castleDamage }
    function BaseSpeed(): real { Stats(kind).speed }
    function Reward(): real { Stats(kind).reward }
    function AttackRange(): real { Stats(kind).attackRange }
    function WalkStopRange(): real { Stats(kind).walkStopRange }
    function Facing(): Team { team }
    function Width(): real { BodyWidth(kind) }
  }

  /** The fields of a castle the lane battle reads and writes. */
  datatype CastleState = CastleState(x: real, y: real, health: real, money: real)

  // Scene layout: the canvas is 1280 wide and 720 high, the road is 90 high.
  const SceneWidth: real := 1280.0
  const GroundY: real := 720.0 - 90.0
  const CastleLeftX: real := 64.0
  const CastleRightX: real := 1280.0 - 64.0
  const InitialCastleHealth: real := 100.0

  /** A team's spawn point, one castle width in front of its castle. */
  function SpawnX(team: Team): real {
    if team == Left then 64.0 + 64.0 else 1280.0 - 64.0 - 64.0
  }

  /** A troop of the given kind just created for a team at its spawn point. */
  function NewTroop(team: Team, kind: Kind): (t: Troop)
    ensures t.kind == kind && t.x == SpawnX(team) && t.y == GroundY
    ensures t.hp == Stats(kind).hp && t.active && t.Facing() == team
    ensures t.vx == team.Direction() * Stats(kind).speed
    ensures team == Left ==> t.vx > 0.0
    ensures team == Right ==> t.vx < 0.0
  {
    Troop(kind, team, SpawnX(team), GroundY, if team == Left then Stats(kind).speed else -Stats(kind).speed, Stats(kind).hp, true)
  }

  /** Every catalog stat that drives combat is positive. */
  predicate PositiveStats(t: TroopType) {
    t.hp > 0.0 && t.damage > 0.0 && t.speed > 0.0 && t.cost > 0.0 && t.reward > 0.0 &&
    t.castleDamage > 0.0 && t.attackRange > 0.0 && t.walkStopRange > 0.0
  }

  lemma CatalogIsPositive(kind: Kind)
    ensures PositiveStats(Stats(kind))
  {
  }

  /** Every type stops walking only closer than it can strike: the walk-stop range
      is below the attack range, so a troop strikes while it still advances. */
  lemma WalkStopBelowAttackRange(kind: Kind)
    ensures Stats(kind).walkStopRange < Stats(kind).attackRange
  {
  }
}
