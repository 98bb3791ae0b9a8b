/** The player sprite as the scene sees it. The scene only calls into the
    player (`create`, `damage`, `heal`, `takeWeapon`, `dropWeapon`, `sync`,
    `createSyncData`, `broadcastHit`, `broadcastDead`); the bodies of those
    operations are in Player.cpp, which is not part of this model, so each is
    given here the simplest definition consistent with how the scene uses it. */
module Players {
  import opened Wire
  import opened Geometry
  import Weapons

  /** Collision, contact-test and category bit masks of the physics body. */
  datatype Masks = Masks(collision: bv32, contactTest: bv32, category: bv32)

  const ALL_BITS: bv32 := 0xFFFF_FFFF

  /** The masks `GameScene::gameOver` leaves on the local player's body. */
  const NO_MASKS := Masks(0, 0, 0)

  /** Position, velocity, on-screen size (content size times scale), health,
      held weapon, visibility and physics masks. */
  datatype Player = Player(
    pos: Vec,
    vel: Vec,
    size: Vec,
    hp: real,
    maxHp: real,
    weapon: Option<Weapons.Weapon>,
    visible: bool,
    masks: Masks)

  /** `Player::create(pos)`: a visible, unarmed, unhurt player at rest at `pos`. */
  function Create(pos: Vec, size: Vec, maxHp: real): (p: Player)
    ensures p.pos == pos && p.size == size
    ensures p.hp == p.maxHp == maxHp
    ensures p.vel == Vec(0.0, 0.0) && p.weapon.None? && p.visible
  {
    Player(pos, Vec(0.0, 0.0), size, maxHp, maxHp, None, true, Masks(ALL_BITS, ALL_BITS, ALL_BITS))
  }

  /** The result of `Player::damage`: the damaged player and whether it survived. */
  datatype Damaged = Damaged(player: Player, survived: bool)

  /** `Player::damage(amount)`: health drops by `amount`, never below zero;
      the player survives while health stays positive. */
  function Damage(p: Player, amount: real): (r: Damaged)
    ensures r.survived <==> p.hp - amount > 0.0
    ensures r.survived ==> r.player.hp == p.hp - amount
    ensures !r.survived ==> r.player.hp == 0.0
    ensures r.player == p.(hp := r.player.hp)
  {
    var hp := if p.hp - amount > 0.0 then p.hp - amount else 0.0;
    Damaged(p.(hp := hp), hp > 0.0)
  }

  /** `Player::heal(amount)`: health rises by `amount`, capped at the maximum. */
  function Heal(p: Player, amount: real): (q: Player)
    ensures q.hp <= p.maxHp
    ensures p.hp + amount <= p.maxHp ==> q.hp == p.hp + amount
    ensures q == p.(hp := q.hp)
  {
    p.(hp := Min(p.hp + amount, p.maxHp))
  }

  /** `Player::takeWeapon(w)`. */
  function TakeWeapon(p: Player, w: Weapons.Weapon): (q: Player)
    ensures q.weapon == Some(w)
    ensures q == p.(weapon := q.weapon)
  {
    p.(weapon := Some(w))
  }

  /** The result of `Player::dropWeapon`: the unarmed player and the weapon it held, if any. */
  datatype Dropped = Dropped(player: Player, weapon: Option<Weapons.Weapon>)

  function DropWeapon(p: Player): (r: Dropped)
    ensures r.player.weapon.None? && r.weapon == p.weapon
    ensures r.player == p.(weapon := None)
  {
    Dropped(p.(weapon := None), p.weapon)
  }

  /** `Player::createSyncData`: the snapshot sent under the event name "sync". */
  function CreateSyncData(p: Player): (d: Payload)
    ensures d.Keys == {"x", "y", "vx", "vy"}
    ensures forall k :: k in d ==> d[k].Num?
  {
    map["x" := Num(p.pos.x), "y" := Num(p.pos.y), "vx" := Num(p.vel.x), "vy" := Num(p.vel.y)]
  }

  /** `Player::sync(data)`: takes over every snapshot field present in `data`
      and keeps the rest; nothing but position and velocity changes. */
  function Sync(p: Player, data: Payload): (q: Player)
    ensures q == p.(pos := q.pos, vel := q.vel)
    ensures "x" !in data && "y" !in data ==> q.pos == p.pos
  {
    p.(pos := Vec(NumOr(data, "x", p.pos.x), NumOr(data, "y", p.pos.y)),
       vel := Vec(NumOr(data, "vx", p.vel.x), NumOr(data, "vy", p.vel.y)))
  }

  /** Applying a player's own snapshot to any other player reproduces its
      position and velocity exactly. */
  lemma SyncRoundTrip(p: Player, q: Player)
    ensures Sync(q, CreateSyncData(p)).pos == p.pos
    ensures Sync(q, CreateSyncData(p)).vel == p.vel
  {
  }

  /** `Player::broadcastHit(amount)`. */
  function BroadcastHit(amount: real): (e: Event)
    ensures e.name == "broadcast" && StrField(e.payload, "type") == Some("hit")
    ensures NumOr(e.payload, "damage", 0.0) == amount
  {
    Event("broadcast", map["type" := Str("hit"), "damage" := Num(amount)])
  }

  /** `Player::broadcastDead()`. */
  function BroadcastDead(): (e: Event)
    ensures e.name == "broadcast" && e.payload == map["type" := Str("dead")]
  {
    Event("broadcast", map["type" := Str("dead")])
  }
}
