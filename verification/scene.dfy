/** The state `GameScene` keeps and the transitions its socket handlers and
    its scheduled `update` perform on it. The scene is an immutable record;
    every handler is a pure function from the old scene to the new one, and
    outbound socket sends are appended to `outbox`. */
module GameScene {
  import opened Wire
  import opened Geometry
  import Weapons
  import Players

  /** Constants the scene takes from collaborators outside this model:
      SYNC_LIMIT (utils/global.h), the content size of the background, which
      is the game area, and the on-screen size and full health a new player
      gets (Player.cpp). */
  datatype Config = Config(syncLimit: int, area: Vec, playerSize: Vec, maxHp: real)

  /** What the scene holds.
      - `started`: set once `initData` has been handled.
      - `alive`: cleared by `gameOver`.
      - `inputListeners`: whether keyboard and mouse listeners are attached.
      - `selfId`, `selfPlayer`: the local player, held apart from the registry.
      - `otherPlayers`: the registry of remote players, by identifier.
      - `frameCounter`: the function-static tick counter of `update`.
      - `healPacks`: the heal-pack pool (identifier to healing amount).
      - `weapons`: the weapon pool of `Weapons`.
      - `bullets`: handles of the bullet sprites in the scene; `nextBullet`
        is the next fresh handle.
      - `outbox`: every event sent to the server, oldest first. */
  datatype Scene = Scene(
    cfg: Config,
    started: bool,
    alive: bool,
    inputListeners: bool,
    selfId: string,
    selfPlayer: Option<Players.Player>,
    otherPlayers: map<string, Players.Player>,
    frameCounter: int,
    healPacks: map<string, real>,
    weapons: Weapons.Pool,
    bullets: set<nat>,
    nextBullet: nat,
    outbox: seq<Event>)

  /** The identifiers of the two weapons `init` places in the world. */
  const PISTOL_ID := "123456"
  const UZI_ID := "123457"

  /** The fixed damage a bullet deals to the local player. */
  const HIT_DAMAGE: real := 20.0

  /** A heal-pack descriptor of the `initData` payload. */
  datatype PackDesc = PackDesc(id: string, hp: real)

  /** One element of an inbound `sync` batch. */
  datatype SyncEntry = SyncEntry(id: string, data: Payload)

  /** The inbound events the scene registers handlers for, with the fields
      each handler reads. The kinematics of `bullet` are not modelled. */
  datatype Inbound =
    | InitData(selfId: string, players: seq<string>, selfPos: Vec, packs: seq<PackDesc>)
    | SyncBatch(entries: seq<SyncEntry>)
    | BulletShot
    | Hit(damage: real, from: string)
    | Dead(from: string)
    | EatPack(packId: string)
    | TakeWeapon(from: string, weaponId: string)
    | DropWeapon(from: string)

  function NewPlayer(cfg: Config, pos: Vec): (p: Players.Player)
  {
    Players.Create(pos, cfg.playerSize, cfg.maxHp)
  }

  /** `Player::create()` without a position, as used for remote players:
      the placeholder stays at the origin until its first sync. */
  function NewRemote(cfg: Config): (p: Players.Player)
  {
    NewPlayer(cfg, Vec(0.0, 0.0))
  }

  /** The scene right after `init`: not started, no players, both weapons in the pool. */
  function Initial(cfg: Config): (s: Scene)
    ensures !s.started && s.alive && s.inputListeners
    ensures s.selfPlayer.None? && s.otherPlayers == map[] && s.frameCounter == 0
    ensures s.weapons.Keys == {PISTOL_ID, UZI_ID} && s.outbox == []
    ensures forall k :: k in s.weapons ==> Weapons.GetId(s.weapons[k]) == k
    ensures s.bullets == {} && s.healPacks == map[]
    ensures BulletsFresh(s)
  {
    Scene(cfg, false, true, true, "", None, map[], 0, map[],
      map[PISTOL_ID := Weapons.Weapon(PISTOL_ID, Weapons.Pistol, true),
          UZI_ID := Weapons.Weapon(UZI_ID, Weapons.Uzi, true)],
      {}, 0, [])
  }

  /** The local player is held apart from the registry. */
  predicate SelfApart(s: Scene)
  {
    s.selfId !in s.otherPlayers
  }

  // ---------------------------------------------------------------------
  // Registry lookup

  /** `getPlayerById`: the remote player under `id`, or none. It searches the
      registry only, so it never yields the local player. */
  function GetPlayerById(s: Scene, id: string): (r: Option<Players.Player>)
    ensures r.Some? <==> id in s.otherPlayers
    ensures r.Some? ==> r.value == s.otherPlayers[id]
  {
    if id in s.otherPlayers then Some(s.otherPlayers[id]) else None
  }

  lemma LookupNeverYieldsSelf(s: Scene)
    requires SelfApart(s)
    ensures GetPlayerById(s, s.selfId) == None
  {
  }

  // ---------------------------------------------------------------------
  // initData

  /** The two parts of the scene the players loop of `initData` writes. */
  datatype Roster = Roster(self: Option<Players.Player>, others: map<string, Players.Player>)

  /** The players loop of the `initData` handler over `ids`, in order. The
      entry equal to `selfId` (re)creates the local player at `pos`; every
      other entry is inserted with `std::map::insert`, which keeps an
      existing entry. */
  function AddPlayers(cfg: Config, selfId: string, pos: Vec, roster: Roster, ids: seq<string>): (r: Roster)
    ensures r.others.Keys == roster.others.Keys + (set i | i in ids && i != selfId)
    ensures forall k :: k in roster.others ==> r.others[k] == roster.others[k]
    ensures forall k :: k in r.others && k !in roster.others ==> r.others[k] == NewRemote(cfg)
    ensures selfId in ids ==> r.self == Some(NewPlayer(cfg, pos))
    ensures selfId !in ids ==> r.self == roster.self
    decreases |ids|
  {
    if ids == [] then roster
    else
      var id := ids[0];
      var rest := ids[1..];
      var next :=
        if id == selfId then roster.(self := Some(NewPlayer(cfg, pos)))
        else if id in roster.others then roster
        else roster.(others := roster.others[id := NewRemote(cfg)]);
      var added := if id == selfId then {} else {id};
      assert forall i :: i in ids <==> i == id || i in rest;
      assert (set i | i in ids && i != selfId) == added + (set i | i in rest && i != selfId);
      assert next.others.Keys == roster.others.Keys + added;
      AddPlayers(cfg, selfId, pos, next, rest)
  }

  function PackIds(packs: seq<PackDesc>): (ids: set<string>)
  {
    set j | 0 <= j < |packs| :: packs[j].id
  }

  /** The heal-pack loop of the `initData` handler: every descriptor enters the pool. */
  function AddPacks(pool: map<string, real>, packs: seq<PackDesc>): (r: map<string, real>)
    ensures r.Keys == pool.Keys + PackIds(packs)
    ensures forall k :: k in pool && k !in PackIds(packs) ==> r[k] == pool[k]
    decreases |packs|
  {
    if packs == [] then pool
    else
      assert PackIds(packs) == {packs[0].id} + PackIds(packs[1..]) by {
        forall k | k in PackIds(packs) ensures k in {packs[0].id} + PackIds(packs[1..]) {
          var j :| 0 <= j < |packs| && packs[j].id == k;
          if j > 0 { assert packs[1..][j - 1].id == k; }
        }
      }
      AddPacks(pool[packs[0].id := packs[0].hp], packs[1..])
  }

  /** The `initData` handler: records `selfId`, runs the players loop and the
      heal-pack loop, and only then marks the session started. */
  function OnInitData(s: Scene, selfId: string, players: seq<string>, selfPos: Vec, packs: seq<PackDesc>): (r: Scene)
    ensures r.started && r.selfId == selfId
    ensures r.otherPlayers.Keys == s.otherPlayers.Keys + (set i | i in players && i != selfId)
    ensures selfId in r.otherPlayers <==> selfId in s.otherPlayers
    ensures forall i :: i in players && i != selfId ==> i in r.otherPlayers
    ensures forall k :: k in s.otherPlayers ==> r.otherPlayers[k] == s.otherPlayers[k]
    ensures forall k :: k in r.otherPlayers && k !in s.otherPlayers ==> r.otherPlayers[k] == NewRemote(s.cfg)
    ensures selfId in players ==> r.selfPlayer.Some? && r.selfPlayer.value.pos == selfPos
    ensures selfId in players ==> r.selfPlayer == Some(NewPlayer(s.cfg, selfPos))
    ensures selfId !in players ==> r.selfPlayer == s.selfPlayer
    ensures r.healPacks.Keys == s.healPacks.Keys + PackIds(packs)
    ensures forall k :: k in s.healPacks && k !in PackIds(packs) ==> r.healPacks[k] == s.healPacks[k]
    ensures r == s.(started := true, selfId := selfId, selfPlayer := r.selfPlayer,
                    otherPlayers := r.otherPlayers, healPacks := r.healPacks)
    ensures r.outbox == s.outbox && r.frameCounter == s.frameCounter && r.alive == s.alive
    ensures r.weapons == s.weapons && r.bullets == s.bullets && r.nextBullet == s.nextBullet && r.cfg == s.cfg
  {
    var roster := AddPlayers(s.cfg, selfId, selfPos, Roster(s.selfPlayer, s.otherPlayers), players);
    var loaded := s.(selfId := selfId, selfPlayer := roster.self, otherPlayers := roster.others,
                     healPacks := AddPacks(s.healPacks, packs));
    loaded.(started := true)
  }

  // ---------------------------------------------------------------------
  // sync

  function SyncIds(batch: seq<SyncEntry>): (ids: set<string>)
  {
    set j | 0 <= j < |batch| :: batch[j].id
  }

  /** One iteration of the `sync` handler's loop: a known id is synced, an
      unknown one (the local player's own echo, say) is skipped. */
  function ApplyEntry(others: map<string, Players.Player>, e: SyncEntry): (r: map<string, Players.Player>)
    ensures r.Keys == others.Keys
    ensures e.id in others ==> r[e.id] == Players.Sync(others[e.id], e.data)
    ensures forall k :: k in others && k != e.id ==> r[k] == others[k]
  {
    if e.id in others then others[e.id := Players.Sync(others[e.id], e.data)] else others
  }

  /** The `sync` handler's loop over a batch, in arrival order. */
  function SyncPlayers(others: map<string, Players.Player>, batch: seq<SyncEntry>): (r: map<string, Players.Player>)
    ensures r.Keys == others.Keys
    decreases |batch|
  {
    if batch == [] then others
    else SyncPlayers(ApplyEntry(others, batch[0]), batch[1..])
  }

  /** A batch leaves every player it does not name untouched. */
  lemma {:induction false} SyncLeavesUnnamed(others: map<string, Players.Player>, batch: seq<SyncEntry>, k: string)
    requires k in others && k !in SyncIds(batch)
    ensures SyncPlayers(others, batch)[k] == others[k]
    decreases |batch|
  {
    if batch != [] {
      assert batch[0].id in SyncIds(batch);
      assert SyncIds(batch[1..]) <= SyncIds(batch) by {
        forall i | i in SyncIds(batch[1..]) ensures i in SyncIds(batch) {
          var j :| 0 <= j < |batch[1..]| && batch[1..][j].id == i;
          assert batch[j + 1].id == i;
        }
      }
      SyncLeavesUnnamed(ApplyEntry(others, batch[0]), batch[1..], k);
    }
  }

  /** Handling two batches in turn is handling their concatenation. */
  lemma {:induction false} SyncConcat(others: map<string, Players.Player>, a: seq<SyncEntry>, b: seq<SyncEntry>)
    ensures SyncPlayers(others, a + b) == SyncPlayers(SyncPlayers(others, a), b)
    decreases |a|
  {
    if a == [] {
      assert a + b == b;
    } else {
      assert (a + b)[0] == a[0];
      assert (a + b)[1..] == a[1..] + b;
      SyncConcat(ApplyEntry(others, a[0]), a[1..], b);
    }
  }

  /** Last write wins: when no later entry of the batch names `id`, the
      final entry for it determines what `Player::sync` is applied to last. */
  lemma SyncLastWins(others: map<string, Players.Player>, prefix: seq<SyncEntry>, id: string, data: Payload,
                     suffix: seq<SyncEntry>)
    requires id in others && id !in SyncIds(suffix)
    ensures SyncPlayers(others, prefix + [SyncEntry(id, data)] + suffix)[id]
         == Players.Sync(SyncPlayers(others, prefix)[id], data)
  {
    var e := SyncEntry(id, data);
    SyncConcat(others, prefix + [e], suffix);
    SyncConcat(others, prefix, [e]);
    var mid := SyncPlayers(others, prefix);
    assert SyncPlayers(mid, [e]) == SyncPlayers(ApplyEntry(mid, e), []);
    SyncLeavesUnnamed(SyncPlayers(others, prefix + [e]), suffix, id);
  }

  /** An entry for an id outside the registry is skipped wherever it occurs in the batch. */
  lemma SyncSkipsUnknown(others: map<string, Players.Player>, a: seq<SyncEntry>, e: SyncEntry, b: seq<SyncEntry>)
    requires e.id !in others
    ensures SyncPlayers(others, a + [e] + b) == SyncPlayers(others, a + b)
  {
    SyncConcat(others, a + [e], b);
    SyncConcat(others, a, [e]);
    SyncConcat(others, a, b);
    var mid := SyncPlayers(others, a);
    assert SyncPlayers(mid, [e]) == SyncPlayers(ApplyEntry(mid, e), []);
  }

  /** The `sync` handler. */
  function OnSync(s: Scene, batch: seq<SyncEntry>): (r: Scene)
    ensures r.otherPlayers.Keys == s.otherPlayers.Keys
    ensures forall k :: k in s.otherPlayers && k !in SyncIds(batch) ==> r.otherPlayers[k] == s.otherPlayers[k]
    ensures r == s.(otherPlayers := r.otherPlayers)
  {
    var synced := SyncPlayers(s.otherPlayers, batch);
    assert forall k :: k in s.otherPlayers && k !in SyncIds(batch) ==> synced[k] == s.otherPlayers[k] by {
      forall k | k in s.otherPlayers && k !in SyncIds(batch) ensures synced[k] == s.otherPlayers[k] {
        SyncLeavesUnnamed(s.otherPlayers, batch, k);
      }
    }
    s.(otherPlayers := synced)
  }

  // ---------------------------------------------------------------------
  // bullet, hit, dead, eatPack, takeWeapon, dropWeapon

  /** Every bullet handle in the scene was issued before `nextBullet`. */
  predicate BulletsFresh(s: Scene)
  {
    forall b :: b in s.bullets ==> b < s.nextBullet
  }

  /** The `bullet` handler: a new bullet sprite enters the scene. While the
      handles in the scene are all older than `nextBullet`, it adds exactly
      one bullet the scene did not hold before. */
  function OnBullet(s: Scene): (r: Scene)
    ensures BulletsFresh(s) ==> s.nextBullet !in s.bullets && r.bullets == s.bullets + {s.nextBullet}
    ensures BulletsFresh(s) ==> BulletsFresh(r)
    ensures s.bullets <= r.bullets && s.nextBullet in r.bullets && r.nextBullet > s.nextBullet
    ensures r == s.(bullets := r.bullets, nextBullet := r.nextBullet)
  {
    s.(bullets := s.bullets + {s.nextBullet}, nextBullet := s.nextBullet + 1)
  }

  /** The `hit` handler: damages the remote player named by `from`; an id
      outside the registry, including the local player's own, changes nothing. */
  function OnHit(s: Scene, damage: real, from: string): (r: Scene)
    ensures from !in s.otherPlayers ==> r == s
    ensures r.otherPlayers.Keys == s.otherPlayers.Keys
    ensures from in s.otherPlayers ==> r.otherPlayers[from] == Players.Damage(s.otherPlayers[from], damage).player
    ensures forall k :: k in s.otherPlayers && k != from ==> r.otherPlayers[k] == s.otherPlayers[k]
    ensures r == s.(otherPlayers := r.otherPlayers)
  {
    match GetPlayerById(s, from)
    case None => s
    case Some(p) => s.(otherPlayers := s.otherPlayers[from := Players.Damage(p, damage).player])
  }

  /** The `dead` handler: removes exactly the entry for `from`, if there is one. */
  function OnDead(s: Scene, from: string): (r: Scene)
    ensures r.otherPlayers.Keys == s.otherPlayers.Keys - {from}
    ensures forall k :: k in r.otherPlayers ==> r.otherPlayers[k] == s.otherPlayers[k]
    ensures from !in s.otherPlayers ==> r == s
    ensures r == s.(otherPlayers := r.otherPlayers)
  {
    if from in s.otherPlayers then s.(otherPlayers := s.otherPlayers - {from}) else s
  }

  lemma DeadIdempotent(s: Scene, from: string)
    ensures OnDead(OnDead(s, from), from) == OnDead(s, from)
    ensures GetPlayerById(OnDead(s, from), from) == None
  {
  }

  /** `HealPack::remove(id)` on the pool. */
  function RemovePack(s: Scene, packId: string): (r: Scene)
    ensures r.healPacks.Keys == s.healPacks.Keys - {packId}
    ensures forall k :: k in r.healPacks ==> r.healPacks[k] == s.healPacks[k]
    ensures r == s.(healPacks := r.healPacks)
  {
    s.(healPacks := s.healPacks - {packId})
  }

  /** The `eatPack` handler. Handling a duplicate is harmless. */
  lemma EatPackIdempotent(s: Scene, packId: string)
    ensures RemovePack(RemovePack(s, packId), packId) == RemovePack(s, packId)
  {
  }

  /** The `takeWeapon` handler: arms the remote player `from` with the pooled
      weapon `weaponId` when both are known; otherwise changes nothing. */
  function OnTakeWeapon(s: Scene, from: string, weaponId: string): (r: Scene)
    ensures !(from in s.otherPlayers && weaponId in s.weapons) ==> r == s
    ensures r.otherPlayers.Keys == s.otherPlayers.Keys
    ensures from in s.otherPlayers && weaponId in s.weapons ==>
      && r.otherPlayers[from].weapon == Some(s.weapons[weaponId])
      && r.otherPlayers[from] == s.otherPlayers[from].(weapon := r.otherPlayers[from].weapon)
    ensures forall k :: k in s.otherPlayers && k != from ==> r.otherPlayers[k] == s.otherPlayers[k]
    ensures r == s.(otherPlayers := r.otherPlayers)
  {
    var player := GetPlayerById(s, from);
    var weapon := Weapons.GetById(s.weapons, weaponId);
    if player.Some? && weapon.Some? then
      s.(otherPlayers := s.otherPlayers[from := Players.TakeWeapon(player.value, weapon.value)])
    else s
  }

  /** The `dropWeapon` handler as written: `Player::dropWeapon` yields no
      weapon for an unarmed player, and the handler passes that null straight
      to `addChild`, which refuses it. `None` stands for that fault. It
      happens whenever this client's copy of the sender never saw the
      weapon taken, for instance a copy created by `initData` after the
      sender had armed itself. */
  function OnDropWeaponAsWritten(s: Scene, from: string): (r: Option<Scene>)
    ensures r.None? <==> from in s.otherPlayers && s.otherPlayers[from].weapon.None?
    ensures r.Some? ==> r.value == OnDropWeapon(s, from)
  {
    match GetPlayerById(s, from)
    case None => Some(s)
    case Some(p) =>
      var d := Players.DropWeapon(p);
      if d.weapon.None? then None
      else Some(s.(otherPlayers := s.otherPlayers[from := d.player]))
  }

  /** The `dropWeapon` handler with the null check the keyboard handler
      performs before `addChild`: the remote player `from` lets go of its
      weapon, if it holds one, and nothing else changes. */
  function OnDropWeapon(s: Scene, from: string): (r: Scene)
    ensures from !in s.otherPlayers ==> r == s
    ensures r.otherPlayers.Keys == s.otherPlayers.Keys
    ensures from in s.otherPlayers ==> r.otherPlayers[from] == s.otherPlayers[from].(weapon := None)
    ensures from in s.otherPlayers && s.otherPlayers[from].weapon.None? ==> r == s
    ensures forall k :: k in s.otherPlayers && k != from ==> r.otherPlayers[k] == s.otherPlayers[k]
    ensures r == s.(otherPlayers := r.otherPlayers)
  {
    match GetPlayerById(s, from)
    case None => s
    case Some(p) => s.(otherPlayers := s.otherPlayers[from := Players.DropWeapon(p).player])
  }

  /** A client that joins after a peer armed itself holds an unarmed copy of
      that peer, and the handler as written faults on the peer's next drop;
      the corrected handler leaves the scene as it was. */
  lemma LateJoinerDropFaults(cfg: Config, pos: Vec)
    ensures var s := OnInitData(Initial(cfg), "me", ["me", "peer"], pos, []);
      && "peer" in s.otherPlayers
      && OnDropWeaponAsWritten(s, "peer") == None
      && OnDropWeapon(s, "peer") == s
  {
    var s := OnInitData(Initial(cfg), "me", ["me", "peer"], pos, []);
    assert "peer" in ["me", "peer"];
    assert s.otherPlayers["peer"] == NewRemote(cfg);
  }

  /** Delivery of an inbound event to the handler registered for it, with
      `dropWeapon` going to the corrected `OnDropWeapon` rather than to
      `OnDropWeaponAsWritten`. No
      inbound handler sends anything, touches the tick counter or ends the
      game, and only `initData` touches the local player or `started`. */
  function Dispatch(s: Scene, m: Inbound): (r: Scene)
    ensures r.outbox == s.outbox && r.frameCounter == s.frameCounter
    ensures r.alive == s.alive && r.inputListeners == s.inputListeners && r.cfg == s.cfg
    ensures !m.InitData? ==> r.selfPlayer == s.selfPlayer && r.selfId == s.selfId && r.started == s.started
    ensures !m.InitData? ==> r.otherPlayers.Keys <= s.otherPlayers.Keys
    ensures m.InitData? ==> r.started
  {
    match m
    case InitData(selfId, players, selfPos, packs) => OnInitData(s, selfId, players, selfPos, packs)
    case SyncBatch(entries) => OnSync(s, entries)
    case BulletShot => OnBullet(s)
    case Hit(damage, from) => OnHit(s, damage, from)
    case Dead(from) => OnDead(s, from)
    case EatPack(packId) => RemovePack(s, packId)
    case TakeWeapon(from, weaponId) => OnTakeWeapon(s, from, weaponId)
    case DropWeapon(from) => OnDropWeapon(s, from)
  }

  /** Every inbound event keeps the local player out of the registry, except
      an `initData` naming as `selfId` an id the registry already holds. */
  lemma DispatchKeepsSelfApart(s: Scene, m: Inbound)
    requires SelfApart(s)
    requires m.InitData? ==> m.selfId !in s.otherPlayers
    ensures SelfApart(Dispatch(s, m))
  {
  }

  /** Inbound events and ticks keep every bullet handle older than `nextBullet`. */
  lemma BulletsStayFresh(s: Scene, m: Inbound)
    requires BulletsFresh(s)
    ensures BulletsFresh(Dispatch(s, m))
    ensures BulletsFresh(Tick(s))
  {
  }

  /** From a fresh scene, `initData` leaves the local player out of the
      registry and every other listed player in it. */
  lemma InitDataFromFresh(cfg: Config, selfId: string, players: seq<string>, selfPos: Vec, packs: seq<PackDesc>)
    ensures var r := OnInitData(Initial(cfg), selfId, players, selfPos, packs);
      && SelfApart(r) && r.started
      && r.otherPlayers.Keys == (set i | i in players && i != selfId)
      && (selfId in players ==> r.selfPlayer.Some? && r.selfPlayer.value.pos == selfPos)
  {
  }

  // ---------------------------------------------------------------------
  // gameOver

  /** `gameOver`: detaches keyboard and mouse listeners first, then marks the
      session dead and makes the local player invisible and untouchable
      without removing it. It dereferences the local player, so one must exist. */
  function GameOver(s: Scene): (r: Scene)
    requires s.selfPlayer.Some?
    ensures !r.alive && !r.inputListeners
    ensures r.selfPlayer.Some? && !r.selfPlayer.value.visible
    ensures r.selfPlayer.value.masks == Players.NO_MASKS
    ensures r.selfPlayer.value == s.selfPlayer.value.(visible := false, masks := r.selfPlayer.value.masks)
    ensures r == s.(alive := false, inputListeners := false, selfPlayer := r.selfPlayer)
  {
    var detached := s.(inputListeners := false);
    var dead := detached.(alive := false);
    var p := dead.selfPlayer.value;
    dead.(selfPlayer := Some(p.(visible := false, masks := Players.NO_MASKS)))
  }

  // ---------------------------------------------------------------------
  // update

  /** Whether this tick's incremented counter reaches SYNC_LIMIT. */
  predicate SyncDue(s: Scene)
  {
    s.frameCounter + 1 == s.cfg.syncLimit
  }

  /** The `update` scheduled once per frame. Before the session starts it
      does nothing. Otherwise the counter is incremented (the physics step is
      opaque and changes nothing here); without a local player that is all.
      With one, a counter that reached SYNC_LIMIT is reset and the local
      player's snapshot, taken before bounding, is sent as "sync"; then the
      local player's position is bounded to the game area. */
  function Tick(s: Scene): (r: Scene)
    ensures !s.started ==> r == s
    ensures s.started && s.selfPlayer.None? ==> r == s.(frameCounter := s.frameCounter + 1)
    ensures s.started && s.selfPlayer.Some? ==>
      (SyncDue(s) <==> |r.outbox| == |s.outbox| + 1)
    ensures s.started && s.selfPlayer.Some? && SyncDue(s) ==>
      r.frameCounter == 0 && r.outbox == s.outbox + [Event("sync", Players.CreateSyncData(s.selfPlayer.value))]
    ensures s.started && s.selfPlayer.Some? && !SyncDue(s) ==>
      r.frameCounter == s.frameCounter + 1 && r.outbox == s.outbox
    ensures s.started && s.selfPlayer.Some? && 0 <= s.frameCounter < s.cfg.syncLimit ==>
      0 <= r.frameCounter < s.cfg.syncLimit
    ensures s.selfPlayer.Some? ==>
      r.selfPlayer.Some? && r.selfPlayer.value == s.selfPlayer.value.(pos := r.selfPlayer.value.pos)
    ensures s.started && s.selfPlayer.Some? ==> InBounds(s.cfg.area, r.selfPlayer.value)
    ensures s.started && s.selfPlayer.Some? ==>
      r.selfPlayer.value.pos == Clamp(s.selfPlayer.value.pos, s.cfg.area, s.selfPlayer.value.size)
    ensures s.started && s.selfPlayer.Some? && Inside(s.cfg.area, s.selfPlayer.value) ==>
      r.selfPlayer == s.selfPlayer
    ensures r == s.(frameCounter := r.frameCounter, outbox := r.outbox, selfPlayer := r.selfPlayer)
  {
    if !s.started then s
    else
      var counted := s.(frameCounter := s.frameCounter + 1);
      if counted.selfPlayer.None? then counted
      else
        var p := counted.selfPlayer.value;
        var synced :=
          if counted.frameCounter == counted.cfg.syncLimit then
            counted.(frameCounter := 0, outbox := counted.outbox + [Event("sync", Players.CreateSyncData(p))])
          else counted;
        synced.(selfPlayer := Some(p.(pos := Clamp(p.pos, synced.cfg.area, p.size))))
  }

  /** The player's position lies within the game area on every axis on
      which its sprite fits. */
  predicate InBounds(area: Vec, p: Players.Player)
  {
    && (p.size.x <= area.x ==> p.size.x / 2.0 <= p.pos.x <= area.x - p.size.x / 2.0)
    && (p.size.y <= area.y ==> p.size.y / 2.0 <= p.pos.y <= area.y - p.size.y / 2.0)
  }

  /** The player's sprite lies wholly within the game area. */
  predicate Inside(area: Vec, p: Players.Player)
  {
    && p.size.x / 2.0 <= p.pos.x <= area.x - p.size.x / 2.0
    && p.size.y / 2.0 <= p.pos.y <= area.y - p.size.y / 2.0
  }

  /** `n` consecutive ticks. */
  function Ticks(s: Scene, n: nat): (r: Scene)
  {
    if n == 0 then s else Tick(Ticks(s, n - 1))
  }

  /** Ticks that do not bring the counter to SYNC_LIMIT send nothing. */
  lemma {:induction false} QuietTicks(s: Scene, k: nat)
    requires s.started && s.selfPlayer.Some?
    requires 0 <= s.frameCounter && s.frameCounter + k < s.cfg.syncLimit
    ensures Ticks(s, k).frameCounter == s.frameCounter + k
    ensures Ticks(s, k).outbox == s.outbox
    ensures Ticks(s, k).started && Ticks(s, k).selfPlayer.Some? && Ticks(s, k).cfg == s.cfg
  {
    if k > 0 {
      QuietTicks(s, k - 1);
    }
  }

  /** A counter that has already passed SYNC_LIMIT, as it does when ticks ran
      before `initData` created the local player, never comes back to it:
      ticks from then on send nothing and only count up. */
  lemma {:induction false} OverrunTicksQuiet(s: Scene, k: nat)
    requires s.started && s.selfPlayer.Some?
    requires s.frameCounter >= s.cfg.syncLimit
    ensures Ticks(s, k).frameCounter == s.frameCounter + k
    ensures Ticks(s, k).outbox == s.outbox
    ensures Ticks(s, k).started && Ticks(s, k).selfPlayer.Some? && Ticks(s, k).cfg == s.cfg
  {
    if k > 0 {
      OverrunTicksQuiet(s, k - 1);
    }
  }

  /** With a local player, every SYNC_LIMIT ticks starting from a reset
      counter send exactly one "sync" event and leave the counter reset. */
  lemma SyncCadence(s: Scene)
    requires s.started && s.selfPlayer.Some?
    requires s.frameCounter == 0 && s.cfg.syncLimit >= 1
    ensures Ticks(s, s.cfg.syncLimit).frameCounter == 0
    ensures |Ticks(s, s.cfg.syncLimit).outbox| == |s.outbox| + 1
    ensures Ticks(s, s.cfg.syncLimit).outbox[..|s.outbox|] == s.outbox
    ensures Ticks(s, s.cfg.syncLimit).outbox[|s.outbox|].name == "sync"
  {
    QuietTicks(s, s.cfg.syncLimit - 1);
  }

  /** A player pushed outside the area is back inside after the next tick. */
  lemma OutOfBoundsCorrectedNextTick(s: Scene)
    requires s.started && s.selfPlayer.Some?
    requires s.selfPlayer.value.size.x <= s.cfg.area.x
    requires s.selfPlayer.value.pos.x > s.cfg.area.x - s.selfPlayer.value.size.x / 2.0
    ensures Tick(s).selfPlayer.value.pos.x == s.cfg.area.x - s.selfPlayer.value.size.x / 2.0
  {
  }
}
