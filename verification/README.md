# h2z2 game-client core in Dafny

A model of the client-side game logic of h2z2, a real-time multiplayer
shooter built on cocos2d-x. It covers three parts of `GameScene` and the
weapon that they call into:

- **Contact resolution.** The physics engine reports two bodies per contact,
  in no particular order. `onContactBegin` tries the class pairs
  player-bullet, then player-heal-pack, then player-weapon, through the
  `_handleContact<T1, T2>` template. The template calls the matching
  `handleContact` overload with the `T1` body first, whichever order the
  engine used.
- **Entity registry and tick scheduler.** The socket handlers (`initData`,
  `sync`, `bullet`, `hit`, `dead`, `eatPack`, `takeWeapon`, `dropWeapon`)
  maintain the registry of remote players, keyed by identifier. The local
  player is held apart from that registry. The scheduled `update` counts
  ticks, sends a "sync" snapshot every SYNC_LIMIT ticks and keeps the local
  player inside the game area.
- **Weapon broadcasts.** `Weapon::broadCastToken` and
  `Weapon::broadCastDropped` build the payloads that announce a weapon
  taken or dropped. `reload` and `getId` are modelled too.

The scene is an immutable record (`GameScene.Scene`). Every handler, contact
and tick is a pure function from the old scene to the new one. Every
socket send is appended to an `outbox` sequence of `Event(name, payload)`
values.

Files, one module each:

- `wire.dfy` (`Wire`): option type, JSON scalars, payloads and events.
- `geometry.dfy` (`Geometry`): vectors, `std::min`/`std::max`, and the
  bounding of a sprite inside the area.
- `weapon.dfy` (`Weapons`): the weapon record and its operations, plus the
  `Weapons` pool lookup.
- `player.dfy` (`Players`): the player operations the scene calls.
- `scene.dfy` (`GameScene`): the scene record, the socket handlers,
  `gameOver` and `update`.
- `contact.dfy` (`Contacts`): bodies, `_handleContact`, the three
  `handleContact` overloads and `onContactBegin`.
- `protocol.dfy` (`Protocol`): what a peer makes of the events one client
  sends, and lemmas showing that the sender's view and a peer's view of the
  sender stay in step.

Modelling choices:

- **Player operations.** Player.cpp and HealPack.cpp are not part of this
  model. The scene calls `Player::create`, `damage`, `heal`, `takeWeapon`,
  `dropWeapon`, `sync`, `createSyncData`, `broadcastHit`, `broadcastDead`
  and `HealPack::broadcastEaten`. Each is given the simplest definition
  that fits how the scene uses it:
  - `damage` lowers health, never below zero, and reports survival while
    health stays positive;
  - `heal` caps health at the maximum;
  - a snapshot carries `x`, `y`, `vx` and `vy`;
  - a broadcast carries a `type` field naming the inbound event it becomes.

  `Players.SyncRoundTrip` shows that applying a player's own snapshot
  reproduces its position and velocity.
- **Values that come from elsewhere.** SYNC_LIMIT comes from
  `utils/global.h`, which is not part of this model. The game area, the
  player's on-screen size and its full health come from sprites and from
  Player.cpp. All four are fields of `GameScene.Config`. Every property
  holds for any value of them, with two exceptions: `GameScene.SyncCadence`
  needs a SYNC_LIMIT of at least one, and
  `GameScene.OutOfBoundsCorrectedNextTick` needs a sprite no wider than the
  area.
- **Coordinates.** Coordinates and health are reals. Float rounding is not
  modelled.
- **The tick counter.** `update` keeps `frameCounter` as a function-static
  variable, shared by every `GameScene` of the process. Here it is the scene
  field `frameCounter`.
- **The relay server.** The server that forwards one client's events to
  the others is not part of this repository. `Protocol.Relay` states the
  forwarding that the inbound handlers depend on:
  - a "broadcast" arrives as the event its `type` field names, with `from`
    set to the sender;
  - a "sync" arrives as a one-entry batch under the sender's id.

Behaviour of the code worth noting, which the model follows:

- `onContactBegin` itself does not check `started`. In the program no
  contact can happen before `initData`: the physics world never steps on
  its own (GameScene.cpp:13), its only `step` is in `update` behind the
  `started` guard, and no player body exists before `initData` creates one.
  `Contacts.OnContactBegin` accepts any scene, started or not, so it is more
  permissive than the program.
- `gameOver` zeroes the collision, contact-test and category masks of the
  local player's body, after which the engine reports no contact with it.
  In the model the `masks` field affects nothing: `Contacts.OnContactBegin`
  still accepts a contact with the dead local player, and a second bullet
  would broadcast another hit and another death. Here too the model is more
  permissive than the program.
- A player-heal-pack contact heals whichever player touched the pack, local
  or remote, and announces the pack eaten. This holds while a local player
  exists; see `Contacts.OnPlayerHealPack` under "Left out".
- Without a local player, `update` still steps physics and increments the
  counter. It resets the counter only when a local player exists.
- `hit` looks its target up with `getPlayerById`, which searches only the
  remote registry. A hit naming the local player's own id changes nothing.
- `initData` inserts with `std::map::insert`. An id already present keeps
  its entry, and the registry is not cleared first. So a second `initData`
  can name as `selfId` an id that is already a key of the registry.
  `GameScene.DispatchKeepsSelfApart` carries that exception as a
  precondition.
- `onContactBegin` returns false on every path. What the engine does with
  that value is outside the model.

## Model

| member | source | states |
|---|---|---|
| Weapons.Reload | front-end/Classes/Sprite/weapon/Weapon.cpp:23-28 | after reload the weapon is enabled, and its id and class are unchanged |
| Weapons.ReloadKeepsId | front-end/Classes/Sprite/weapon/Weapon.cpp:15-28 | `getId` reports the same id before and after a reload; reloading twice is the same as reloading once |
| Weapons.BroadCastToken | front-end/Classes/Sprite/weapon/Weapon.cpp:30-36 | one event named "broadcast"; its payload has exactly the keys `type` and `weaponId`; `type` is "takeWeapon" and `weaponId` is the weapon's own id |
| Weapons.BroadCastDropped | front-end/Classes/Sprite/weapon/Weapon.cpp:38-43 | one event named "broadcast" whose payload is only `type` = "dropWeapon", with no weapon id |
| Weapons.GetIdFindsPooled | front-end/Classes/Sprite/weapon/Weapon.cpp:15-17 | in a pool that files every weapon under its own id, looking up the id `getId` reports finds a weapon iff that weapon is pooled, and then finds that very weapon |
| Weapons.GetById | front-end/Classes/Sprite/weapon/Weapons.h:11 | the lookup finds a weapon exactly when the id is in the pool, and then finds the pooled weapon |
| Weapons.TokenNamesWeapon | front-end/Classes/Sprite/weapon/Weapon.cpp:34 | a client that looks up the `weaponId` of a token in a pool agreeing with the sender's finds the very weapon the sender took |
| Geometry.ClampAxis | front-end/Classes/GameScene.cpp:170-173 | the bounded coordinate lies in [size/2, extent − size/2] when the sprite fits; it is exactly size/2 when the sprite is larger than the area, because `min` is applied before `max`; an in-range coordinate is unchanged |
| Geometry.ClampAxisIdempotent | front-end/Classes/GameScene.cpp:170-173 | bounding one axis twice is the same as bounding it once |
| Geometry.Clamp | front-end/Classes/GameScene.cpp:168-174 | both axes of the bounded position lie in the area on every axis where the sprite fits; a position already inside is unchanged |
| Geometry.ClampIdempotent | front-end/Classes/GameScene.cpp:168-174 | bounding a position twice is the same as bounding it once |
| GameScene.Initial | front-end/Classes/GameScene.cpp:30-48 | a fresh scene is not started, is alive with input attached, has no players, no bullets, no heal packs and a zero counter, and holds the two weapons "123456" and "123457", each filed under the id it reports |
| GameScene.GetPlayerById | front-end/Classes/GameScene.cpp:352-356 | the lookup finds a player exactly when the id is a registry key, and then finds that entry; otherwise it returns none |
| GameScene.LookupNeverYieldsSelf | front-end/Classes/GameScene.cpp:352-356 | while the local player is held apart, looking up its own id finds nothing |
| GameScene.AddPlayers | front-end/Classes/GameScene.cpp:59-75 | registry keys after the loop are the old keys plus every listed id other than `selfId`; old entries are kept; new entries are fresh remote placeholders; the local player is created at `selfPos` if its id is listed and is otherwise untouched |
| GameScene.AddPacks | front-end/Classes/GameScene.cpp:77-81 | every listed heal pack enters the pool; packs not listed keep their amount |
| GameScene.OnInitData | front-end/Classes/GameScene.cpp:58-83 | afterwards the session is started and `selfId` recorded; `selfId` is a registry key only if it already was; every other listed id is a key, a new key holding a fresh placeholder and an existing one keeping its entry; when `selfId` is listed, the local player is created at `selfPos`, otherwise it is untouched; every listed pack enters the pool and unlisted packs keep their amounts; nothing else changes, so nothing is sent and the counter and input listeners are untouched |
| GameScene.InitDataFromFresh | front-end/Classes/GameScene.cpp:58-83 | from a fresh scene, `initData` leaves exactly the other listed ids in the registry, keeps the local player out of it, and, when `selfId` is listed, places the local player at `selfPos` |
| GameScene.ApplyEntry | front-end/Classes/GameScene.cpp:95-100 | a batch entry for a known id syncs that player only; an entry for an unknown id changes nothing; the key set is unchanged |
| GameScene.SyncPlayers | front-end/Classes/GameScene.cpp:88-101 | a batch never changes the registry's key set |
| GameScene.SyncLeavesUnnamed | front-end/Classes/GameScene.cpp:88-101 | a batch leaves every registered player it does not name untouched |
| GameScene.SyncConcat | front-end/Classes/GameScene.cpp:88-101 | handling two batches in turn is the same as handling their concatenation, because entries are applied in arrival order |
| GameScene.SyncLastWins | front-end/Classes/GameScene.cpp:88-101 | for a known id, the last entry naming it, even when entries for other ids follow, is the snapshot applied to that player last |
| GameScene.SyncSkipsUnknown | front-end/Classes/GameScene.cpp:95-97 | an entry whose id is not in the registry, such as the local player's own echo, can be dropped from anywhere in the batch without changing the outcome |
| GameScene.OnSync | front-end/Classes/GameScene.cpp:87-102 | the `sync` handler keeps the key set, leaves players not in the batch untouched, and changes nothing but the registry |
| GameScene.OnBullet | front-end/Classes/GameScene.cpp:105-111 | while every bullet handle is older than the next one to be issued, a remote shot adds exactly one bullet the scene did not hold and keeps that invariant; nothing else changes |
| GameScene.BulletsStayFresh | front-end/Classes/GameScene.cpp:51-175 | every inbound event, as `Dispatch` delivers it (with the corrected `dropWeapon`), and every tick keeps all bullet handles older than the next one to be issued |
| GameScene.OnHit | front-end/Classes/GameScene.cpp:113-117 | the `hit` handler damages the registered player named by `from` and no other; an unknown `from`, the local player's own id included, changes nothing |
| GameScene.OnDead | front-end/Classes/GameScene.cpp:119-126 | the `dead` handler removes exactly the key `from`; other entries are untouched; an absent key is a no-op |
| GameScene.DeadIdempotent | front-end/Classes/GameScene.cpp:119-126 | a repeated `dead` for the same id changes nothing more, and the id is no longer found |
| GameScene.RemovePack | front-end/Classes/GameScene.cpp:128-130 | eating a pack removes exactly that id from the pool |
| GameScene.EatPackIdempotent | front-end/Classes/GameScene.cpp:128-130 | a duplicate `eatPack` is harmless |
| GameScene.OnTakeWeapon | front-end/Classes/GameScene.cpp:132-138 | the registered player `from` is armed with the pooled weapon `weaponId` when both exist, and nothing else about it or any other player changes; otherwise nothing changes |
| GameScene.OnDropWeaponAsWritten | front-end/Classes/GameScene.cpp:140-145 | the handler as written faults iff `from` is registered and its copy is unarmed, because the null weapon goes to `addChild`; in every other case it agrees with `GameScene.OnDropWeapon` |
| GameScene.LateJoinerDropFaults | front-end/Classes/GameScene.cpp:70-73 | a copy created by `initData` is unarmed, so the handler as written faults on that player's next drop, where the corrected handler changes nothing |
| GameScene.OnDropWeapon | front-end/Classes/GameScene.cpp:140-145 | with the null check of the keyboard handler (GameScene.cpp:193-194): the registered player `from` ends as it was but unarmed; an unarmed copy or an unknown id is a no-op; other players and the key set are untouched |
| GameScene.Dispatch | front-end/Classes/GameScene.cpp:51-145 | each inbound event goes to its handler, except that `dropWeapon` goes to the corrected `GameScene.OnDropWeapon` (see "Findings"); no inbound handler sends anything, touches the counter or ends the game; only `initData` changes the local player or `started`; no handler but `initData` adds registry keys |
| GameScene.DispatchKeepsSelfApart | front-end/Classes/GameScene.cpp:51-145 | every inbound event, with the corrected `dropWeapon`, keeps `selfId` out of the registry, unless an `initData` names as `selfId` an id already registered |
| GameScene.GameOver | front-end/Classes/GameScene.cpp:305-315 | input listeners are detached, the session is marked dead, and the local player is kept but made invisible with all three physics masks zero |
| GameScene.Tick | front-end/Classes/GameScene.cpp:152-175 | nothing happens before start; without a local player only the counter moves; with one, exactly one "sync" event carrying the pre-bounding snapshot is sent iff the incremented counter equals SYNC_LIMIT, a counter in [0, SYNC_LIMIT) stays there, and the local player ends at its position bounded by the area (so at size/2 on an axis it does not fit), inside the area on every axis it fits, unmoved if it was already inside |
| GameScene.QuietTicks | front-end/Classes/GameScene.cpp:157-165 | ticks that do not bring the counter to SYNC_LIMIT send nothing and advance the counter by one each |
| GameScene.OverrunTicksQuiet | front-end/Classes/GameScene.cpp:156-165 | once the counter has passed SYNC_LIMIT, for instance after ticks without a local player, every later tick sends nothing and only counts up |
| GameScene.SyncCadence | front-end/Classes/GameScene.cpp:157-165 | from a reset counter, SYNC_LIMIT ticks send exactly one "sync" event and leave the counter reset |
| GameScene.OutOfBoundsCorrectedNextTick | front-end/Classes/GameScene.cpp:168-174 | a local player beyond the right edge is at `area.x − w/2` after the next tick |
| Contacts.OnPlayerBullet | front-end/Classes/GameScene.cpp:275-288 | the bullet is always removed; a remote player's hit changes nothing else; the local player's hit sends a hit of 20 and then applies it; if the player does not survive, a death broadcast follows and the game is over, with the player invisible, zero masks and zero health and nothing else in the scene changed |
| Contacts.OnPlayerHealPack | front-end/Classes/GameScene.cpp:290-295 | the touching player, local or remote, is healed by the pack's amount and no other player changes; the pack is announced eaten and leaves the pool, and every other pack keeps its amount |
| Contacts.OnPlayerWeapon | front-end/Classes/GameScene.cpp:297-303 | iff the player is the local one and unarmed, it takes the weapon and the take-weapon token is sent; otherwise scene and outbox are unchanged |
| Contacts.HandleContact | front-end/Classes/GameScene.cpp:275-303 | no contact effect changes the registry's key set or `selfId` |
| Contacts.HandlePair | front-end/Classes/GameScene.cpp:334-345 | the attempt matches iff (node1:T1, node2:T2) or (node2:T1, node1:T2); the handler gets (node1, node2) in the first case and (node2, node1) in the second, so the T1 body is always first; no match leaves the scene unchanged |
| Contacts.HandlePairSymmetric | front-end/Classes/GameScene.cpp:334-345 | for two distinct classes the attempt does not depend on the order the bodies were reported in |
| Contacts.OnContactBegin | front-end/Classes/GameScene.cpp:244-256 | it returns false on every path; the bullet handler fires iff the pair is player-bullet, the heal-pack handler iff it is not that but player-heal-pack, the weapon handler iff neither but player-weapon; at most one handler runs, and with none the scene is unchanged |
| Contacts.ContactKeepsBulletsFresh | front-end/Classes/GameScene.cpp:244-303 | no contact issues a bullet handle, so every handle stays older than the next one to be issued |
| Contacts.ContactOrderIrrelevant | front-end/Classes/GameScene.cpp:244-256 | swapping the two bodies of a contact gives the same outcome |
| Contacts.BulletContactRemovesBullet | front-end/Classes/GameScene.cpp:275-278 | a player-bullet contact removes the bullet, whichever body came first |
| Contacts.ArmedSelfIgnoresWeapon | front-end/Classes/GameScene.cpp:297-303 | an armed local player touching a weapon changes nothing and sends nothing, in either order |
| Contacts.LethalHitEndsGame | front-end/Classes/GameScene.cpp:279-285 | a local player with at most 20 health dies of a bullet: a hit and then a death are sent, input is detached, and the player is left with zero health and zero masks |
| Protocol.TakeWeaponSeenByPeer | front-end/Classes/GameScene.cpp:132-138 | after the local player takes a weapon, a peer that applies the relayed token arms its copy of the sender with the same weapon |
| Protocol.DropSeenByPeer | front-end/Classes/GameScene.cpp:140-145 | a peer that applies a relayed drop broadcast disarms its copy of the sender; the handler as written reaches the same scene iff the peer's copy was armed, and faults otherwise |
| Protocol.HitSeenByPeer | front-end/Classes/GameScene.cpp:113-117 | after a non-lethal hit, a peer whose copy of the sender had the same health ends with the same health as the sender |
| Protocol.DeathSeenByPeer | front-end/Classes/GameScene.cpp:119-126 | after a lethal hit, a peer that applies the relayed hit and death no longer registers the sender |
| Protocol.EatenSeenByPeer | front-end/Classes/GameScene.cpp:128-130 | a heal pack eaten by one client also leaves the pool of a peer that applies the relayed announcement |
| Protocol.SyncSeenByPeer | front-end/Classes/GameScene.cpp:95-100 | a snapshot sent by a tick puts a peer's copy of the sender where the sender stood before the tick's bounding, with the sender's velocity |

## Findings

| source | as written | input that shows it | evidently intended | confidence | as-written member | corrected member |
|---|---|---|---|---|---|---|
| front-end/Classes/GameScene.cpp:140-145 | the `dropWeapon` handler passes `player->dropWeapon()` to `addChild` without the null check the keyboard handler makes at lines 193-194 | a client whose `initData` listed a peer that had already taken a weapon holds an unarmed copy of it; the peer's next drop makes `dropWeapon` return null and `addChild(nullptr)` fault | skip `addChild` when no weapon comes back, leaving the copy unarmed | medium, not executed | GameScene.OnDropWeaponAsWritten, GameScene.LateJoinerDropFaults | GameScene.OnDropWeapon |

## Left out

- The socket wrapper (`GameSocket`): connection, JSON encoding and decoding,
  and handler registration. Only its header is visible. Inbound events
  arrive here already decoded as `GameScene.Inbound`. Outbound sends are
  appends to the outbox.
- The physics step is opaque and treated as changing nothing. Contacts are
  given as calls to `Contacts.OnContactBegin`.
- Rendering and engine glue: labels and `sprintf` formatting, the camera
  `Follow`, the `Boom` effect, scene and background construction,
  z-ordering, and listener registration.
- Input handling (`onKeyPressed`, `onKeyReleased`, `onMouseMove`,
  `onMouseDown`). It is device handling with float angles. `gameOver`'s
  detaching of listeners is kept as the `inputListeners` flag.
- The kinematics of the `bullet` handler (file, position, angle, speed).
  Only the bullet's arrival in the scene is modelled.
- The positions at which `init` places the two weapons, and where a dropped
  weapon lands in the scene graph. Weapons are tracked only in the pool and
  in players' hands.
- `Pistol`, `Uzi` and `Weapons::create`: declarations only. Their `fire`
  and `reload` overrides have no visible body. `Weapon::getCurrent` and the
  static weapon parameters feed only the weapon label.
- `HealPack::create` and `HealPack::remove` internals. The pool is a map
  from pack id to healing amount. A repeated descriptor overwrites.
- Contacts.OnPlayerHealPack: with no local player, the source heals the
  touching player and then faults in `updateHpLabel`, which dereferences the
  missing local player, before the pack is announced or removed. The model
  heals, announces and removes instead. A started scene without a local
  player arises only from an `initData` that does not list `selfId`.
- GameScene.Initial: the counter of a fresh scene is zero only for the
  first `GameScene` of the process. The function-static counter carries
  over into any later scene, and the model does not track that.
- GameScene.Tick: does not model the 32-bit wrap-around of the `int`
  counter. The wrap matters after a first `initData` that leaves out
  `selfId`: ticks then push the counter past SYNC_LIMIT, and a later
  `initData` that creates the local player does not reset it. From then on
  the counter only grows, and no "sync" is sent until it wraps
  (`GameScene.OverrunTicksQuiet`). The model never wraps, so it never sends
  one.
- GameScene.Initial: `init` does not set `started` or `alive`. Their
  starting values, not started and alive, come from the class header,
  which is not part of this model.
- Players.Damage, Players.Heal, Players.Sync, Players.CreateSyncData: these
  are the simplest definitions consistent with the scene's use, not the
  bodies in Player.cpp, which is not part of this model.
