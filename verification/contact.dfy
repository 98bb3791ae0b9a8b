/** Contact resolution: the physics engine reports two bodies per contact in
    no particular order; `onContactBegin` finds which typed `handleContact`
    overload applies, if any, and calls it once with the player first. */
module Contacts {
  import opened Wire
  import Weapons
  import Players
  import opened GameScene

  /** Which player a player body belongs to: the local one, or the remote one
      registered under `id`. */
  datatype PlayerRef = SelfRef | RemoteRef(id: string)

  /** The node behind a physics body, tagged with its class. A heal pack
      carries its identifier and healing amount, a weapon its state. */
  datatype Body =
    | PlayerN(who: PlayerRef)
    | BulletN(bid: nat)
    | HealPackN(packId: string, hp: real)
    | WeaponN(weapon: Weapons.Weapon)
    | OtherN

  /** The classes the resolver tests for. */
  datatype Kind = PlayerK | BulletK | HealPackK | WeaponK

  /** `isType<T>(node)`. */
  predicate IsType(k: Kind, b: Body)
  {
    match k
    case PlayerK => b.PlayerN?
    case BulletK => b.BulletN?
    case HealPackK => b.HealPackN?
    case WeaponK => b.WeaponN?
  }

  /** The unordered pair {n1, n2} is one body of class `k1` and one of class `k2`. */
  predicate Matches(k1: Kind, k2: Kind, n1: Body, n2: Body)
  {
    (IsType(k1, n1) && IsType(k2, n2)) || (IsType(k1, n2) && IsType(k2, n1))
  }

  /** Whether the local player is the one behind `who`: the pointer
      comparison `player == selfPlayer`. */
  predicate IsSelf(s: Scene, who: PlayerRef)
  {
    who.SelfRef? && s.selfPlayer.Some?
  }

  /** What damage does to the local player in a player-bullet contact. */
  function SelfHit(s: Scene): (d: Players.Damaged)
    requires s.selfPlayer.Some?
  {
    Players.Damage(s.selfPlayer.value, HIT_DAMAGE)
  }

  /** `handleContact(Player*, Bullet*)`. The bullet is always removed. Only
      when the player is the local one is a hit of 20 broadcast and then
      applied; if the player does not survive it, a death broadcast follows
      and the game is over. */
  function OnPlayerBullet(s: Scene, who: PlayerRef, bid: nat): (r: Scene)
    ensures r.bullets == s.bullets - {bid}
    ensures !IsSelf(s, who) ==> r == s.(bullets := s.bullets - {bid})
    ensures IsSelf(s, who) && SelfHit(s).survived ==>
      && r.outbox == s.outbox + [Players.BroadcastHit(HIT_DAMAGE)]
      && r == s.(bullets := r.bullets, outbox := r.outbox, selfPlayer := Some(SelfHit(s).player))
    ensures IsSelf(s, who) && !SelfHit(s).survived ==>
      && r.outbox == s.outbox + [Players.BroadcastHit(HIT_DAMAGE), Players.BroadcastDead()]
      && !r.alive && !r.inputListeners
      && r.selfPlayer.Some? && !r.selfPlayer.value.visible && r.selfPlayer.value.masks == Players.NO_MASKS
      && r.selfPlayer.value.hp == 0.0
      && r.selfPlayer.value == SelfHit(s).player.(visible := false, masks := Players.NO_MASKS)
      && r == s.(bullets := r.bullets, outbox := r.outbox, alive := false, inputListeners := false,
                 selfPlayer := r.selfPlayer)
    ensures r.otherPlayers == s.otherPlayers && r.started == s.started && r.frameCounter == s.frameCounter
  {
    var removed := s.(bullets := s.bullets - {bid});
    if !IsSelf(removed, who) then removed
    else
      var announced := removed.(outbox := removed.outbox + [Players.BroadcastHit(HIT_DAMAGE)]);
      var d := Players.Damage(announced.selfPlayer.value, HIT_DAMAGE);
      var damaged := announced.(selfPlayer := Some(d.player));
      if d.survived then damaged
      else GameOver(damaged.(outbox := damaged.outbox + [Players.BroadcastDead()]))
  }

  /** `HealPack::broadcastEaten` (HealPack.cpp is not part of this model). */
  function BroadcastEaten(packId: string): (e: Event)
    ensures e.name == "broadcast"
    ensures StrField(e.payload, "type") == Some("eatPack")
    ensures StrField(e.payload, "packId") == Some(packId)
  {
    Event("broadcast", map["type" := Str("eatPack"), "packId" := Str(packId)])
  }

  /** `handleContact(Player*, HealPack*)`: whichever player touched the pack,
      local or remote, is healed by the pack's amount; the pack is announced
      eaten and removed from the pool. */
  function OnPlayerHealPack(s: Scene, who: PlayerRef, packId: string, hp: real): (r: Scene)
    ensures r.healPacks.Keys == s.healPacks.Keys - {packId}
    ensures forall k :: k in r.healPacks ==> r.healPacks[k] == s.healPacks[k]
    ensures r.outbox == s.outbox + [BroadcastEaten(packId)]
    ensures r.otherPlayers.Keys == s.otherPlayers.Keys
    ensures IsSelf(s, who) ==>
      r.selfPlayer == Some(Players.Heal(s.selfPlayer.value, hp)) && r.otherPlayers == s.otherPlayers
    ensures who.RemoteRef? && who.id in s.otherPlayers ==>
      && r.otherPlayers[who.id] == Players.Heal(s.otherPlayers[who.id], hp)
      && r.selfPlayer == s.selfPlayer
    ensures !IsSelf(s, who) ==> r.selfPlayer == s.selfPlayer
    ensures forall k :: k in s.otherPlayers && who != RemoteRef(k) ==> r.otherPlayers[k] == s.otherPlayers[k]
    ensures r == s.(healPacks := r.healPacks, outbox := r.outbox,
                    selfPlayer := r.selfPlayer, otherPlayers := r.otherPlayers)
  {
    var healed :=
      match who
      case SelfRef =>
        if s.selfPlayer.Some? then s.(selfPlayer := Some(Players.Heal(s.selfPlayer.value, hp))) else s
      case RemoteRef(id) =>
        if id in s.otherPlayers then s.(otherPlayers := s.otherPlayers[id := Players.Heal(s.otherPlayers[id], hp)]) else s;
    var announced := healed.(outbox := healed.outbox + [BroadcastEaten(packId)]);
    RemovePack(announced, packId)
  }

  /** `handleContact(Player*, Weapon*)`: the local player, when unarmed, takes
      the weapon and announces it; any other contact changes nothing. */
  function OnPlayerWeapon(s: Scene, who: PlayerRef, w: Weapons.Weapon): (r: Scene)
    ensures !(IsSelf(s, who) && s.selfPlayer.value.weapon.None?) ==> r == s
    ensures IsSelf(s, who) && s.selfPlayer.value.weapon.None? ==>
      && r.selfPlayer.Some? && r.selfPlayer.value.weapon == Some(w)
      && r.selfPlayer.value == s.selfPlayer.value.(weapon := Some(w))
      && r.outbox == s.outbox + [Weapons.BroadCastToken(w)]
      && r == s.(selfPlayer := r.selfPlayer, outbox := r.outbox)
  {
    if IsSelf(s, who) && s.selfPlayer.value.weapon.None? then
      s.(selfPlayer := Some(Players.TakeWeapon(s.selfPlayer.value, w)),
         outbox := s.outbox + [Weapons.BroadCastToken(w)])
    else s
  }

  /** The three `handleContact` overloads, chosen by the classes of the
      arguments; the player always comes first. */
  function HandleContact(s: Scene, first: Body, second: Body): (r: Scene)
    ensures r.otherPlayers.Keys == s.otherPlayers.Keys && r.selfId == s.selfId
    ensures r.bullets <= s.bullets && r.nextBullet == s.nextBullet
  {
    match (first, second)
    case (PlayerN(who), BulletN(bid)) => OnPlayerBullet(s, who, bid)
    case (PlayerN(who), HealPackN(packId, hp)) => OnPlayerHealPack(s, who, packId, hp)
    case (PlayerN(who), WeaponN(w)) => OnPlayerWeapon(s, who, w)
    case _ => s
  }

  /** The outcome of one `_handleContact<T1, T2>` attempt. */
  datatype Attempt = Attempt(handled: bool, scene: Scene)

  /** `_handleContact<T1, T2>(node1, node2)`: if node1 is a `k1` and node2 a
      `k2`, the handler gets (node1, node2); else if node2 is a `k1` and node1
      a `k2`, it gets (node2, node1). Either way the `k1` body comes first.
      The attempt reports whether either test matched. */
  function HandlePair(s: Scene, k1: Kind, k2: Kind, n1: Body, n2: Body): (r: Attempt)
    ensures r.handled <==> Matches(k1, k2, n1, n2)
    ensures IsType(k1, n1) && IsType(k2, n2) ==> r.scene == HandleContact(s, n1, n2)
    ensures !(IsType(k1, n1) && IsType(k2, n2)) && IsType(k1, n2) && IsType(k2, n1) ==>
      r.scene == HandleContact(s, n2, n1)
    ensures !r.handled ==> r.scene == s
    ensures r.scene.otherPlayers.Keys == s.otherPlayers.Keys && r.scene.selfId == s.selfId
    ensures r.scene.bullets <= s.bullets && r.scene.nextBullet == s.nextBullet
  {
    if IsType(k1, n1) && IsType(k2, n2) then Attempt(true, HandleContact(s, n1, n2))
    else if IsType(k1, n2) && IsType(k2, n1) then Attempt(true, HandleContact(s, n2, n1))
    else Attempt(false, s)
  }

  /** For two distinct classes the attempt does not depend on which body the
      engine reported first. */
  lemma HandlePairSymmetric(s: Scene, k1: Kind, k2: Kind, n1: Body, n2: Body)
    requires k1 != k2
    ensures HandlePair(s, k1, k2, n1, n2) == HandlePair(s, k1, k2, n2, n1)
  {
    if IsType(k1, n1) && IsType(k2, n2) {
      assert !IsType(k1, n2);
    } else if IsType(k1, n2) && IsType(k2, n1) {
      assert !IsType(k1, n1);
    }
  }

  /** Which handler, if any, a contact reached. */
  datatype Fired = NoHandler | BulletHandler | HealPackHandler | WeaponHandler

  /** The value `onContactBegin` returns to the engine, the handler it
      reached and the resulting scene. */
  datatype ContactResult = ContactResult(accept: bool, fired: Fired, scene: Scene)

  /** `onContactBegin`: tries player-bullet, then player-heal-pack, then
      player-weapon, stopping at the first pair that matches, and returns
      false on every path. It does not look at `started`. */
  function OnContactBegin(s: Scene, n1: Body, n2: Body): (r: ContactResult)
    ensures !r.accept
    ensures r.fired == BulletHandler <==> Matches(PlayerK, BulletK, n1, n2)
    ensures r.fired == HealPackHandler <==>
      !Matches(PlayerK, BulletK, n1, n2) && Matches(PlayerK, HealPackK, n1, n2)
    ensures r.fired == WeaponHandler <==>
      !Matches(PlayerK, BulletK, n1, n2) && !Matches(PlayerK, HealPackK, n1, n2) && Matches(PlayerK, WeaponK, n1, n2)
    ensures r.fired == NoHandler ==> r.scene == s
    ensures r.fired == BulletHandler ==> r.scene == HandlePair(s, PlayerK, BulletK, n1, n2).scene
    ensures r.fired == HealPackHandler ==> r.scene == HandlePair(s, PlayerK, HealPackK, n1, n2).scene
    ensures r.fired == WeaponHandler ==> r.scene == HandlePair(s, PlayerK, WeaponK, n1, n2).scene
    ensures r.scene.otherPlayers.Keys == s.otherPlayers.Keys && r.scene.selfId == s.selfId
    ensures r.scene.bullets <= s.bullets && r.scene.nextBullet == s.nextBullet
  {
    var bullet := HandlePair(s, PlayerK, BulletK, n1, n2);
    if bullet.handled then ContactResult(false, BulletHandler, bullet.scene)
    else
      var pack := HandlePair(s, PlayerK, HealPackK, n1, n2);
      if pack.handled then ContactResult(false, HealPackHandler, pack.scene)
      else
        var weapon := HandlePair(s, PlayerK, WeaponK, n1, n2);
        if weapon.handled then ContactResult(false, WeaponHandler, weapon.scene)
        else ContactResult(false, NoHandler, s)
  }

  /** The resolver's outcome does not depend on the order the engine reported the bodies in. */
  lemma ContactOrderIrrelevant(s: Scene, n1: Body, n2: Body)
    ensures OnContactBegin(s, n1, n2) == OnContactBegin(s, n2, n1)
  {
    HandlePairSymmetric(s, PlayerK, BulletK, n1, n2);
    HandlePairSymmetric(s, PlayerK, HealPackK, n1, n2);
    HandlePairSymmetric(s, PlayerK, WeaponK, n1, n2);
  }

  /** No contact issues a bullet handle, so contacts keep every handle older
      than `nextBullet`. */
  lemma ContactKeepsBulletsFresh(s: Scene, n1: Body, n2: Body)
    requires BulletsFresh(s)
    ensures BulletsFresh(OnContactBegin(s, n1, n2).scene)
  {
  }

  /** A player-bullet contact, in either order, removes the bullet. */
  lemma BulletContactRemovesBullet(s: Scene, who: PlayerRef, bid: nat)
    ensures OnContactBegin(s, PlayerN(who), BulletN(bid)).scene.bullets == s.bullets - {bid}
    ensures OnContactBegin(s, BulletN(bid), PlayerN(who)).scene.bullets == s.bullets - {bid}
  {
  }

  /** An armed local player touching a weapon changes nothing and sends nothing. */
  lemma ArmedSelfIgnoresWeapon(s: Scene, w: Weapons.Weapon)
    requires s.selfPlayer.Some? && s.selfPlayer.value.weapon.Some?
    ensures OnContactBegin(s, PlayerN(SelfRef), WeaponN(w)).scene == s
    ensures OnContactBegin(s, WeaponN(w), PlayerN(SelfRef)).scene == s
  {
  }

  /** A local player with no more health than one hit dies of a bullet: a
      hit and then a death are broadcast, and the game is over. */
  lemma LethalHitEndsGame(s: Scene, bid: nat)
    requires s.selfPlayer.Some? && s.selfPlayer.value.hp <= HIT_DAMAGE
    ensures var r := OnContactBegin(s, PlayerN(SelfRef), BulletN(bid)).scene;
      && r.outbox == s.outbox + [Players.BroadcastHit(HIT_DAMAGE), Players.BroadcastDead()]
      && !r.alive && !r.inputListeners && r.selfPlayer.value.hp == 0.0
      && r.selfPlayer.value.masks == Players.NO_MASKS
  {
  }
}
