/** What a peer makes of the events one client sends. The server that
    forwards them is not part of this repository; `Relay` states the
    forwarding the inbound handlers rely on, and the lemmas below show that
    the sender's own view and a peer's view of the sender move in step. */
module Protocol {
  import opened Wire
  import Weapons
  import Players
  import opened GameScene
  import opened Contacts

  /** The server's forwarding, as the inbound handlers read it: a "sync"
      snapshot arrives as a one-entry batch under the sender's id; a
      "broadcast" arrives as the event its `type` field names, with `from`
      set to the sender and the remaining fields passed through. Anything
      else, or a broadcast missing a field its handler reads, reaches no
      handler. */
  function Relay(e: Event, sender: string): (r: Option<Inbound>)
    ensures e.name == "sync" ==> r == Some(SyncBatch([SyncEntry(sender, e.payload)]))
    ensures e.name != "sync" && e.name != "broadcast" ==> r == None
    ensures r.Some? ==> !r.value.InitData?
  {
    if e.name == "sync" then Some(SyncBatch([SyncEntry(sender, e.payload)]))
    else if e.name != "broadcast" then None
    else
      var kind := StrField(e.payload, "type");
      if kind == Some("takeWeapon") then
        (match StrField(e.payload, "weaponId")
         case Some(wid) => Some(TakeWeapon(sender, wid))
         case None => None)
      else if kind == Some("dropWeapon") then Some(DropWeapon(sender))
      else if kind == Some("hit") then
        (if "damage" in e.payload && e.payload["damage"].Num? then Some(Hit(e.payload["damage"].n, sender)) else None)
      else if kind == Some("dead") then Some(Dead(sender))
      else if kind == Some("eatPack") then
        (match StrField(e.payload, "packId")
         case Some(pid) => Some(EatPack(pid))
         case None => None)
      else None
  }

  /** A peer handling, in order, whatever the server forwards of `events`,
      through `Dispatch`, so a drop goes to the corrected handler. */
  function Deliver(peer: Scene, events: seq<Event>, sender: string): (r: Scene)
    ensures r.outbox == peer.outbox && r.frameCounter == peer.frameCounter
    ensures r.selfPlayer == peer.selfPlayer && r.selfId == peer.selfId && r.started == peer.started
    ensures r.alive == peer.alive && r.cfg == peer.cfg
    ensures r.otherPlayers.Keys <= peer.otherPlayers.Keys
    decreases |events|
  {
    if events == [] then peer
    else
      var next := match Relay(events[0], sender)
        case None => peer
        case Some(m) => Dispatch(peer, m);
      Deliver(next, events[1..], sender)
  }

  /** A peer applying a relayed take-weapon token arms its copy of the sender
      with the very weapon the sender took. */
  lemma TakeWeaponSeenByPeer(sender: Scene, w: Weapons.Weapon, senderId: string, peer: Scene)
    requires sender.selfPlayer.Some? && sender.selfPlayer.value.weapon.None?
    requires senderId in peer.otherPlayers && w.id in peer.weapons && peer.weapons[w.id] == w
    ensures var r := OnPlayerWeapon(sender, SelfRef, w);
      var sent := r.outbox[|sender.outbox|..];
      && r.selfPlayer.Some? && r.selfPlayer.value.weapon == Some(w)
      && senderId in Deliver(peer, sent, senderId).otherPlayers
      && Deliver(peer, sent, senderId).otherPlayers[senderId].weapon == Some(w)
  {
    var r := OnPlayerWeapon(sender, SelfRef, w);
    var sent := r.outbox[|sender.outbox|..];
    assert sent == [Weapons.BroadCastToken(w)];
    Weapons.TokenNamesWeapon(peer.weapons, w);
    var m := Relay(sent[0], senderId);
    assert m == Some(TakeWeapon(senderId, w.id));
    assert Deliver(peer, sent, senderId) == Deliver(Dispatch(peer, m.value), [], senderId);
  }

  /** A peer applying a relayed drop broadcast disarms its copy of the
      sender. The handler as written reaches the same scene exactly when the
      peer's copy was armed, and faults otherwise. */
  lemma DropSeenByPeer(w: Weapons.Weapon, senderId: string, peer: Scene)
    requires senderId in peer.otherPlayers
    ensures senderId in Deliver(peer, [Weapons.BroadCastDropped(w)], senderId).otherPlayers
    ensures Deliver(peer, [Weapons.BroadCastDropped(w)], senderId).otherPlayers[senderId].weapon.None?
    ensures peer.otherPlayers[senderId].weapon.Some? <==>
      OnDropWeaponAsWritten(peer, senderId) == Some(Deliver(peer, [Weapons.BroadCastDropped(w)], senderId))
  {
    var m := Relay(Weapons.BroadCastDropped(w), senderId);
    assert m == Some(DropWeapon(senderId));
    assert Deliver(peer, [Weapons.BroadCastDropped(w)], senderId)
        == Deliver(Dispatch(peer, m.value), [], senderId);
  }

  /** Delivering a single event is handling what the server makes of it. */
  lemma DeliverOne(peer: Scene, e: Event, sender: string)
    ensures Relay(e, sender).None? ==> Deliver(peer, [e], sender) == peer
    ensures Relay(e, sender).Some? ==> Deliver(peer, [e], sender) == Dispatch(peer, Relay(e, sender).value)
  {
    assert [e][1..] == [];
  }

  /** A non-lethal bullet hit on the local player: a peer whose copy of the
      player had the same health ends with the same health as the player. */
  lemma HitSeenByPeer(sender: Scene, bid: nat, senderId: string, peer: Scene)
    requires sender.selfPlayer.Some? && sender.selfPlayer.value.hp > HIT_DAMAGE
    requires senderId in peer.otherPlayers
    requires peer.otherPlayers[senderId].hp == sender.selfPlayer.value.hp
    ensures var r := OnPlayerBullet(sender, SelfRef, bid);
      var seen := Deliver(peer, r.outbox[|sender.outbox|..], senderId);
      && r.selfPlayer.Some? && senderId in seen.otherPlayers
      && seen.otherPlayers[senderId].hp == r.selfPlayer.value.hp
  {
    var r := OnPlayerBullet(sender, SelfRef, bid);
    assert SelfHit(sender).survived;
    assert r.selfPlayer.value.hp == sender.selfPlayer.value.hp - HIT_DAMAGE;
    var e := Players.BroadcastHit(HIT_DAMAGE);
    assert r.outbox[|sender.outbox|..] == [e];
    assert Relay(e, senderId) == Some(Hit(HIT_DAMAGE, senderId));
    DeliverOne(peer, e, senderId);
  }

  /** A lethal bullet hit on the local player: once a peer has applied the
      relayed hit and death, the sender is gone from its registry. */
  lemma DeathSeenByPeer(sender: Scene, bid: nat, senderId: string, peer: Scene)
    requires sender.selfPlayer.Some? && sender.selfPlayer.value.hp <= HIT_DAMAGE
    ensures var r := OnPlayerBullet(sender, SelfRef, bid);
      && !r.alive
      && senderId !in Deliver(peer, r.outbox[|sender.outbox|..], senderId).otherPlayers
  {
    var r := OnPlayerBullet(sender, SelfRef, bid);
    var sent := r.outbox[|sender.outbox|..];
    assert sent == [Players.BroadcastHit(HIT_DAMAGE), Players.BroadcastDead()];
    var hit := Relay(sent[0], senderId);
    assert hit == Some(Hit(HIT_DAMAGE, senderId));
    var dead := Relay(sent[1], senderId);
    assert dead == Some(Dead(senderId));
    var afterHit := Dispatch(peer, hit.value);
    assert sent[1..] == [Players.BroadcastDead()];
    assert Deliver(peer, sent, senderId) == Deliver(afterHit, sent[1..], senderId);
    assert Deliver(afterHit, sent[1..], senderId) == Deliver(Dispatch(afterHit, dead.value), [], senderId);
  }

  /** A heal pack eaten by one client disappears from a peer's pool once the
      relayed announcement is applied. */
  lemma EatenSeenByPeer(sender: Scene, who: PlayerRef, packId: string, hp: real, senderId: string, peer: Scene)
    ensures var r := OnPlayerHealPack(sender, who, packId, hp);
      && packId !in r.healPacks
      && packId !in Deliver(peer, r.outbox[|sender.outbox|..], senderId).healPacks
  {
    var r := OnPlayerHealPack(sender, who, packId, hp);
    var sent := r.outbox[|sender.outbox|..];
    assert sent == [BroadcastEaten(packId)];
    var m := Relay(sent[0], senderId);
    assert m == Some(EatPack(packId));
    assert Deliver(peer, sent, senderId) == Deliver(Dispatch(peer, m.value), [], senderId);
  }

  /** A tick that sends a snapshot: a peer applying it puts its copy of the
      sender where the sender stood before the tick's bounding, moving at the
      sender's velocity. */
  lemma SyncSeenByPeer(sender: Scene, senderId: string, peer: Scene)
    requires sender.started && sender.selfPlayer.Some? && SyncDue(sender)
    requires senderId in peer.otherPlayers
    ensures var r := Tick(sender);
      var seen := Deliver(peer, r.outbox[|sender.outbox|..], senderId);
      && senderId in seen.otherPlayers
      && seen.otherPlayers[senderId].pos == sender.selfPlayer.value.pos
      && seen.otherPlayers[senderId].vel == sender.selfPlayer.value.vel
  {
    var r := Tick(sender);
    var sent := r.outbox[|sender.outbox|..];
    var snapshot := Players.CreateSyncData(sender.selfPlayer.value);
    assert sent == [Event("sync", snapshot)];
    var m := Relay(sent[0], senderId);
    assert m == Some(SyncBatch([SyncEntry(senderId, snapshot)]));
    SyncLastWins(peer.otherPlayers, [], senderId, snapshot, []);
    assert [] + [SyncEntry(senderId, snapshot)] + [] == [SyncEntry(senderId, snapshot)];
    Players.SyncRoundTrip(sender.selfPlayer.value, peer.otherPlayers[senderId]);
    assert Deliver(peer, sent, senderId) == Deliver(Dispatch(peer, m.value), [], senderId);
  }
}
