/** The weapon base class (`Weapon`) and the weapon pool (`Weapons`). A
    weapon is a value; its sprite and its firing are not modelled. */
module Weapons {
  import opened Wire

  /** The two concrete weapon classes. */
  datatype Kind = Pistol | Uzi

  /** The per-instance state of a weapon that the core reads or writes:
      its identifier, its class, and whether it may fire. */
  datatype Weapon = Weapon(id: string, kind: Kind, enable: bool)

  /** `Weapon::getId`. */
  function GetId(w: Weapon): (id: string)
  {
    w.id
  }

  /** `Weapon::reload`: disables the weapon, then enables it again; no timer
      runs in between, so the net effect is `enable == true`. */
  function Reload(w: Weapon): (r: Weapon)
    ensures r.enable
    ensures r.id == w.id && r.kind == w.kind
  {
    var disabled := w.(enable := false);
    disabled.(enable := true)
  }

  /** Reloading never changes the identifier the weapon reports. */
  lemma ReloadKeepsId(w: Weapon)
    ensures GetId(Reload(w)) == GetId(w)
    ensures Reload(Reload(w)) == Reload(w)
  {
  }

  /** `Weapon::broadCastToken`: tells the other clients that this weapon was taken. */
  function BroadCastToken(w: Weapon): (e: Event)
    ensures e.name == "broadcast"
    ensures e.payload.Keys == {"type", "weaponId"}
    ensures e.payload["type"] == Str("takeWeapon")
    ensures StrField(e.payload, "weaponId") == Some(GetId(w))
  {
    Event("broadcast", map["type" := Str("takeWeapon"), "weaponId" := Str(w.id)])
  }

  /** `Weapon::broadCastDropped`: tells the other clients that the sender
      dropped its weapon. Which weapon is not said. */
  function BroadCastDropped(w: Weapon): (e: Event)
    ensures e.name == "broadcast"
    ensures e.payload.Keys == {"type"}
    ensures e.payload["type"] == Str("dropWeapon")
    ensures StrField(e.payload, "weaponId") == None
  {
    Event("broadcast", map["type" := Str("dropWeapon")])
  }

  /** The pool of `Weapons`, keyed by weapon identifier. */
  type Pool = map<string, Weapon>

  /** `Weapons::getById`: a partial lookup in the pool. */
  function GetById(pool: Pool, id: string): (r: Option<Weapon>)
    ensures r.Some? <==> id in pool
    ensures r.Some? ==> r.value == pool[id]
  {
    if id in pool then Some(pool[id]) else None
  }

  /** In a pool that files every weapon under its own identifier, looking up
      what `getId` reports finds a weapon exactly when that weapon is pooled,
      and then finds that very weapon. */
  lemma GetIdFindsPooled(pool: Pool, w: Weapon)
    requires forall k :: k in pool ==> GetId(pool[k]) == k
    ensures GetById(pool, GetId(w)) == Some(w) <==> w in pool.Values
  {
    if w in pool.Values {
      var k :| k in pool && pool[k] == w;
      assert GetId(pool[k]) == k;
    }
  }

  /** A client that receives the `weaponId` of a take-weapon token finds
      the very weapon the sender took, provided both pools agree on it. */
  lemma TokenNamesWeapon(pool: Pool, w: Weapon)
    requires w.id in pool && pool[w.id] == w
    ensures GetById(pool, StrField(BroadCastToken(w).payload, "weaponId").value) == Some(w)
  {
  }
}
