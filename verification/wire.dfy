/** Values, flat payloads and named events, as the scene and its weapons
    exchange them with the game server. JSON encoding itself is not modelled:
    a payload is the key/value object before it is written to the socket. */
module Wire {

  /** The conventional Some/None datatype, used in place of a null pointer. */
  datatype Option<+T> = None | Some(value: T)

  /** A JSON scalar as the handlers read it: a string or a number. */
  datatype Value = Str(s: string) | Num(n: real)

  /** A flat JSON object. */
  type Payload = map<string, Value>

  /** A named outbound message, as `GameSocket::sendEvent(name, dom)` sends it. */
  datatype Event = Event(name: string, payload: Payload)

  /** The string held under `key`, if there is one. */
  function StrField(p: Payload, key: string): (r: Option<string>)
    ensures r.Some? <==> key in p && p[key].Str?
    ensures r.Some? ==> p[key] == Str(r.value)
  {
    if key in p && p[key].Str? then Some(p[key].s) else None
  }

  /** The number held under `key`, or `default` when the field is absent or not a number. */
  function NumOr(p: Payload, key: string, default: real): (r: real)
    ensures key in p && p[key].Num? ==> p[key] == Num(r)
    ensures !(key in p && p[key].Num?) ==> r == default
  {
    if key in p && p[key].Num? then p[key].n else default
  }
}
