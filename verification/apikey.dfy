/** `requireApiKey` (backend/server.js), the shared-secret gate in front of
    `POST /protect`, `POST /simulate-break` and `POST /command`. */
module ApiKey {
  import opened Wrappers
  import opened Js

  /** The two request headers the gate reads; `None` when a header is absent. */
  datatype Headers = Headers(xApiKey: Option<string>, authorization: Option<string>)

  const BEARER: string := "Bearer "

  /** The `headerKey` expression: a non-empty `x-api-key`, else what follows
      `Bearer ` in `authorization`, else nothing. */
  function PresentedKey(h: Headers): (r: Option<string>)
    ensures h.xApiKey.Some? && h.xApiKey.value != "" ==> r == h.xApiKey
    ensures (h.xApiKey.None? || h.xApiKey.value == "")
      && (h.authorization.Some? && StartsWith(h.authorization.value, BEARER))
      ==> r == Some(h.authorization.value[|BEARER|..])
    ensures r.Some? && r != h.xApiKey ==>
      h.authorization.Some? && h.authorization.value == BEARER + r.value
    ensures r.None? <==>
      && (h.xApiKey.None? || h.xApiKey.value == "")
      && (h.authorization.None? || !StartsWith(h.authorization.value, BEARER))
  {
    if h.xApiKey.Some? && h.xApiKey.value != "" then h.xApiKey
    else if h.authorization.Some? && StartsWith(h.authorization.value, BEARER) then
      var a := h.authorization.value;
      assert a == BEARER + a[|BEARER|..];
      Some(a[|BEARER|..])
    else None
  }

  datatype Gate = Pass | Deny(code: int, error: string)

  /** The gate: a misconfigured server (no key) refuses everything with 500; a
      missing, empty or different key is refused with 403; otherwise the request
      proceeds. */
  function Check(serverKey: Option<string>, h: Headers): (g: Gate)
    ensures g.Pass? <==>
      serverKey.Some? && serverKey.value != "" && PresentedKey(h) == serverKey
    ensures g.Deny? && g.code == 500 <==> serverKey.None? || serverKey.value == ""
    ensures g.Deny? ==> g.code == 500 || g.code == 403
  {
    if serverKey.None? || serverKey.value == "" then Deny(500, "server misconfigured")
    else
      var k := PresentedKey(h);
      if k.None? || k.value == "" || k != serverKey then Deny(403, "invalid API key")
      else Pass
  }

  /** A non-empty `x-api-key` decides alone: a correct bearer token does not
      rescue a wrong `x-api-key`. */
  lemma XApiKeyTakesPrecedence(key: string, wrong: string)
    requires key != "" && wrong != "" && wrong != key
    ensures Check(Some(key), Headers(Some(wrong), Some(BEARER + key))) == Deny(403, "invalid API key")
  {
  }

  /** The bearer form is accepted when `x-api-key` is absent or empty. */
  lemma BearerAccepted(key: string, x: Option<string>)
    requires key != ""
    requires x.None? || x.value == ""
    ensures Check(Some(key), Headers(x, Some(BEARER + key))) == Pass
  {
    assert StartsWith(BEARER + key, BEARER);
    assert (BEARER + key)[|BEARER|..] == key;
  }
}
