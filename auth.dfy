/** `AuthUtils` and `authenticatedFetch`: the token lookup across the two web
    storages, the stored user, the request headers with a bearer token
    (section 2.1 of RFC 6750), logout, the option merge and the mapping of
    401 and 403 responses to errors. A storage is a map from keys to
    strings; a missing key is `getItem`'s `null`. */
module Auth {
  import opened Wrappers

  type Storage = map<string, string>

  /** `storage.getItem(key)`. */
  function GetItem(storage: Storage, key: string): Option<string> {
    if key in storage then Some(storage[key]) else None
  }

  /** Truthiness of a `getItem` result: present and non-empty. */
  predicate Filled(v: Option<string>) {
    v.Some? && v.value != ""
  }

  /** The keys a token may be stored under, in lookup order. */
  const TokenKeys: seq<string> := ["token", "authToken", "accessToken", "jwt"]

  /** The key of the stored user. */
  const UserKey: string := "user"

  /** Every key `logout` removes. */
  const AuthKeys: set<string> := {"token", "authToken", "accessToken", "jwt", "user"}

  /** The eight operands of `getToken`'s `||` chain: the four keys in
      localStorage, then the same four in sessionStorage. */
  function Candidates(local: Storage, session: Storage): (c: seq<Option<string>>)
    ensures |c| == 2 * |TokenKeys|
    ensures forall i :: 0 <= i < |TokenKeys| ==> c[i] == GetItem(local, TokenKeys[i]) && c[i + 4] == GetItem(session, TokenKeys[i])
  {
    [GetItem(local, "token"), GetItem(local, "authToken"), GetItem(local, "accessToken"), GetItem(local, "jwt"),
     GetItem(session, "token"), GetItem(session, "authToken"), GetItem(session, "accessToken"), GetItem(session, "jwt")]
  }

  /** `v0 || v1 || ... || vn`: the first truthy operand, else the last one. */
  function OrChain(vs: seq<Option<string>>, i: nat): Option<string>
    requires i < |vs|
    decreases |vs| - i
  {
    if i == |vs| - 1 || Filled(vs[i]) then vs[i] else OrChain(vs, i + 1)
  }

  /** The chain from position `i` yields a token exactly when some operand
      from `i` on is truthy, and then it is the first such operand. */
  lemma {:induction false} OrChainFirst(vs: seq<Option<string>>, i: nat)
    requires i < |vs|
    ensures Filled(OrChain(vs, i)) <==> exists j :: i <= j < |vs| && Filled(vs[j])
    ensures Filled(OrChain(vs, i)) ==>
      exists j :: i <= j < |vs| && OrChain(vs, i) == vs[j] && Filled(vs[j]) && forall k :: i <= k < j ==> !Filled(vs[k])
    decreases |vs| - i
  {
    if i < |vs| - 1 && !Filled(vs[i]) {
      OrChainFirst(vs, i + 1);
      if Filled(OrChain(vs, i)) {
        var j :| i + 1 <= j < |vs| && OrChain(vs, i + 1) == vs[j] && Filled(vs[j]) && forall k :: i + 1 <= k < j ==> !Filled(vs[k]);
        assert forall k :: i <= k < j ==> !Filled(vs[k]);
      }
    }
  }

  /** `AuthUtils.getToken()`. */
  function GetToken(local: Storage, session: Storage): Option<string> {
    OrChain(Candidates(local, session), 0)
  }

  /** A token is found exactly when one of the eight slots holds a non-empty
      value, and it is the value of the first such slot in lookup order:
      every localStorage key before any sessionStorage key. */
  lemma TokenIsFirstFilledSlot(local: Storage, session: Storage)
    ensures var c := Candidates(local, session);
      Filled(GetToken(local, session)) <==> exists j :: 0 <= j < |c| && Filled(c[j])
    ensures var c := Candidates(local, session);
      Filled(GetToken(local, session)) ==>
        exists j :: 0 <= j < |c| && GetToken(local, session) == c[j] && forall k :: 0 <= k < j ==> !Filled(c[k])
  {
    OrChainFirst(Candidates(local, session), 0);
  }

  /** A token in localStorage hides every token in sessionStorage. */
  lemma {:induction false} LocalWins(local: Storage, session: Storage, i: nat)
    requires i < |TokenKeys| && Filled(GetItem(local, TokenKeys[i]))
    requires forall k :: 0 <= k < i ==> !Filled(GetItem(local, TokenKeys[k]))
    ensures GetToken(local, session) == GetItem(local, TokenKeys[i])
  {
    var c := Candidates(local, session);
    OrChainFirst(c, 0);
    var j :| 0 <= j < |c| && OrChain(c, 0) == c[j] && Filled(c[j]) && forall k :: 0 <= k < j ==> !Filled(c[k]);
    assert c[i] == GetItem(local, TokenKeys[i]);
  }

  /** `AuthUtils.getUser()`. `parse` stands for `JSON.parse`; `None` is a
      parse that throws (or yields a falsy value), which gives `null`. */
  function GetUser<U>(local: Storage, session: Storage, parse: string -> Option<U>): (user: Option<U>)
    ensures user.Some? ==> Filled(GetItem(local, UserKey)) || Filled(GetItem(session, UserKey))
  {
    var stored := if Filled(GetItem(local, UserKey)) then GetItem(local, UserKey) else GetItem(session, UserKey);
    if Filled(stored) then parse(stored.value) else None
  }

  /** The localStorage user is preferred: when both are stored, the session
      copy is never parsed. */
  lemma LocalUserPreferred<U>(local: Storage, session: Storage, parse: string -> Option<U>)
    requires Filled(GetItem(local, UserKey))
    ensures GetUser(local, session, parse) == parse(local[UserKey])
  {
  }

  /** Without a localStorage user the sessionStorage one is parsed, and with
      neither there is no user. */
  lemma SessionUserFallback<U>(local: Storage, session: Storage, parse: string -> Option<U>)
    requires !Filled(GetItem(local, UserKey))
    ensures GetUser(local, session, parse)
      == if Filled(GetItem(session, UserKey)) then parse(session[UserKey]) else None
  {
  }

  /** `AuthUtils.isAuthenticated()`: `!!(token && user)`. */
  predicate IsAuthenticated<U>(local: Storage, session: Storage, parse: string -> Option<U>) {
    Filled(GetToken(local, session)) && GetUser(local, session, parse).Some?
  }

  /** Authenticated exactly when some token slot is filled and a stored
      user parses. */
  lemma AuthenticatedIff<U>(local: Storage, session: Storage, parse: string -> Option<U>)
    ensures var c := Candidates(local, session);
      IsAuthenticated(local, session, parse)
      <==> (exists j :: 0 <= j < |c| && Filled(c[j])) && GetUser(local, session, parse).Some?
  {
    TokenIsFirstFilledSlot(local, session);
  }

  // ---------------------------------------------------------------------
  // Headers

  type Headers = map<string, string>

  /** `AuthUtils.getAuthHeaders()`. */
  function GetAuthHeaders(local: Storage, session: Storage): (h: Headers)
    ensures "Content-Type" in h && h["Content-Type"] == "application/json"
    ensures "Authorization" in h <==> Filled(GetToken(local, session))
    ensures h.Keys <= {"Content-Type", "Authorization"}
  {
    var token := GetToken(local, session);
    var h := map["Content-Type" := "application/json"];
    if Filled(token) then h["Authorization" := "Bearer " + token.value] else h
  }

  /** The token of an `Authorization: Bearer <token>` value, if it has that form. */
  function BearerToken(value: string): Option<string> {
    if |value| >= 7 && value[..7] == "Bearer " then Some(value[7..]) else None
  }

  /** The header carries exactly the token that was found, in the bearer form. */
  lemma BearerCarriesToken(local: Storage, session: Storage)
    requires Filled(GetToken(local, session))
    ensures BearerToken(GetAuthHeaders(local, session)["Authorization"]) == GetToken(local, session)
  {
    var t := GetToken(local, session).value;
    assert ("Bearer " + t)[..7] == "Bearer ";
    assert ("Bearer " + t)[7..] == t;
  }

  // ---------------------------------------------------------------------
  // logout

  /** The two web storages. */
  class WebStorage {
    var local: Storage
    var session: Storage

    constructor (local: Storage, session: Storage)
      ensures this.local == local && this.session == session
    {
      this.local := local;
      this.session := session;
    }

    /** `AuthUtils.logout()`: the five keys leave both storages, and every
        other entry stays as it was. */
    method Logout()
      modifies this
      ensures local == old(local) - AuthKeys
      ensures session == old(session) - AuthKeys
    {
      local := RemoveAuthItems(local);
      session := RemoveAuthItems(session);
    }
  }

  /** The five `removeItem` calls on one storage, in the source's order. */
  function RemoveAuthItems(storage: Storage): (r: Storage)
    ensures r == storage - AuthKeys
  {
    var r := storage - {"token"} - {"authToken"} - {"accessToken"} - {"jwt"} - {"user"};
    assert r.Keys == storage.Keys - AuthKeys;
    r
  }

  /** After logout no token and no user are found, so the user is not
      authenticated and no Authorization header is sent. */
  lemma {:induction false} LoggedOutIsAnonymous<U>(local: Storage, session: Storage, parse: string -> Option<U>)
    ensures !Filled(GetToken(local - AuthKeys, session - AuthKeys))
    ensures !IsAuthenticated(local - AuthKeys, session - AuthKeys, parse)
    ensures "Authorization" !in GetAuthHeaders(local - AuthKeys, session - AuthKeys)
  {
    var l, s := local - AuthKeys, session - AuthKeys;
    var c := Candidates(l, s);
    forall j | 0 <= j < |c| ensures !Filled(c[j]) {
      assert TokenKeys[j % 4] in AuthKeys;
    }
    OrChainFirst(c, 0);
  }

  // ---------------------------------------------------------------------
  // authenticatedFetch

  /** Fetch options: the scalar options by name, and the headers. */
  datatype Options = Options(fields: map<string, string>, headers: Headers)

  /** `defaultOptions`. */
  function DefaultOptions(local: Storage, session: Storage): Options {
    Options(map["method" := "GET", "credentials" := "include"], GetAuthHeaders(local, session))
  }

  /** `mergedOptions`: the caller's options over the defaults, and the
      caller's headers over the default headers, key by key. */
  function MergeOptions(defaults: Options, caller: Options): (merged: Options)
    ensures forall k :: k in merged.fields <==> k in defaults.fields || k in caller.fields
    ensures forall k :: k in merged.fields ==> merged.fields[k] == if k in caller.fields then caller.fields[k] else defaults.fields[k]
    ensures forall k :: k in merged.headers <==> k in defaults.headers || k in caller.headers
    ensures forall k :: k in merged.headers ==> merged.headers[k] == if k in caller.headers then caller.headers[k] else defaults.headers[k]
  {
    Options(defaults.fields + caller.fields, defaults.headers + caller.headers)
  }

  /** A caller that sets its own headers keeps the default ones it does not
      name: the JSON content type and the bearer token are still sent. */
  lemma CallerHeadersKeepDefaults(local: Storage, session: Storage, caller: Options)
    requires "Content-Type" !in caller.headers && "Authorization" !in caller.headers
    ensures var m := MergeOptions(DefaultOptions(local, session), caller);
      && m.headers["Content-Type"] == "application/json"
      && ("Authorization" in m.headers <==> Filled(GetToken(local, session)))
      && (Filled(GetToken(local, session)) ==> m.headers["Authorization"] == "Bearer " + GetToken(local, session).value)
  {
  }

  const UnauthorizedError: string := "Unauthorized - Please log in again"
  const ForbiddenError: string := "Access denied - Insufficient permissions"

  /** What `authenticatedFetch` does with a response status: 401 and 403
      become thrown errors, any other response is returned as it is. */
  function MapStatus(status: int): (r: Result<int, string>)
    ensures r.Success? <==> status != 401 && status != 403
    ensures r.Success? ==> r.value == status
    ensures r.Failure? ==> r.error == (if status == 401 then UnauthorizedError else ForbiddenError)
  {
    if status == 401 then Failure(UnauthorizedError)
    else if status == 403 then Failure(ForbiddenError)
    else Success(status)
  }
}
