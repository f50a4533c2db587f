/** The API-key side of the service: the funnel that turns an HTTP request
    with an `Authorization` header into a call of a handler and turns what
    the handler throws into a response; the verification of a presented key
    against the users table; and the issuance of a key to a signed-in user. */
module ApiHelpers {
  import opened ShortUrlTypes
  import opened Text
  import opened Foreign
  import opened Store

  /** The JSON a response carries. */
  datatype Body =
    | ErrorMessage(message: string)        // `{ error_message }`
    | SerializedError(exn: Exception)      // an error value passed to `NextResponse.json` as is
    | LinkRows(rows: seq<Link>)            // a list of short links
    | NoBody

  datatype Response = Response(status: int, body: Body)

  const ServerErrorMessage: string := "Please try again"

  // ---------------------------------------------------------------------
  // The request funnel
  // ---------------------------------------------------------------------

  /** `request.headers.get('Authorization')?.split(' ')[1]`. */
  function BearerToken(authorization: Option<string>): (r: Option<string>)
    ensures r.Some? <==> authorization.Some? && ' ' in authorization.value
  {
    match authorization
    case None => None
    case Some(h) =>
      var parts := SplitOn(h, ' ');
      SplitHasSecondPiece(h, ' ');
      if |parts| >= 2 then Some(parts[1]) else None
  }

  /** The token is the word after the first space, whatever the word before it is. */
  lemma BearerTokenAfterScheme(scheme: string, token: string)
    requires ' ' !in scheme && ' ' !in token
    ensures BearerToken(Some(scheme + " " + token)) == Some(token)
  {
    assert scheme + " " + token == scheme + [' '] + token;
    SplitAfterFirst(scheme, ' ', token);
    SplitWithoutSep(token, ' ');
  }

  /** A header without a space carries no token at all. */
  lemma BearerTokenNeedsSpace(h: string)
    requires ' ' !in h
    ensures BearerToken(Some(h)) == None
  {
    SplitWithoutSep(h, ' ');
  }

  /** A token never contains a space. */
  lemma BearerTokenHasNoSpace(authorization: Option<string>)
    requires BearerToken(authorization).Some?
    ensures ' ' !in BearerToken(authorization).value
  {
    SplitJoin(authorization.value, ' ');
  }

  /** `withApiKey(request, handler)`: a missing or empty token answers with the
      serialised unauthorized error (and the default status 200) without
      running the handler; otherwise the handler runs on the token, a thrown
      `ShortUrlApiError` becomes its status and message, and anything else
      thrown becomes 500 'Please try again'. */
  function WithApiKey(authorization: Option<string>, handler: string -> Outcome<Response>): (r: Response)
    ensures !Truthy(BearerToken(authorization)) ==> r == Response(200, SerializedError(UnauthorizedError))
    ensures Truthy(BearerToken(authorization)) ==>
              var out := handler(BearerToken(authorization).value);
              && (out.Returned? ==> r == out.value)
              && (out.Threw? && out.exn.ApiError? ==> r == Response(out.exn.code, ErrorMessage(out.exn.message)))
              && (out.Threw? && !out.exn.ApiError? ==> r == Response(500, ErrorMessage(ServerErrorMessage)))
  {
    var token := BearerToken(authorization);
    if Truthy(token) then
      match handler(token.value)
      case Returned(resp) => resp
      case Threw(ApiError(code, message)) => Response(code, ErrorMessage(message))
      case Threw(_) => Response(500, ErrorMessage(ServerErrorMessage))
    else
      Response(200, SerializedError(UnauthorizedError))
  }

  /** The scheme word of the header is never checked: `Bearer k`, `Basic k`
      and `x k` are answered alike. */
  lemma WithApiKeyIgnoresScheme(s1: string, s2: string, token: string, handler: string -> Outcome<Response>)
    requires ' ' !in s1 && ' ' !in s2 && ' ' !in token
    ensures WithApiKey(Some(s1 + " " + token), handler) == WithApiKey(Some(s2 + " " + token), handler)
  {
    BearerTokenAfterScheme(s1, token);
    BearerTokenAfterScheme(s2, token);
  }

  /** Without a token the handler does not matter: it is never run. */
  lemma WithApiKeyWithoutTokenSkipsHandler(authorization: Option<string>, h1: string -> Outcome<Response>, h2: string -> Outcome<Response>)
    requires authorization.Some? ==> ' ' !in authorization.value
    ensures WithApiKey(authorization, h1) == WithApiKey(authorization, h2)
    ensures WithApiKey(authorization, h1).body == SerializedError(UnauthorizedError)
  {
    if authorization.Some? {
      BearerTokenNeedsSpace(authorization.value);
    }
  }

  // ---------------------------------------------------------------------
  // Verifying a presented key
  // ---------------------------------------------------------------------

  /** What `getUserIdForApiKey` resolves to: `false`, `null` or a user id. */
  datatype KeyLookup = NoMatch | Mismatch | Found(id: string)

  /** `atob` of a string that is not base64. */
  const InvalidBase64: Exception := RuntimeError("InvalidCharacterError", "The string to be decoded is not correctly encoded.")
  /** `importKey` of raw bytes that are not an AES key. */
  const KeyImportFailed: Exception := RuntimeError("DataError", "Invalid key length")
  /** `encrypt` rejecting its parameters. */
  const EncryptFailed: Exception := RuntimeError("OperationError", "The operation failed for an operation-specific reason")

  /** The length of the stored lookup prefix. */
  const PrefixLength: nat := 32

  /** `user[0]` of `SELECT ... WHERE apiKey = prefix`: the first user storing that prefix. */
  function FirstWithApiKey(users: seq<User>, prefix: string): (r: Option<User>)
    ensures r.None? <==> forall i :: 0 <= i < |users| ==> users[i].apiKey != Some(prefix)
    ensures r.Some? ==> exists i :: 0 <= i < |users| && users[i] == r.value && users[i].apiKey == Some(prefix)
                                   && forall j :: 0 <= j < i ==> users[j].apiKey != Some(prefix)
    decreases |users|
  {
    if |users| == 0 then None
    else if users[0].apiKey == Some(prefix) then Some(users[0])
    else
      var r := FirstWithApiKey(users[1..], prefix);
      assert forall i :: 1 <= i < |users| ==> users[i] == users[1..][i - 1];
      r
  }

  /** The salt text as JavaScript renders it: a null salt reads as "null". */
  function SaltText(u: User): string {
    match u.apiKeySalt
    case Some(s) => s
    case None => "null"
  }

  /** The plaintext an issued key encrypts: `<userId>.<salt>`. */
  function KeyPlaintext(uid: string, salt: string): (r: string)
    ensures |r| == |uid| + 1 + |salt| && r[|uid|] == '.'
    ensures r[..|uid|] == uid && r[|uid| + 1..] == salt
  {
    uid + "." + salt
  }

  /** The presented key, base64-decoded as a whole, decrypts under the user's
      salt and the server secret to exactly `<user id>.<salt>`. */
  predicate KeyDecryptsFor(env: Env, u: User, apiKey: string) {
    var ct := env.base64Decode(apiKey);
    && ct.Some?
    && var pt := env.decrypt(env.utf8Encode(SaltText(u)), env.utf8Encode(env.secret), ct.value);
    && pt.Some?
    && env.utf8Decode(pt.value) == KeyPlaintext(u.id, SaltText(u))
  }

  /** `getUserIdForApiKey(apiKey)`. The key import and the base64 decode run
      outside the `try`, so their failures are thrown; a decryption failure
      or a wrong plaintext inside it resolves to `null`. */
  function GetUserIdForApiKey(users: seq<User>, env: Env, apiKey: string): (r: Outcome<KeyLookup>)
    ensures r == Returned(NoMatch) <==>
              forall i :: 0 <= i < |users| ==> users[i].apiKey != Some(SliceTo(apiKey, PrefixLength))
    ensures r.Threw? <==>
              var u := FirstWithApiKey(users, SliceTo(apiKey, PrefixLength));
              u.Some? && (!env.keyImportable(env.utf8Encode(SaltText(u.value))) || env.base64Decode(apiKey).None?)
    ensures r.Threw? ==> r.exn == KeyImportFailed || r.exn == InvalidBase64
    ensures r.Returned? && r.value.Found? <==>
              var u := FirstWithApiKey(users, SliceTo(apiKey, PrefixLength));
              && u.Some? && env.keyImportable(env.utf8Encode(SaltText(u.value)))
              && KeyDecryptsFor(env, u.value, apiKey)
    ensures r.Returned? && r.value.Found? ==>
              exists i :: 0 <= i < |users| && users[i].id == r.value.id
                          && users[i].apiKey == Some(SliceTo(apiKey, PrefixLength))
    ensures r.Returned? && r.value.Found? ==>
              var u := FirstWithApiKey(users, SliceTo(apiKey, PrefixLength));
              u.Some? && r.value.id == u.value.id
  {
    match FirstWithApiKey(users, SliceTo(apiKey, PrefixLength))
    case None => Returned(NoMatch)
    case Some(u) =>
      var rawKey := env.utf8Encode(SaltText(u));
      if !env.keyImportable(rawKey) then Threw(KeyImportFailed)
      else
        match env.base64Decode(apiKey)
        case None => Threw(InvalidBase64)
        case Some(ct) =>
          match env.decrypt(rawKey, env.utf8Encode(env.secret), ct)
          case None => Returned(Mismatch)
          case Some(pt) =>
            if env.utf8Decode(pt) == KeyPlaintext(u.id, SaltText(u)) then Returned(Found(u.id))
            else Returned(Mismatch)
  }

  /** The check every API-key wrapper makes: `if (!userId) throw unauthorized`.
      What the lookup throws passes through; `false`, `null` and an empty id
      are falsy and become `unauthorized`. */
  function ResolveApiKey(users: seq<User>, env: Env, apiKey: string, unauthorized: Exception): (r: Outcome<string>)
    ensures r.Returned? <==> exists id :: id != "" && GetUserIdForApiKey(users, env, apiKey) == Returned(Found(id))
    ensures r.Returned? ==> GetUserIdForApiKey(users, env, apiKey) == Returned(Found(r.value))
    ensures GetUserIdForApiKey(users, env, apiKey).Threw? ==> r == Threw(GetUserIdForApiKey(users, env, apiKey).exn)
    ensures r.Threw? && GetUserIdForApiKey(users, env, apiKey).Returned? ==> r == Threw(unauthorized)
  {
    match GetUserIdForApiKey(users, env, apiKey)
    case Threw(e) => Threw(e)
    case Returned(Found(id)) => if id != "" then Returned(id) else Threw(unauthorized)
    case Returned(_) => Threw(unauthorized)
  }

  // ---------------------------------------------------------------------
  // Issuing a key
  // ---------------------------------------------------------------------

  /** What `getApiKey` resolves to: the new key, or `true` when nothing was issued. */
  datatype KeyIssue = IssuedKey(key: string) | AlreadyIssued

  /** `user[0].apiKey` read on an empty result. */
  const MissingUserRow: Exception := RuntimeError("TypeError", "Cannot read properties of undefined (reading 'apiKey')")

  /** `user[0]` of `SELECT * FROM users WHERE id = uid`. */
  function FirstWithId(users: seq<User>, uid: string): (r: Option<User>)
    ensures r.None? <==> forall i :: 0 <= i < |users| ==> users[i].id != uid
    ensures r.Some? ==> r.value in users && r.value.id == uid
    decreases |users|
  {
    if |users| == 0 then None
    else if users[0].id == uid then Some(users[0])
    else
      var r := FirstWithId(users[1..], uid);
      assert forall i :: 1 <= i < |users| ==> users[i] == users[1..][i - 1];
      r
  }

  /** The key for `uid` with a fresh `salt`: encrypt `<uid>.<salt>` under the
      salt with the server secret as nonce, then base64-encode the ciphertext. */
  function IssueApiKey(env: Env, uid: string, salt: string): (r: Outcome<string>)
    ensures r == Threw(KeyImportFailed) <==> !env.keyImportable(env.utf8Encode(salt))
    ensures r == Threw(EncryptFailed) <==>
              && env.keyImportable(env.utf8Encode(salt))
              && env.encrypt(env.utf8Encode(salt), env.utf8Encode(env.secret), env.utf8Encode(KeyPlaintext(uid, salt))).None?
    ensures r.Threw? ==> r.exn == KeyImportFailed || r.exn == EncryptFailed
    ensures r.Returned? <==>
              && env.keyImportable(env.utf8Encode(salt))
              && env.encrypt(env.utf8Encode(salt), env.utf8Encode(env.secret), env.utf8Encode(KeyPlaintext(uid, salt))).Some?
    ensures CipherRoundTrip(env) && Base64RoundTrip(env) && r.Returned? ==>
              var ct := env.base64Decode(r.value);
              && ct.Some?
              && env.decrypt(env.utf8Encode(salt), env.utf8Encode(env.secret), ct.value)
                 == Some(env.utf8Encode(KeyPlaintext(uid, salt)))
  {
    var rawKey := env.utf8Encode(salt);
    if !env.keyImportable(rawKey) then Threw(KeyImportFailed)
    else
      match env.encrypt(rawKey, env.utf8Encode(env.secret), env.utf8Encode(KeyPlaintext(uid, salt)))
      case None => Threw(EncryptFailed)
      case Some(ct) => Returned(env.base64Encode(ct))
  }

  /** `intent === 'new' || !user[0].apiKey`: the issuance runs when the
      caller asks for a new key, or when the caller's row holds none. With
      intent 'new' the row is never read, so a missing row does not matter. */
  predicate IssuanceDue(intent: string, user: Option<User>) {
    intent == "new" || (user.Some? && !Truthy(user.value.apiKey))
  }

  /** `getApiKey({ intent })` for the session `session`, with `salt` the
      value `nanoid(32)` draws and `now` the clock. Reading `user[0].apiKey`
      throws only when intent is not 'new' and the caller has no row. */
  method GetApiKey(db: Database, env: Env, session: Option<string>, intent: string, salt: string, now: int)
    returns (r: Outcome<KeyIssue>)
    requires db.Valid()
    modifies db
    ensures db.Valid() && db.shortUrls == old(db.shortUrls)
    ensures session.None? ==> r == Threw(SessionNotFound) && db.users == old(db.users)
    ensures session.Some? ==>
              var user := FirstWithId(old(db.users), session.value);
              var issued := IssueApiKey(env, session.value, salt);
              && (intent != "new" && user.None? ==> r == Threw(MissingUserRow) && db.users == old(db.users))
              && (intent != "new" && user.Some? && Truthy(user.value.apiKey) ==>
                    r == Returned(AlreadyIssued) && db.users == old(db.users))
              && (IssuanceDue(intent, user) && issued.Threw? ==> r == Threw(issued.exn) && db.users == old(db.users))
              && (IssuanceDue(intent, user) && issued.Returned? ==>
                    && r == Returned(IssuedKey(issued.value))
                    && db.users == StoreApiKey(old(db.users), session.value, SliceTo(issued.value, PrefixLength), salt, now))
    ensures session.Some? && intent == "new" && FirstWithId(old(db.users), session.value).None? &&
            IssueApiKey(env, session.value, salt).Returned? ==>
              r == Returned(IssuedKey(IssueApiKey(env, session.value, salt).value)) && db.users == old(db.users)
  {
    if session.None? {
      return Threw(SessionNotFound);
    }
    var uid := session.value;
    var user := FirstWithId(db.users, uid);
    if intent != "new" && user.None? {
      return Threw(MissingUserRow);
    }
    if IssuanceDue(intent, user) {
      var issued := IssueApiKey(env, uid, salt);
      match issued {
        case Threw(e) =>
          r := Threw(e);
        case Returned(key) =>
          ghost var before := db.users;
          db.SetApiKey(uid, SliceTo(key, PrefixLength), salt, now);
          if user.None? {
            assert db.users == before;
          }
          r := Returned(IssuedKey(key));
      }
    } else {
      r := Returned(AlreadyIssued);
    }
  }

  /** A key that was just issued verifies as its owner's, given the cipher,
      base64 and text round trips and that no other user stores the same
      32-character prefix. */
  lemma IssuedKeyVerifies(users: seq<User>, env: Env, uid: string, salt: string, now: int, key: string)
    requires CipherRoundTrip(env) && Base64RoundTrip(env) && Utf8RoundTrip(env)
    requires IssueApiKey(env, uid, salt) == Returned(key)
    requires exists i :: 0 <= i < |users| && users[i].id == uid
    requires forall i :: 0 <= i < |users| && users[i].id != uid ==> users[i].apiKey != Some(SliceTo(key, PrefixLength))
    ensures GetUserIdForApiKey(StoreApiKey(users, uid, SliceTo(key, PrefixLength), salt, now), env, key) == Returned(Found(uid))
  {
    var prefix := SliceTo(key, PrefixLength);
    var after := StoreApiKey(users, uid, prefix, salt, now);
    var k :| 0 <= k < |users| && users[k].id == uid;
    assert after[k].apiKey == Some(prefix);
    var found := FirstWithApiKey(after, prefix);
    var i :| 0 <= i < |after| && after[i] == found.value && after[i].apiKey == Some(prefix);
    assert users[i].id == uid;
    assert found.value == User(uid, Some(prefix), Some(salt), now);
    var rawKey := env.utf8Encode(salt);
    var iv := env.utf8Encode(env.secret);
    var pt := env.utf8Encode(KeyPlaintext(uid, salt));
    var ct := env.encrypt(rawKey, iv, pt).value;
    assert key == env.base64Encode(ct);
    assert env.base64Decode(key) == Some(ct);
    assert env.decrypt(rawKey, iv, ct) == Some(pt);
    assert env.utf8Decode(pt) == KeyPlaintext(uid, salt);
  }

  /** Issuing and then presenting the key authenticates the issuing user
      through the wrappers' falsy check, when its id is not empty. */
  lemma IssuedKeyResolves(users: seq<User>, env: Env, uid: string, salt: string, now: int, key: string, unauthorized: Exception)
    requires CipherRoundTrip(env) && Base64RoundTrip(env) && Utf8RoundTrip(env)
    requires IssueApiKey(env, uid, salt) == Returned(key)
    requires uid != ""
    requires exists i :: 0 <= i < |users| && users[i].id == uid
    requires forall i :: 0 <= i < |users| && users[i].id != uid ==> users[i].apiKey != Some(SliceTo(key, PrefixLength))
    ensures ResolveApiKey(StoreApiKey(users, uid, SliceTo(key, PrefixLength), salt, now), env, key, unauthorized) == Returned(uid)
  {
    IssuedKeyVerifies(users, env, uid, salt, now, key);
  }
}
