/** The older copy of the helpers, which the v1 API route still calls. Its
    key lookup, key issuance and owned create are the same code as the
    current helpers and are modelled by those members; what differs is
    modelled here: the unauthorized value is a plain object rather than a
    `ShortUrlApiError`, the update takes only a session, and the delete
    matches the id alone, whoever owns the row. */
module AuthHelpers {
  import opened ShortUrlTypes
  import opened Foreign
  import opened Store
  import opened ApiHelpers
  import ShortUrlHelpers

  /** `unauthorizedError` of the older types module: `{ error: { code: '401', message: 'Unauthorized' } }`. */
  const UnauthorizedObject: Exception := ErrorObject("401", "Unauthorized")

  /** `getShortUrlsSessioned()`. */
  function GetShortUrlsSessioned(links: seq<Link>, session: Option<string>): (r: Outcome<seq<Link>>)
    ensures session.None? <==> r == Threw(UnauthorizedObject)
    ensures r.Returned? ==> forall l :: l in r.value <==> l in links && l.userId == session
  {
    match session
    case None => Threw(UnauthorizedObject)
    case Some(uid) => Returned(ShortUrlHelpers.GetShortUrlsUnsafe(links, uid))
  }

  /** `getShortUrlsWithApiKey(apiKey)`: a falsy lookup throws the plain object. */
  function GetShortUrlsWithApiKey(users: seq<User>, links: seq<Link>, env: Env, apiKey: string): (r: Outcome<seq<Link>>)
    ensures var who := GetUserIdForApiKey(users, env, apiKey);
            && (who.Threw? ==> r == Threw(who.exn))
            && (who.Returned? && !(who.value.Found? && who.value.id != "") ==> r == Threw(UnauthorizedObject))
            && (who.Returned? && who.value.Found? && who.value.id != "" ==>
                  r.Returned? && forall l :: l in r.value <==> l in links && l.userId == Some(who.value.id))
  {
    match ResolveApiKey(users, env, apiKey, UnauthorizedObject)
    case Threw(e) => Threw(e)
    case Returned(uid) => Returned(ShortUrlHelpers.GetShortUrlsUnsafe(links, uid))
  }

  /** The `GET /api/v1` handler on these helpers. */
  function ListHandler(users: seq<User>, links: seq<Link>, env: Env): string -> Outcome<Response> {
    apiKey =>
      match GetShortUrlsWithApiKey(users, links, env, apiKey)
      case Returned(rows) => Returned(Response(200, LinkRows(rows)))
      case Threw(e) => Threw(e)
  }

  /** Behind the request funnel, a key nobody holds is answered with 500 and
      'Please try again', not 401: the plain object these helpers throw is not
      a `ShortUrlApiError`. */
  lemma UnknownKeyAnswers500(users: seq<User>, links: seq<Link>, env: Env, authorization: Option<string>)
    requires Truthy(BearerToken(authorization))
    requires forall i :: 0 <= i < |users| ==> users[i].apiKey != Some(Text.SliceTo(BearerToken(authorization).value, PrefixLength))
    ensures WithApiKey(authorization, ListHandler(users, links, env)) == Response(500, ErrorMessage(ServerErrorMessage))
  {
    var token := BearerToken(authorization).value;
    assert GetUserIdForApiKey(users, env, token) == Returned(NoMatch);
  }

  /** `createShortUrlSessioned(urlPayload)`. */
  method CreateShortUrlSessioned(db: Database, env: Env, blocked: seq<string>, payload: ShortUrlPayload,
                                 session: Option<string>, freshId: string, now: int, purgeFails: bool)
    returns (r: Outcome<Link>)
    requires db.Valid()
    modifies db
    ensures db.Valid() && db.users == old(db.users)
    ensures session.None? ==> r == Threw(UnauthorizedObject) && db.shortUrls == old(db.shortUrls)
    ensures session.Some? ==>
              (r, db.shortUrls) == ShortUrlHelpers.CreateOutcome(old(db.shortUrls), env, blocked, payload, session.value, freshId, now, purgeFails)
  {
    if session.None? {
      return Threw(UnauthorizedObject);
    }
    r := ShortUrlHelpers.CreateShortUrlUnsafe(db, env, blocked, payload, session.value, freshId, now, purgeFails);
  }

  /** `createShortUrlWithApiKey(urlPayload, apiKey)`. */
  method CreateShortUrlWithApiKey(db: Database, env: Env, blocked: seq<string>, payload: ShortUrlPayload,
                                  apiKey: string, freshId: string, now: int, purgeFails: bool)
    returns (r: Outcome<Link>)
    requires db.Valid()
    modifies db
    ensures db.Valid() && db.users == old(db.users)
    ensures var who := ResolveApiKey(old(db.users), env, apiKey, UnauthorizedObject);
            && (who.Threw? ==> r == Threw(who.exn) && db.shortUrls == old(db.shortUrls))
            && (who.Returned? ==>
                  (r, db.shortUrls) == ShortUrlHelpers.CreateOutcome(old(db.shortUrls), env, blocked, payload, who.value, freshId, now, purgeFails))
  {
    var who := ResolveApiKey(db.users, env, apiKey, UnauthorizedObject);
    if who.Threw? {
      return Threw(who.exn);
    }
    r := ShortUrlHelpers.CreateShortUrlUnsafe(db, env, blocked, payload, who.value, freshId, now, purgeFails);
  }

  /** `updateShortUrl({ id, newId, title, url })`: a plain Error without a
      session, then the owner-scoped update with the underscore check. */
  method UpdateShortUrl(db: Database, env: Env, upd: ShortUrlUpdate, session: Option<string>, now: int)
    returns (r: Outcome<ShortUrlHelpers.UpdateResult>)
    requires db.Valid()
    modifies db
    ensures db.Valid() && db.users == old(db.users)
    ensures session.None? ==> r == Threw(SessionNotFound) && db.shortUrls == old(db.shortUrls)
    ensures session.Some? ==>
              r.Returned? && (r.value, db.shortUrls) == ShortUrlHelpers.UpdateOutcome(old(db.shortUrls), env, upd, session.value, now)
  {
    if session.None? {
      return Threw(SessionNotFound);
    }
    var res := ShortUrlHelpers.UpdateShortUrlUnsafe(db, env, upd, session.value, now);
    r := Returned(res);
  }

  /** `deleteShortUrl({ id })` once a session exists, as a function of the
      table: the number of rows deleted (the driver's result) and the table
      without every row with that id. */
  function DeleteAnyOutcome(links: seq<Link>, id: string): (nat, seq<Link>) {
    (|Where(links, ShortUrlHelpers.IdIs(id))|, Without(links, ShortUrlHelpers.IdIs(id)))
  }

  /** `deleteShortUrl({ id })`. */
  method DeleteShortUrl(db: Database, id: string, session: Option<string>) returns (r: Outcome<nat>)
    requires db.Valid()
    modifies db
    ensures db.Valid() && db.users == old(db.users)
    ensures session.None? ==> r == Threw(SessionNotFound) && db.shortUrls == old(db.shortUrls)
    ensures session.Some? ==> r.Returned? && (r.value, db.shortUrls) == DeleteAnyOutcome(old(db.shortUrls), id)
  {
    if session.None? {
      return Threw(SessionNotFound);
    }
    var count := |Where(db.shortUrls, ShortUrlHelpers.IdIs(id))|;
    db.DeleteWhere(ShortUrlHelpers.IdIs(id));
    r := Returned(count);
  }

  /** The delete ignores the owner: whoever is signed in, a row with that id
      owned by someone else is removed. */
  lemma DeleteRemovesOthersRow(links: seq<Link>, id: string, uid: string, k: int)
    requires 0 <= k < |links| && links[k].id == id && links[k].userId != Some(uid)
    ensures links[k] !in DeleteAnyOutcome(links, id).1
    ensures DeleteAnyOutcome(links, id).0 >= 1
  {
    WhereMember(links, Not(ShortUrlHelpers.IdIs(id)), links[k]);
    WhereMember(links, ShortUrlHelpers.IdIs(id), links[k]);
  }

  /** An id nobody holds is no error: nothing is deleted and nothing is signalled. */
  lemma DeleteMissingIsSilent(links: seq<Link>, id: string)
    requires forall i :: 0 <= i < |links| ==> links[i].id != id
    ensures DeleteAnyOutcome(links, id) == (0, links)
  {
    WhereNone(links, ShortUrlHelpers.IdIs(id));
    WhereAll(links, Not(ShortUrlHelpers.IdIs(id)));
  }

  /** With unique ids, the delete removes exactly the row holding the id. */
  lemma DeleteRemovesExactlyOne(links: seq<Link>, id: string, k: int)
    requires LinkIdsUnique(links)
    requires 0 <= k < |links| && links[k].id == id
    ensures DeleteAnyOutcome(links, id) == (1, links[..k] + links[k + 1..])
  {
    var cond := ShortUrlHelpers.IdIs(id);
    forall j | 0 <= j < |links| && j != k ensures Not(cond)(links[j]) && !cond(links[j]) {
      assert links[j].id != links[k].id;
    }
    WhereDropsOne(links, Not(cond), k);
    WhereSingle(links, cond, k);
  }
}
