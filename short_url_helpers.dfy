/** Owned short links: create, read, update and delete, each first as the
    `...Unsafe` operation on an already resolved user id and then behind the
    two wrappers that resolve that id, one from the session and one from an
    API key. */
module ShortUrlHelpers {
  import opened ShortUrlTypes
  import opened Text
  import opened Foreign
  import opened Store
  import opened ApiHelpers

  /** The shortest identifier a create accepts, in UTF-16 code units. */
  const MinIdLength: nat := 4

  // ---------------------------------------------------------------------
  // Conditions the queries use
  // ---------------------------------------------------------------------

  /** `eq(shortUrls.userId, uid)`. */
  function Owned(uid: string): Link -> bool {
    (l: Link) => l.userId == Some(uid)
  }

  /** `and(eq(shortUrls.id, id), eq(shortUrls.userId, uid))`. */
  function IdAndOwner(id: string, uid: string): Link -> bool {
    (l: Link) => l.id == id && l.userId == Some(uid)
  }

  /** `eq(shortUrls.id, id)`. */
  function IdIs(id: string): Link -> bool {
    (l: Link) => l.id == id
  }

  // ---------------------------------------------------------------------
  // Read
  // ---------------------------------------------------------------------

  /** `getShortUrlsUnsafe(uid)`: the caller's rows and nobody else's. */
  function GetShortUrlsUnsafe(links: seq<Link>, uid: string): (r: seq<Link>)
    ensures forall l :: l in r <==> l in links && l.userId == Some(uid)
  {
    WhereMembers(links, Owned(uid));
    Where(links, Owned(uid))
  }

  /** `getShortUrlsSessioned()`. */
  function GetShortUrlsSessioned(links: seq<Link>, session: Option<string>): (r: Outcome<seq<Link>>)
    ensures session.None? <==> r == Threw(UnauthorizedError)
    ensures r.Returned? ==> forall l :: l in r.value <==> l in links && l.userId == session
  {
    match session
    case None => Threw(UnauthorizedError)
    case Some(uid) => Returned(GetShortUrlsUnsafe(links, uid))
  }

  /** `getShortUrlsWithApiKey(apiKey)`. */
  function GetShortUrlsWithApiKey(users: seq<User>, links: seq<Link>, env: Env, apiKey: string): (r: Outcome<seq<Link>>)
    ensures var who := ResolveApiKey(users, env, apiKey, UnauthorizedError);
            && (who.Threw? ==> r == Threw(who.exn))
            && (who.Returned? ==> r.Returned? && forall l :: l in r.value <==> l in links && l.userId == Some(who.value))
  {
    match ResolveApiKey(users, env, apiKey, UnauthorizedError)
    case Threw(e) => Threw(e)
    case Returned(uid) => Returned(GetShortUrlsUnsafe(links, uid))
  }

  /** A list handler over these helpers: the caller's rows with status 200. */
  function ListHandler(users: seq<User>, links: seq<Link>, env: Env): string -> Outcome<Response> {
    apiKey =>
      match GetShortUrlsWithApiKey(users, links, env, apiKey)
      case Returned(rows) => Returned(Response(200, LinkRows(rows)))
      case Threw(e) => Threw(e)
  }

  /** A key whose prefix matches a user but which is not base64 is answered
      with 500: `atob` throws outside the `try`, and the funnel sees an
      error that is not a `ShortUrlApiError`. */
  lemma UndecodableKeyAnswers500(users: seq<User>, links: seq<Link>, env: Env, authorization: Option<string>)
    requires Truthy(BearerToken(authorization))
    requires var u := FirstWithApiKey(users, SliceTo(BearerToken(authorization).value, PrefixLength));
             u.Some? && env.keyImportable(env.utf8Encode(SaltText(u.value)))
    requires env.base64Decode(BearerToken(authorization).value).None?
    ensures WithApiKey(authorization, ListHandler(users, links, env)) == Response(500, ErrorMessage(ServerErrorMessage))
  {
    var token := BearerToken(authorization).value;
    assert GetUserIdForApiKey(users, env, token) == Threw(InvalidBase64);
  }

  /** A key whose prefix matches nobody is answered with 401. */
  lemma UnknownKeyAnswers401(users: seq<User>, links: seq<Link>, env: Env, authorization: Option<string>)
    requires Truthy(BearerToken(authorization))
    requires forall i :: 0 <= i < |users| ==> users[i].apiKey != Some(SliceTo(BearerToken(authorization).value, PrefixLength))
    ensures WithApiKey(authorization, ListHandler(users, links, env)) == Response(401, ErrorMessage("Unauthorized"))
  {
    var token := BearerToken(authorization).value;
    assert GetUserIdForApiKey(users, env, token) == Returned(NoMatch);
  }

  // ---------------------------------------------------------------------
  // Create
  // ---------------------------------------------------------------------

  /** `sanitize(urlPayload.id || '') || nanoid(6)`, with `freshId` the generated id. */
  function ResolveId(env: Env, payload: ShortUrlPayload, freshId: string): string {
    var chosen := env.sanitize(OrElse(payload.id, ""));
    if chosen != "" then chosen else freshId
  }

  /** The first entry of the blocklist that occurs in the host, if any. */
  function FirstBlocked(host: string, blocked: seq<string>): (r: Option<string>)
    ensures r.None? <==> forall i :: 0 <= i < |blocked| ==> !Contains(host, blocked[i])
    ensures r.Some? ==> exists i :: 0 <= i < |blocked| && blocked[i] == r.value && Contains(host, r.value)
                                   && forall j :: 0 <= j < i ==> !Contains(host, blocked[j])
    decreases |blocked|
  {
    if |blocked| == 0 then None
    else if Contains(host, blocked[0]) then Some(blocked[0])
    else
      var r := FirstBlocked(host, blocked[1..]);
      assert forall i :: 1 <= i < |blocked| ==> blocked[i] == blocked[1..][i - 1];
      r
  }

  /** `urlPayload.clickLimit && isNaN(urlPayload.clickLimit)`. */
  predicate ClickLimitInvalid(env: Env, c: ClickLimit) {
    ClickLimitTruthy(c) && c.TextLimit? && !env.numericText(c.text)
  }

  /** The row a create inserts: the caller as owner, the normalised URL, the payload's metadata. */
  function NewRow(payload: ShortUrlPayload, uid: string, id: string, href: string, now: int): Link {
    Link(id, Some(uid), href, payload.title, payload.enabled, payload.clickLimit,
         payload.password, payload.timeOffset, now, now)
  }

  /** `createShortUrlUnsafe(urlPayload, uid)` as a function of the table: the
      outcome and the table afterwards. `purgeFails` says whether the
      blocklist purge hits a database error, which the code swallows. */
  function CreateOutcome(links: seq<Link>, env: Env, blocked: seq<string>, payload: ShortUrlPayload,
                         uid: string, freshId: string, now: int, purgeFails: bool): (Outcome<Link>, seq<Link>)
  {
    var id := ResolveId(env, payload, freshId);
    match env.parseUrl(payload.url)
    case None => (Threw(InvalidUrl), links)
    case Some(url) =>
      if Utf16Length(id) < MinIdLength then (Threw(ApiError(400, TooShortMessage)), links)
      else
        match FirstBlocked(url.host, blocked)
        case Some(entry) =>
          (Threw(ApiError(406, BlockedMessage)), if purgeFails then links else Without(links, UrlLike(entry)))
        case None =>
          if ClickLimitInvalid(env, payload.clickLimit) then (Threw(ApiError(400, ClickLimitMessage)), links)
          else if StartsWith(id, "_") then (Threw(ApiError(400, UnderscoreMessage)), links)
          else if HasId(links, id) then (Threw(ApiError(400, ExistsMessage)), links)
          else
            var row := NewRow(payload, uid, id, url.href, now);
            (Returned(row), links + [row])
  }

  /** `createShortUrlUnsafe(urlPayload, uid)`, with `freshId` the value
      `nanoid(6)` draws and `now` the clock. */
  method CreateShortUrlUnsafe(db: Database, env: Env, blocked: seq<string>, payload: ShortUrlPayload,
                              uid: string, freshId: string, now: int, purgeFails: bool)
    returns (r: Outcome<Link>)
    requires db.Valid()
    modifies db
    ensures db.Valid() && db.users == old(db.users)
    ensures (r, db.shortUrls) == CreateOutcome(old(db.shortUrls), env, blocked, payload, uid, freshId, now, purgeFails)
  {
    var id := ResolveId(env, payload, freshId);
    var parsed := env.parseUrl(payload.url);
    if parsed.None? {
      return Threw(InvalidUrl);
    }
    var url := parsed.value;
    if Utf16Length(id) < MinIdLength {
      return Threw(ApiError(400, TooShortMessage));
    }
    var i := 0;
    while i < |blocked|
      invariant 0 <= i <= |blocked|
      invariant FirstBlocked(url.host, blocked[i..]) == FirstBlocked(url.host, blocked)
      invariant db.shortUrls == old(db.shortUrls) && db.users == old(db.users)
    {
      if Contains(url.host, blocked[i]) {
        if !purgeFails {
          db.DeleteWhere(UrlLike(blocked[i]));
        }
        return Threw(ApiError(406, BlockedMessage));
      }
      assert blocked[i..][1..] == blocked[i + 1..];
      i := i + 1;
    }
    assert FirstBlocked(url.host, blocked) == None;
    if ClickLimitInvalid(env, payload.clickLimit) {
      return Threw(ApiError(400, ClickLimitMessage));
    }
    var row := NewRow(payload, uid, id, url.href, now);
    if StartsWith(row.id, "_") {
      return Threw(ApiError(400, UnderscoreMessage));
    }
    var inserted := db.Insert(row);
    if inserted {
      r := Returned(row);
    } else {
      r := Threw(ApiError(400, ExistsMessage));
    }
  }

  /** A URL that does not parse throws a TypeError, not an API error, and changes nothing. */
  lemma CreateRejectsMalformedUrl(links: seq<Link>, env: Env, blocked: seq<string>, payload: ShortUrlPayload,
                                  uid: string, freshId: string, now: int, purgeFails: bool)
    requires env.parseUrl(payload.url).None?
    ensures var (out, after) := CreateOutcome(links, env, blocked, payload, uid, freshId, now, purgeFails);
            out.Threw? && !out.exn.ApiError? && after == links
  {
  }

  /** An id shorter than four UTF-16 code units fails with 400 before the blocklist
      is consulted, so even a blocked host purges nothing. */
  lemma CreateRejectsShortIdFirst(links: seq<Link>, env: Env, blocked: seq<string>, payload: ShortUrlPayload,
                                  uid: string, freshId: string, now: int, purgeFails: bool)
    requires env.parseUrl(payload.url).Some?
    requires Utf16Length(ResolveId(env, payload, freshId)) < MinIdLength
    ensures CreateOutcome(links, env, blocked, payload, uid, freshId, now, purgeFails)
            == (Threw(ApiError(400, TooShortMessage)), links)
  {
  }

  /** A blocked host fails with 406 whatever the click limit and the id's first
      character; unless the purge fails, exactly the rows of any owner whose
      url contains the first matching entry are deleted. */
  lemma CreateBlockedPurges(links: seq<Link>, env: Env, blocked: seq<string>, payload: ShortUrlPayload,
                            uid: string, freshId: string, now: int, purgeFails: bool)
    requires env.parseUrl(payload.url).Some?
    requires Utf16Length(ResolveId(env, payload, freshId)) >= MinIdLength
    requires FirstBlocked(env.parseUrl(payload.url).value.host, blocked).Some?
    ensures var entry := FirstBlocked(env.parseUrl(payload.url).value.host, blocked).value;
            var (out, after) := CreateOutcome(links, env, blocked, payload, uid, freshId, now, purgeFails);
            && out == Threw(ApiError(406, BlockedMessage))
            && (purgeFails ==> after == links)
            && (!purgeFails ==> forall l :: l in after <==> l in links && !Contains(l.url, entry))
  {
    var entry := FirstBlocked(env.parseUrl(payload.url).value.host, blocked).value;
    WhereMembers(links, Not(UrlLike(entry)));
  }

  /** Past the blocklist, a non-numeric click limit and then a leading
      underscore each fail with 400 and change nothing. */
  lemma CreateValidatesAfterBlocklist(links: seq<Link>, env: Env, blocked: seq<string>, payload: ShortUrlPayload,
                                      uid: string, freshId: string, now: int, purgeFails: bool)
    requires env.parseUrl(payload.url).Some?
    requires Utf16Length(ResolveId(env, payload, freshId)) >= MinIdLength
    requires FirstBlocked(env.parseUrl(payload.url).value.host, blocked).None?
    ensures ClickLimitInvalid(env, payload.clickLimit) ==>
              CreateOutcome(links, env, blocked, payload, uid, freshId, now, purgeFails)
              == (Threw(ApiError(400, ClickLimitMessage)), links)
    ensures !ClickLimitInvalid(env, payload.clickLimit) && StartsWith(ResolveId(env, payload, freshId), "_") ==>
              CreateOutcome(links, env, blocked, payload, uid, freshId, now, purgeFails)
              == (Threw(ApiError(400, UnderscoreMessage)), links)
  {
  }

  /** An id already present anywhere in the table, whoever owns it, fails
      with 400 'Short URL already exists' and changes nothing. */
  lemma CreateRejectsTakenId(links: seq<Link>, env: Env, blocked: seq<string>, payload: ShortUrlPayload,
                             uid: string, freshId: string, now: int, purgeFails: bool, k: int)
    requires env.parseUrl(payload.url).Some?
    requires Utf16Length(ResolveId(env, payload, freshId)) >= MinIdLength
    requires FirstBlocked(env.parseUrl(payload.url).value.host, blocked).None?
    requires !ClickLimitInvalid(env, payload.clickLimit) && !StartsWith(ResolveId(env, payload, freshId), "_")
    requires 0 <= k < |links| && links[k].id == ResolveId(env, payload, freshId)
    ensures CreateOutcome(links, env, blocked, payload, uid, freshId, now, purgeFails)
            == (Threw(ApiError(400, ExistsMessage)), links)
  {
  }

  /** Every failure except the blocked host leaves the table as it was. */
  lemma CreateFailuresLeaveTable(links: seq<Link>, env: Env, blocked: seq<string>, payload: ShortUrlPayload,
                                 uid: string, freshId: string, now: int, purgeFails: bool)
    ensures var (out, after) := CreateOutcome(links, env, blocked, payload, uid, freshId, now, purgeFails);
            out.Threw? && out.exn != ApiError(406, BlockedMessage) ==> after == links
  {
  }

  /** A successful create appends exactly one row: the resolved id, the
      caller as owner and the parsed URL's normalised text; that id was free. */
  lemma CreateInsertsOneRow(links: seq<Link>, env: Env, blocked: seq<string>, payload: ShortUrlPayload,
                            uid: string, freshId: string, now: int, purgeFails: bool)
    ensures var (out, after) := CreateOutcome(links, env, blocked, payload, uid, freshId, now, purgeFails);
            out.Returned? ==>
              && after == links + [out.value]
              && out.value.id == ResolveId(env, payload, freshId)
              && !HasId(links, out.value.id)
              && Utf16Length(out.value.id) >= MinIdLength && !StartsWith(out.value.id, "_")
              && out.value.userId == Some(uid)
              && env.parseUrl(payload.url).Some? && out.value.url == env.parseUrl(payload.url).value.href
              && out.value.createdAt == now && out.value.updatedAt == now
  {
  }

  /** Create keeps ids unique across the table. */
  lemma CreateKeepsIdsUnique(links: seq<Link>, env: Env, blocked: seq<string>, payload: ShortUrlPayload,
                             uid: string, freshId: string, now: int, purgeFails: bool)
    requires LinkIdsUnique(links)
    ensures LinkIdsUnique(CreateOutcome(links, env, blocked, payload, uid, freshId, now, purgeFails).1)
  {
    var id := ResolveId(env, payload, freshId);
    var (out, after) := CreateOutcome(links, env, blocked, payload, uid, freshId, now, purgeFails);
    if env.parseUrl(payload.url).Some? && Utf16Length(id) >= MinIdLength {
      var host := env.parseUrl(payload.url).value.host;
      match FirstBlocked(host, blocked)
      case Some(entry) =>
        WhereKeepsIdsUnique(links, Not(UrlLike(entry)));
      case None =>
        if out.Returned? {
          AppendKeepsIdsUnique(links, out.value);
        }
    }
  }

  /** After a successful create, the caller's listing holds the new id exactly once. */
  lemma CreateThenReadOnce(links: seq<Link>, env: Env, blocked: seq<string>, payload: ShortUrlPayload,
                           uid: string, freshId: string, now: int, purgeFails: bool)
    requires CreateOutcome(links, env, blocked, payload, uid, freshId, now, purgeFails).0.Returned?
    ensures var (out, after) := CreateOutcome(links, env, blocked, payload, uid, freshId, now, purgeFails);
            Where(GetShortUrlsUnsafe(after, uid), IdIs(out.value.id)) == [out.value]
  {
    var (out, after) := CreateOutcome(links, env, blocked, payload, uid, freshId, now, purgeFails);
    var row := out.value;
    CreateInsertsOneRow(links, env, blocked, payload, uid, freshId, now, purgeFails);
    WhereAppend(links, row, Owned(uid));
    var mine := Where(links, Owned(uid));
    assert GetShortUrlsUnsafe(after, uid) == mine + [row];
    WhereAppend(mine, row, IdIs(row.id));
    forall j | 0 <= j < |mine| ensures !IdIs(row.id)(mine[j]) {
      WhereMember(links, Owned(uid), mine[j]);
    }
    WhereNone(mine, IdIs(row.id));
  }

  /** `createShortUrlSessioned(urlPayload)`. */
  method CreateShortUrlSessioned(db: Database, env: Env, blocked: seq<string>, payload: ShortUrlPayload,
                                 session: Option<string>, freshId: string, now: int, purgeFails: bool)
    returns (r: Outcome<Link>)
    requires db.Valid()
    modifies db
    ensures db.Valid() && db.users == old(db.users)
    ensures session.None? ==> r == Threw(UnauthorizedError) && db.shortUrls == old(db.shortUrls)
    ensures session.Some? ==>
              (r, db.shortUrls) == CreateOutcome(old(db.shortUrls), env, blocked, payload, session.value, freshId, now, purgeFails)
  {
    if session.None? {
      return Threw(UnauthorizedError);
    }
    r := CreateShortUrlUnsafe(db, env, blocked, payload, session.value, freshId, now, purgeFails);
  }

  /** `createShortUrlWithApiKey(urlPayload, apiKey)`. */
  method CreateShortUrlWithApiKey(db: Database, env: Env, blocked: seq<string>, payload: ShortUrlPayload,
                                  apiKey: string, freshId: string, now: int, purgeFails: bool)
    returns (r: Outcome<Link>)
    requires db.Valid()
    modifies db
    ensures db.Valid() && db.users == old(db.users)
    ensures var who := ResolveApiKey(old(db.users), env, apiKey, UnauthorizedError);
            && (who.Threw? ==> r == Threw(who.exn) && db.shortUrls == old(db.shortUrls))
            && (who.Returned? ==>
                  (r, db.shortUrls) == CreateOutcome(old(db.shortUrls), env, blocked, payload, who.value, freshId, now, purgeFails))
  {
    var who := ResolveApiKey(db.users, env, apiKey, UnauthorizedError);
    if who.Threw? {
      return Threw(who.exn);
    }
    r := CreateShortUrlUnsafe(db, env, blocked, payload, who.value, freshId, now, purgeFails);
  }

  // ---------------------------------------------------------------------
  // Update
  // ---------------------------------------------------------------------

  /** What an update resolves to: the driver's result (the number of rows it
      changed) or an `{ error: { code, message } }` object. */
  datatype UpdateResult = Updated(rowCount: nat) | UpdateError(code: string, message: string)

  /** `newId || id`. */
  function TargetId(upd: ShortUrlUpdate): string {
    OrElse(upd.newId, upd.id)
  }

  /** The `set` of the update: new id, title-or-null, url as given, fresh `updatedAt`. */
  function Rename(newId: string, title: Option<string>, url: string, now: int): Link -> Link {
    (l: Link) => l.(id := newId, title := title, url := url, updatedAt := now)
  }

  /** The change an update applies to the rows matching (id, caller). */
  function UpdateChange(env: Env, upd: ShortUrlUpdate, now: int): Link -> Link {
    Rename(env.sanitize(TargetId(upd)), OrNull(upd.title), upd.url, now)
  }

  /** `updateShortUrlUnsafe(updatedShortUrl, uid)` as a function of the table. */
  function UpdateOutcome(links: seq<Link>, env: Env, upd: ShortUrlUpdate, uid: string, now: int): (UpdateResult, seq<Link>) {
    if StartsWith(TargetId(upd), "_") then (UpdateError("400", UnderscoreMessage), links)
    else
      var next := UpdateWhere(links, IdAndOwner(upd.id, uid), UpdateChange(env, upd, now));
      if LinkIdsUnique(next) then (Updated(|Where(links, IdAndOwner(upd.id, uid))|), next)
      else (UpdateError("23505", ExistsMessage), links)
  }

  /** `updateShortUrlUnsafe(updatedShortUrl, uid)`. */
  method UpdateShortUrlUnsafe(db: Database, env: Env, upd: ShortUrlUpdate, uid: string, now: int)
    returns (r: UpdateResult)
    requires db.Valid()
    modifies db
    ensures db.Valid() && db.users == old(db.users)
    ensures (r, db.shortUrls) == UpdateOutcome(old(db.shortUrls), env, upd, uid, now)
  {
    var xid := TargetId(upd);
    if StartsWith(xid, "_") {
      return UpdateError("400", UnderscoreMessage);
    }
    var count := |Where(db.shortUrls, IdAndOwner(upd.id, uid))|;
    var ok := db.Update(IdAndOwner(upd.id, uid), UpdateChange(env, upd, now));
    if ok {
      r := Updated(count);
    } else {
      r := UpdateError("23505", ExistsMessage);
    }
  }

  /** A target id that starts with `_` is refused with code '400' before any write. */
  lemma UpdateRejectsUnderscore(links: seq<Link>, env: Env, upd: ShortUrlUpdate, uid: string, now: int)
    requires StartsWith(TargetId(upd), "_")
    ensures UpdateOutcome(links, env, upd, uid, now) == (UpdateError("400", UnderscoreMessage), links)
  {
  }

  /** An update changes only the caller's row with that id: its id becomes
      `sanitize(newId || id)`, its title the title or null and its url the
      given text (neither parsed nor length-checked), its `updatedAt` the
      clock; every other column stays, and every other row is untouched. */
  lemma UpdateTouchesOnlyOwnedRow(links: seq<Link>, env: Env, upd: ShortUrlUpdate, uid: string, now: int)
    ensures var (res, after) := UpdateOutcome(links, env, upd, uid, now);
            |after| == |links|
            && (forall i :: 0 <= i < |links| && !(links[i].id == upd.id && links[i].userId == Some(uid)) ==> after[i] == links[i])
            && (forall i :: 0 <= i < |links| ==> after[i].userId == links[i].userId && after[i].createdAt == links[i].createdAt)
            && (res.Updated? ==>
                  forall i :: 0 <= i < |links| && links[i].id == upd.id && links[i].userId == Some(uid) ==>
                    after[i] == links[i].(id := env.sanitize(TargetId(upd)), title := OrNull(upd.title),
                                          url := upd.url, updatedAt := now))
  {
  }

  /** With no row matching (id, caller) the update is a silent no-op, even
      when another user owns that id. */
  lemma UpdateWithoutMatchIsNoOp(links: seq<Link>, env: Env, upd: ShortUrlUpdate, uid: string, now: int)
    requires LinkIdsUnique(links)
    requires !StartsWith(TargetId(upd), "_")
    requires forall i :: 0 <= i < |links| ==> !(links[i].id == upd.id && links[i].userId == Some(uid))
    ensures UpdateOutcome(links, env, upd, uid, now) == (Updated(0), links)
  {
    var next := UpdateWhere(links, IdAndOwner(upd.id, uid), UpdateChange(env, upd, now));
    assert next == links;
    WhereNone(links, IdAndOwner(upd.id, uid));
  }

  /** With the caller's row at `k` matching, the update collides (code
      '23505', nothing changed) exactly when another row already holds the
      new id; otherwise it reports one row updated. */
  lemma UpdateCollidesIffTargetTaken(links: seq<Link>, env: Env, upd: ShortUrlUpdate, uid: string, now: int, k: int)
    requires LinkIdsUnique(links)
    requires !StartsWith(TargetId(upd), "_")
    requires 0 <= k < |links| && links[k].id == upd.id && links[k].userId == Some(uid)
    ensures var (res, after) := UpdateOutcome(links, env, upd, uid, now);
            && (res == UpdateError("23505", ExistsMessage) <==>
                 exists j :: 0 <= j < |links| && j != k && links[j].id == env.sanitize(TargetId(upd)))
            && (res.UpdateError? ==> after == links)
            && (res.Updated? ==> res.rowCount == 1)
  {
    var newId := env.sanitize(TargetId(upd));
    var cond := IdAndOwner(upd.id, uid);
    var next := UpdateWhere(links, cond, UpdateChange(env, upd, now));
    forall j | 0 <= j < |links| && j != k ensures !cond(links[j]) && next[j] == links[j] {
      assert links[j].id != links[k].id;
    }
    assert next[k].id == newId;
    if exists j :: 0 <= j < |links| && j != k && links[j].id == newId {
      var j :| 0 <= j < |links| && j != k && links[j].id == newId;
      if j < k {
        assert next[j].id == next[k].id;
      } else {
        assert next[k].id == next[j].id;
      }
      assert !LinkIdsUnique(next);
    } else {
      forall a, b | 0 <= a < b < |next| ensures next[a].id != next[b].id {
        if a != k && b != k {
          assert next[a] == links[a] && next[b] == links[b];
        }
      }
      assert LinkIdsUnique(next);
      WhereDropsOne(links, Not(cond), k);
      assert Where(links, cond) == [links[k]] by {
        WhereSingle(links, cond, k);
      }
    }
  }

  /** `updateShortUrlSessioned(updatedShortUrl)`: without a session it throws a plain Error. */
  method UpdateShortUrlSessioned(db: Database, env: Env, upd: ShortUrlUpdate, session: Option<string>, now: int)
    returns (r: Outcome<UpdateResult>)
    requires db.Valid()
    modifies db
    ensures db.Valid() && db.users == old(db.users)
    ensures session.None? ==> r == Threw(SessionNotFound) && db.shortUrls == old(db.shortUrls)
    ensures session.Some? ==>
              r.Returned? && (r.value, db.shortUrls) == UpdateOutcome(old(db.shortUrls), env, upd, session.value, now)
  {
    if session.None? {
      return Threw(SessionNotFound);
    }
    var res := UpdateShortUrlUnsafe(db, env, upd, session.value, now);
    r := Returned(res);
  }

  /** `updateShortUrlWithApiKey(updatedShortUrl, apiKey)`. */
  method UpdateShortUrlWithApiKey(db: Database, env: Env, upd: ShortUrlUpdate, apiKey: string, now: int)
    returns (r: Outcome<UpdateResult>)
    requires db.Valid()
    modifies db
    ensures db.Valid() && db.users == old(db.users)
    ensures var who := ResolveApiKey(old(db.users), env, apiKey, UnauthorizedError);
            && (who.Threw? ==> r == Threw(who.exn) && db.shortUrls == old(db.shortUrls))
            && (who.Returned? ==>
                  r.Returned? && (r.value, db.shortUrls) == UpdateOutcome(old(db.shortUrls), env, upd, who.value, now))
  {
    var who := ResolveApiKey(db.users, env, apiKey, UnauthorizedError);
    if who.Threw? {
      return Threw(who.exn);
    }
    var res := UpdateShortUrlUnsafe(db, env, upd, who.value, now);
    r := Returned(res);
  }

  // ---------------------------------------------------------------------
  // Delete
  // ---------------------------------------------------------------------

  /** `deleteShortUrlUnsafe(id, uid)` as a function of the table: check that
      the caller's row exists, then delete it. */
  function DeleteOutcome(links: seq<Link>, id: string, uid: string): (Outcome<()>, seq<Link>) {
    if |Where(links, IdAndOwner(id, uid))| == 0 then (Threw(ApiError(404, NotFoundMessage)), links)
    else (Returned(()), Without(links, IdAndOwner(id, uid)))
  }

  /** `deleteShortUrlUnsafe(id, uid)`. */
  method DeleteShortUrlUnsafe(db: Database, id: string, uid: string) returns (r: Outcome<()>)
    requires db.Valid()
    modifies db
    ensures db.Valid() && db.users == old(db.users)
    ensures (r, db.shortUrls) == DeleteOutcome(old(db.shortUrls), id, uid)
  {
    var data := Where(db.shortUrls, IdAndOwner(id, uid));
    if |data| == 0 {
      return Threw(ApiError(404, NotFoundMessage));
    }
    db.DeleteWhere(IdAndOwner(id, uid));
    r := Returned(());
  }

  /** No row with that id owned by the caller: 404 and nothing changes, even
      when another user owns the id. */
  lemma DeleteWithoutMatchIsNotFound(links: seq<Link>, id: string, uid: string)
    requires forall i :: 0 <= i < |links| ==> !(links[i].id == id && links[i].userId == Some(uid))
    ensures DeleteOutcome(links, id, uid) == (Threw(ApiError(404, NotFoundMessage)), links)
  {
    WhereNone(links, IdAndOwner(id, uid));
  }

  /** With the caller's row at `k`, the delete removes exactly that row. */
  lemma DeleteRemovesExactlyOne(links: seq<Link>, id: string, uid: string, k: int)
    requires LinkIdsUnique(links)
    requires 0 <= k < |links| && links[k].id == id && links[k].userId == Some(uid)
    ensures DeleteOutcome(links, id, uid) == (Returned(()), links[..k] + links[k + 1..])
  {
    var cond := IdAndOwner(id, uid);
    WhereMember(links, cond, links[k]);
    forall j | 0 <= j < |links| && j != k ensures Not(cond)(links[j]) {
      assert links[j].id != links[k].id;
    }
    WhereDropsOne(links, Not(cond), k);
  }

  /** A delete never removes a row the caller does not own. */
  lemma DeleteKeepsOthersRows(links: seq<Link>, id: string, uid: string)
    ensures forall l :: l in links && l.userId != Some(uid) ==> l in DeleteOutcome(links, id, uid).1
  {
    WhereMembers(links, Not(IdAndOwner(id, uid)));
  }

  /** `deleteShortUrlSessioned(id)`. */
  method DeleteShortUrlSessioned(db: Database, id: string, session: Option<string>) returns (r: Outcome<()>)
    requires db.Valid()
    modifies db
    ensures db.Valid() && db.users == old(db.users)
    ensures session.None? ==> r == Threw(UnauthorizedError) && db.shortUrls == old(db.shortUrls)
    ensures session.Some? ==> (r, db.shortUrls) == DeleteOutcome(old(db.shortUrls), id, session.value)
  {
    if session.None? {
      return Threw(UnauthorizedError);
    }
    r := DeleteShortUrlUnsafe(db, id, session.value);
  }

  /** `deleteShortUrlWithApiKey(id, apiKey)`. */
  method DeleteShortUrlWithApiKey(db: Database, env: Env, id: string, apiKey: string) returns (r: Outcome<()>)
    requires db.Valid()
    modifies db
    ensures db.Valid() && db.users == old(db.users)
    ensures var who := ResolveApiKey(old(db.users), env, apiKey, UnauthorizedError);
            && (who.Threw? ==> r == Threw(who.exn) && db.shortUrls == old(db.shortUrls))
            && (who.Returned? ==> (r, db.shortUrls) == DeleteOutcome(old(db.shortUrls), id, who.value))
  {
    var who := ResolveApiKey(db.users, env, apiKey, UnauthorizedError);
    if who.Threw? {
      return Threw(who.exn);
    }
    r := DeleteShortUrlUnsafe(db, id, who.value);
  }
}
