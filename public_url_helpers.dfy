/** Anonymous links: the public listing and the public create, which purges
    blocked hosts, expires anonymous rows older than a day and refuses a host
    that already has more than a hundred anonymous links. */
module PublicUrlHelpers {
  import opened ShortUrlTypes
  import opened Text
  import opened Foreign
  import opened Store
  import ShortUrlHelpers

  /** `.limit(100)` on the public listing. */
  const PublicListLimit: nat := 100
  /** The spam cap: more than this many anonymous links for one host is refused. */
  const SpamThreshold: nat := 100
  /** `INTERVAL '24 hours'`, in the seconds `now` counts. */
  const DayLength: int := 86400
  const SpamMessage: string := "URL marked as spam for the next 24 hours"

  /** The `{ id, url }` projection both public operations return. */
  datatype PublicLink = PublicLink(id: string, url: string)

  function Project(l: Link): PublicLink {
    PublicLink(l.id, l.url)
  }

  /** `isNull(shortUrls.userId)`. */
  function Anonymous(): Link -> bool {
    (l: Link) => l.userId.None?
  }

  /** `and(isNull(shortUrls.userId), lt(shortUrls.createdAt, cutoff))`. */
  function ExpiredAnonymous(cutoff: int): Link -> bool {
    (l: Link) => l.userId.None? && l.createdAt < cutoff
  }

  /** `and(isNull(shortUrls.userId), like(shortUrls.url, '%host%'))`. */
  function AnonymousUrlLike(host: string): Link -> bool {
    (l: Link) => l.userId.None? && Contains(l.url, host)
  }

  /** The `{ id, url }` projection of each row, in order. */
  function ProjectAll(s: seq<Link>): (r: seq<PublicLink>)
    ensures |r| == |s| && forall i :: 0 <= i < |s| ==> r[i] == Project(s[i])
  {
    seq(|s|, i requires 0 <= i < |s| => Project(s[i]))
  }

  /** Projecting a prefix lists each projection no more often than projecting the whole. */
  lemma ProjectPrefix(s: seq<Link>, n: nat)
    requires n <= |s|
    ensures multiset(ProjectAll(s[..n])) <= multiset(ProjectAll(s))
  {
    var all := ProjectAll(s);
    assert ProjectAll(s[..n]) == all[..n];
    assert all == all[..n] + all[n..];
  }

  /** `getPublicShortUrls()`: at most a hundred anonymous links, projected to
      id and url, each from a distinct anonymous row; when there are no more
      than a hundred, all of them. */
  function GetPublicShortUrls(links: seq<Link>): (r: seq<PublicLink>)
    ensures |r| == if |Where(links, Anonymous())| <= PublicListLimit then |Where(links, Anonymous())| else PublicListLimit
    ensures forall k :: 0 <= k < |r| ==> exists l :: l in links && l.userId.None? && r[k] == Project(l)
    ensures multiset(r) <= multiset(ProjectAll(Where(links, Anonymous())))
    ensures |Where(links, Anonymous())| <= PublicListLimit ==>
              forall l :: l in links && l.userId.None? ==> Project(l) in r
  {
    var anon := Where(links, Anonymous());
    var n := if |anon| <= PublicListLimit then |anon| else PublicListLimit;
    var r := ProjectAll(anon[..n]);
    WhereMembers(links, Anonymous());
    assert forall k :: 0 <= k < |r| ==> anon[k] in anon;
    assert forall k :: 0 <= k < |r| ==> anon[k] in links && anon[k].userId.None? && r[k] == Project(anon[k]);
    ProjectPrefix(anon, n);
    assert |anon| <= PublicListLimit ==> forall l :: l in anon ==> Project(l) in r by {
      if |anon| <= PublicListLimit {
        forall l | l in anon ensures Project(l) in r {
          var i :| 0 <= i < |anon| && anon[i] == l;
          assert r[i] == Project(l);
        }
      }
    }
    r
  }

  /** What the public create resolves to: the inserted `[{ id, url }]` or a
      returned `{ error: { code, message } }` object. */
  datatype PublicResult = Created(rows: seq<PublicLink>) | Refused(code: int, message: string)

  /** The row the public create inserts: no owner, the raw url text, no metadata. */
  function PublicRow(id: string, url: string, now: int): Link {
    Link(id, None, url, None, None, NoClickLimit, None, None, now, now)
  }

  /** The table after the expiry purge; unchanged when that delete fails. */
  function Expire(links: seq<Link>, now: int, expiryFails: bool): seq<Link> {
    if expiryFails then links else Without(links, ExpiredAnonymous(now - DayLength))
  }

  /** The url gets past the blocklist loop: it parses whenever the loop runs,
      and its host contains no entry. */
  predicate PassesBlocklist(env: Env, blocked: seq<string>, url: string) {
    && (|blocked| > 0 ==> env.parseUrl(url).Some?)
    && (env.parseUrl(url).Some? ==> ShortUrlHelpers.FirstBlocked(env.parseUrl(url).value.host, blocked).None?)
  }

  /** What follows the blocklist: the expiry, the count and the insert. */
  function AfterBlocklist(links: seq<Link>, env: Env, url: string, freshId: string,
                          now: int, expiryFails: bool, countFails: bool): (Outcome<PublicResult>, seq<Link>)
  {
    var remaining := Expire(links, now, expiryFails);
    var parsed := env.parseUrl(url);
    if parsed.Some? && !countFails && |Where(remaining, AnonymousUrlLike(parsed.value.host))| > SpamThreshold then
      (Returned(Refused(409, SpamMessage)), remaining)
    else if HasId(remaining, freshId) then (Threw(UniqueViolation), remaining)
    else (Returned(Created([PublicLink(freshId, url)])), remaining + [PublicRow(freshId, url, now)])
  }

  /** `createPublicShortUrl({ url })` as a function of the table. `new URL(url)`
      runs once per blocklist entry, uncaught, and once more inside the
      count's `try`, so a malformed url throws only when the blocklist is
      not empty. `purgeFails`, `expiryFails` and `countFails` say which of
      the swallowed database calls fail. */
  function PublicCreateOutcome(links: seq<Link>, env: Env, blocked: seq<string>, url: string, freshId: string,
                               now: int, purgeFails: bool, expiryFails: bool, countFails: bool): (r: (Outcome<PublicResult>, seq<Link>))
    ensures PassesBlocklist(env, blocked, url) ==> r == AfterBlocklist(links, env, url, freshId, now, expiryFails, countFails)
  {
    var parsed := env.parseUrl(url);
    if |blocked| > 0 && parsed.None? then (Threw(InvalidUrl), links)
    else
      var hit := if parsed.Some? then ShortUrlHelpers.FirstBlocked(parsed.value.host, blocked) else None;
      if hit.Some? then
        (Returned(Refused(406, BlockedMessage)), if purgeFails then links else Without(links, UrlLike(hit.value)))
      else AfterBlocklist(links, env, url, freshId, now, expiryFails, countFails)
  }

  /** `createPublicShortUrl({ url })`, with `freshId` the value `nanoid(6)`
      draws and `now` the clock. */
  method CreatePublicShortUrl(db: Database, env: Env, blocked: seq<string>, url: string, freshId: string,
                              now: int, purgeFails: bool, expiryFails: bool, countFails: bool)
    returns (r: Outcome<PublicResult>)
    requires db.Valid()
    modifies db
    ensures db.Valid() && db.users == old(db.users)
    ensures (r, db.shortUrls) == PublicCreateOutcome(old(db.shortUrls), env, blocked, url, freshId, now, purgeFails, expiryFails, countFails)
  {
    var i := 0;
    while i < |blocked|
      invariant 0 <= i <= |blocked|
      invariant i > 0 ==> env.parseUrl(url).Some?
      invariant i > 0 ==> ShortUrlHelpers.FirstBlocked(env.parseUrl(url).value.host, blocked[i..])
                          == ShortUrlHelpers.FirstBlocked(env.parseUrl(url).value.host, blocked)
      invariant db.shortUrls == old(db.shortUrls) && db.users == old(db.users)
    {
      var parsed := env.parseUrl(url);
      if parsed.None? {
        return Threw(InvalidUrl);
      }
      if Contains(parsed.value.host, blocked[i]) {
        if !purgeFails {
          db.DeleteWhere(UrlLike(blocked[i]));
        }
        return Returned(Refused(406, BlockedMessage));
      }
      assert blocked[i..][1..] == blocked[i + 1..];
      i := i + 1;
    }
    assert |blocked| > 0 ==> blocked[|blocked|..] == [];
    if !expiryFails {
      db.DeleteWhere(ExpiredAnonymous(now - DayLength));
    }
    var parsed := env.parseUrl(url);
    if parsed.Some? && !countFails {
      var existing := |Where(db.shortUrls, AnonymousUrlLike(parsed.value.host))|;
      if existing > SpamThreshold {
        return Returned(Refused(409, SpamMessage));
      }
    }
    var row := PublicRow(freshId, url, now);
    var ok := db.Insert(row);
    if ok {
      r := Returned(Created([PublicLink(row.id, row.url)]));
    } else {
      r := Threw(UniqueViolation);
    }
  }

  /** With a non-empty blocklist, a url that does not parse throws a TypeError and changes nothing. */
  lemma PublicCreateRejectsMalformedUrl(links: seq<Link>, env: Env, blocked: seq<string>, url: string, freshId: string,
                                        now: int, purgeFails: bool, expiryFails: bool, countFails: bool)
    requires |blocked| > 0 && env.parseUrl(url).None?
    ensures PublicCreateOutcome(links, env, blocked, url, freshId, now, purgeFails, expiryFails, countFails) == (Threw(InvalidUrl), links)
  {
  }

  /** With an empty blocklist a url that does not parse is never rejected:
      the count's parse failure is swallowed and the raw text is stored. */
  lemma PublicCreateStoresUnparsedUrl(links: seq<Link>, env: Env, url: string, freshId: string,
                                      now: int, purgeFails: bool, expiryFails: bool, countFails: bool)
    requires env.parseUrl(url).None?
    requires !HasId(Expire(links, now, expiryFails), freshId)
    ensures PublicCreateOutcome(links, env, [], url, freshId, now, purgeFails, expiryFails, countFails)
            == (Returned(Created([PublicLink(freshId, url)])), Expire(links, now, expiryFails) + [PublicRow(freshId, url, now)])
  {
  }

  /** A blocked host answers 406; unless the purge fails, exactly the rows of
      any owner whose url contains the first matching entry are gone, and
      neither the expiry nor the insert happens. */
  lemma PublicCreateBlockedPurges(links: seq<Link>, env: Env, blocked: seq<string>, url: string, freshId: string,
                                  now: int, purgeFails: bool, expiryFails: bool, countFails: bool)
    requires env.parseUrl(url).Some?
    requires ShortUrlHelpers.FirstBlocked(env.parseUrl(url).value.host, blocked).Some?
    ensures var entry := ShortUrlHelpers.FirstBlocked(env.parseUrl(url).value.host, blocked).value;
            var (out, after) := PublicCreateOutcome(links, env, blocked, url, freshId, now, purgeFails, expiryFails, countFails);
            && out == Returned(Refused(406, BlockedMessage))
            && (purgeFails ==> after == links)
            && (!purgeFails ==> forall l :: l in after <==> l in links && !Contains(l.url, entry))
  {
    var entry := ShortUrlHelpers.FirstBlocked(env.parseUrl(url).value.host, blocked).value;
    WhereMembers(links, Not(UrlLike(entry)));
  }

  /** Once past the blocklist, every row the expiry keeps survives whatever
      follows: owned rows and anonymous rows less than a day old. Unless the
      expiry fails, no anonymous row older than a day is left. */
  lemma PublicCreateExpiresOnlyOldAnonymous(links: seq<Link>, env: Env, blocked: seq<string>, url: string, freshId: string,
                                            now: int, purgeFails: bool, expiryFails: bool, countFails: bool)
    requires PassesBlocklist(env, blocked, url)
    ensures var after := PublicCreateOutcome(links, env, blocked, url, freshId, now, purgeFails, expiryFails, countFails).1;
            && (forall l :: l in links && (l.userId.Some? || l.createdAt >= now - DayLength) ==> l in after)
            && (!expiryFails ==> forall l :: l in after && l.userId.None? ==> l.createdAt >= now - DayLength)
  {
    var remaining := Expire(links, now, expiryFails);
    var after := AfterBlocklist(links, env, url, freshId, now, expiryFails, countFails).1;
    var row := PublicRow(freshId, url, now);
    assert after == remaining || after == remaining + [row];
    assert forall l :: l in after ==> l in remaining || l == row;
    assert forall l :: l in remaining ==> l in after;
    WhereMembers(links, Not(ExpiredAnonymous(now - DayLength)));
  }

  /** The spam cap: with a parsable, unblocked url and a working count, more
      than a hundred anonymous links for the host are refused with 409 and
      nothing is inserted, while a hundred or fewer let a free id in. */
  lemma PublicCreateSpamCap(links: seq<Link>, env: Env, blocked: seq<string>, url: string, freshId: string,
                            now: int, purgeFails: bool, expiryFails: bool)
    requires env.parseUrl(url).Some? && PassesBlocklist(env, blocked, url)
    ensures var host := env.parseUrl(url).value.host;
            var remaining := Expire(links, now, expiryFails);
            var (out, after) := PublicCreateOutcome(links, env, blocked, url, freshId, now, purgeFails, expiryFails, false);
            && (|Where(remaining, AnonymousUrlLike(host))| > SpamThreshold ==>
                  out == Returned(Refused(409, SpamMessage)) && after == remaining)
            && (|Where(remaining, AnonymousUrlLike(host))| <= SpamThreshold && !HasId(remaining, freshId) ==>
                  out.Returned? && out.value.Created? && |after| == |remaining| + 1)
  {
  }

  /** A failing count never refuses: the insert is attempted whatever the host's count. */
  lemma PublicCreateCountFailureProceeds(links: seq<Link>, env: Env, blocked: seq<string>, url: string, freshId: string,
                                         now: int, purgeFails: bool, expiryFails: bool)
    requires PassesBlocklist(env, blocked, url)
    ensures var out := PublicCreateOutcome(links, env, blocked, url, freshId, now, purgeFails, expiryFails, true).0;
            out == if HasId(Expire(links, now, expiryFails), freshId) then Threw(UniqueViolation)
                   else Returned(Created([PublicLink(freshId, url)]))
  {
  }

  /** A successful public create appends exactly one anonymous row with the
      drawn id and the url text as given, and returns that one `{ id, url }`. */
  lemma PublicCreateInsertsOneRow(links: seq<Link>, env: Env, blocked: seq<string>, url: string, freshId: string,
                                  now: int, purgeFails: bool, expiryFails: bool, countFails: bool)
    ensures var (out, after) := PublicCreateOutcome(links, env, blocked, url, freshId, now, purgeFails, expiryFails, countFails);
            out.Returned? && out.value.Created? ==>
              && out.value.rows == [PublicLink(freshId, url)]
              && !HasId(Expire(links, now, expiryFails), freshId)
              && after == Expire(links, now, expiryFails) + [PublicRow(freshId, url, now)]
              && after[|after| - 1].userId.None? && after[|after| - 1].url == url
  {
  }

  /** The public create keeps ids unique. */
  lemma PublicCreateKeepsIdsUnique(links: seq<Link>, env: Env, blocked: seq<string>, url: string, freshId: string,
                                   now: int, purgeFails: bool, expiryFails: bool, countFails: bool)
    requires LinkIdsUnique(links)
    ensures LinkIdsUnique(PublicCreateOutcome(links, env, blocked, url, freshId, now, purgeFails, expiryFails, countFails).1)
  {
    var parsed := env.parseUrl(url);
    var (out, after) := PublicCreateOutcome(links, env, blocked, url, freshId, now, purgeFails, expiryFails, countFails);
    if !(|blocked| > 0 && parsed.None?) {
      var hit := if parsed.Some? then ShortUrlHelpers.FirstBlocked(parsed.value.host, blocked) else None;
      if hit.Some? {
        WhereKeepsIdsUnique(links, Not(UrlLike(hit.value)));
      } else {
        var remaining := Expire(links, now, expiryFails);
        WhereKeepsIdsUnique(links, Not(ExpiredAnonymous(now - DayLength)));
        if out.Returned? && out.value.Created? {
          AppendKeepsIdsUnique(remaining, PublicRow(freshId, url, now));
        }
      }
    }
  }

  /** A link just created is on the public listing while the listing is not full. */
  lemma PublicCreateThenListed(links: seq<Link>, env: Env, blocked: seq<string>, url: string, freshId: string,
                               now: int, purgeFails: bool, expiryFails: bool, countFails: bool)
    requires var (out, after) := PublicCreateOutcome(links, env, blocked, url, freshId, now, purgeFails, expiryFails, countFails);
             out.Returned? && out.value.Created? && |Where(after, Anonymous())| <= PublicListLimit
    ensures PublicLink(freshId, url) in GetPublicShortUrls(PublicCreateOutcome(links, env, blocked, url, freshId, now, purgeFails, expiryFails, countFails).1)
  {
    var after := PublicCreateOutcome(links, env, blocked, url, freshId, now, purgeFails, expiryFails, countFails).1;
    PublicCreateInsertsOneRow(links, env, blocked, url, freshId, now, purgeFails, expiryFails, countFails);
    assert PublicRow(freshId, url, now) in after;
    assert Project(PublicRow(freshId, url, now)) == PublicLink(freshId, url);
  }
}
