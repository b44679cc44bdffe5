/** The URL shortener of the fourth backend: a module-level dictionary from short codes to
    entries, filled by the shortening handler and counted by the redirect handler. */
module UrlShortener {
  import opened Http

  datatype UrlEntry = UrlEntry(longUrl: string, clicks: nat, createdAt: int)

  /** The body answered by create_short_url. */
  datatype Shortened = Shortened(shortUrl: string, clicks: nat)

  /** The body answered by get_stats. */
  datatype UrlStats = UrlStats(shortCode: string, longUrl: string, clicks: nat, createdAt: int)

  /** `timedelta(days=EXPIRATION_DAYS)` with EXPIRATION_DAYS = 7, in seconds. */
  const ExpirationSeconds: int := 7 * 24 * 60 * 60

  /** An entry still redirects when at most seven days have passed since it was created. */
  predicate Live(e: UrlEntry, now: int) {
    now - e.createdAt <= ExpirationSeconds
  }

  /** The regeneration loop of create_short_url: `candidates` are the successive values of
      `secrets.token_urlsafe(6)`, and the loop stops at the first one not in use. */
  method FirstFreeCode(taken: set<string>, candidates: seq<string>) returns (code: string)
    requires exists i :: 0 <= i < |candidates| && candidates[i] !in taken
    ensures code !in taken
    ensures exists i :: 0 <= i < |candidates| && candidates[i] == code
                        && forall j :: 0 <= j < i ==> candidates[j] in taken
  {
    var i := 0;
    code := candidates[0];
    while code in taken
      invariant 0 <= i < |candidates| && code == candidates[i]
      invariant forall j :: 0 <= j < i ==> candidates[j] in taken
      invariant exists k :: i <= k < |candidates| && candidates[k] !in taken
      decreases |candidates| - i
    {
      i := i + 1;
      code := candidates[i];
    }
  }

  /** `if url_data.custom_code:` treats an empty custom code like a missing one. */
  predicate HasCustomCode(customCode: Option<string>) {
    customCode.Some? && customCode.value != ""
  }

  /** The redirect target answered by redirect_to_long_url. */
  function RedirectTarget(urls: map<string, UrlEntry>, code: string, now: int): (r: Result<string>)
    ensures r.Ok? <==> code in urls && Live(urls[code], now)
    ensures r.Ok? ==> r.value == urls[code].longUrl
    ensures r.Err? ==> r.status == NotFound
  {
    if code !in urls then Err(NotFound)
    else if !Live(urls[code], now) then Err(NotFound)
    else Ok(urls[code].longUrl)
  }

  /** The dictionary after redirect_to_long_url: a successful redirect counts one click. */
  function Clicked(urls: map<string, UrlEntry>, code: string, now: int): (r: map<string, UrlEntry>)
    ensures r.Keys == urls.Keys
    ensures forall c :: c in urls && c != code ==> r[c] == urls[c]
    ensures code in urls ==> r[code].longUrl == urls[code].longUrl && r[code].createdAt == urls[code].createdAt
    ensures code in urls ==>
      r[code].clicks == urls[code].clicks + (if RedirectTarget(urls, code, now).Ok? then 1 else 0)
  {
    if code in urls && Live(urls[code], now) then
      urls[code := urls[code].(clicks := urls[code].clicks + 1)]
    else urls
  }

  /** get_stats: read-only, and blind to expiry. */
  function StatsOf(urls: map<string, UrlEntry>, code: string): (r: Result<UrlStats>)
    ensures r.Ok? <==> code in urls
    ensures r.Err? ==> r.status == NotFound
    ensures r.Ok? ==> r.value == UrlStats(code, urls[code].longUrl, urls[code].clicks, urls[code].createdAt)
  {
    if code in urls then
      var e := urls[code];
      Ok(UrlStats(code, e.longUrl, e.clicks, e.createdAt))
    else Err(NotFound)
  }

  /** A freshly shortened code reports its URL, no clicks, and its creation time. */
  lemma CreatedThenStats(urls: map<string, UrlEntry>, code: string, longUrl: string, now: int)
    requires code !in urls
    ensures StatsOf(urls[code := UrlEntry(longUrl, 0, now)], code) == Ok(UrlStats(code, longUrl, 0, now))
    ensures forall c :: c in urls ==> StatsOf(urls[code := UrlEntry(longUrl, 0, now)], c) == StatsOf(urls, c)
  {
  }

  /** A fresh entry redirects for exactly seven days, the boundary included. */
  lemma FreshEntryLifetime(urls: map<string, UrlEntry>, code: string, longUrl: string, now: int, later: int)
    requires code !in urls
    ensures RedirectTarget(urls[code := UrlEntry(longUrl, 0, now)], code, later).Ok?
        <==> later - now <= ExpirationSeconds
  {
  }

  /** The click count seen by get_stats rises by one per successful redirect; an expired code
      keeps its entry and its count. */
  lemma RedirectThenStats(urls: map<string, UrlEntry>, code: string, now: int)
    requires code in urls
    ensures StatsOf(Clicked(urls, code, now), code).Ok?
    ensures StatsOf(Clicked(urls, code, now), code).value.clicks
         == StatsOf(urls, code).value.clicks + (if Live(urls[code], now) then 1 else 0)
  {
  }

  /** The module-level `url_db` dictionary. */
  class UrlDb {
    var urls: map<string, UrlEntry>

    constructor ()
      ensures urls == map[]
    {
      urls := map[];
    }

    /** create_short_url. `candidates` stands for the random codes the loop would draw, `now`
        for `datetime.utcnow()` and `baseUrl` for `request.base_url`. */
    method Create(longUrl: string, customCode: Option<string>, candidates: seq<string>, now: int, baseUrl: string)
      returns (r: Result<Shortened>)
      requires !HasCustomCode(customCode) ==> exists i :: 0 <= i < |candidates| && candidates[i] !in urls
      modifies this
      ensures r.Err? <==> HasCustomCode(customCode) && customCode.value in old(urls)
      ensures r.Err? ==> r.status == BadRequest && urls == old(urls)
      ensures r.Ok? ==> exists code :: code !in old(urls) && urls == old(urls)[code := UrlEntry(longUrl, 0, now)]
                          && r.value == Shortened(baseUrl + code, 0)
                          && (HasCustomCode(customCode) ==> code == customCode.value)
                          && (!HasCustomCode(customCode) ==> code in candidates)
    {
      var code: string;
      if HasCustomCode(customCode) {
        code := customCode.value;
        if code in urls {
          return Err(BadRequest);
        }
      } else {
        code := FirstFreeCode(urls.Keys, candidates);
      }
      urls := urls[code := UrlEntry(longUrl, 0, now)];
      r := Ok(Shortened(baseUrl + code, 0));
    }

    /** redirect_to_long_url: answers the long URL to redirect to. */
    method Redirect(code: string, now: int) returns (r: Result<string>)
      modifies this
      ensures r == RedirectTarget(old(urls), code, now)
      ensures urls == Clicked(old(urls), code, now)
    {
      if code !in urls {
        return Err(NotFound);
      }
      var entry := urls[code];
      if now - entry.createdAt > ExpirationSeconds {
        return Err(NotFound);
      }
      urls := urls[code := entry.(clicks := entry.clicks + 1)];
      r := Ok(entry.longUrl);
    }

    /** get_stats. */
    method GetStats(code: string) returns (r: Result<UrlStats>)
      ensures r == StatsOf(urls, code)
    {
      r := StatsOf(urls, code);
    }
  }
}
