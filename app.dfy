/**
 * main.py: the in-memory link store `url_storage` and the three endpoints
 * that use it. The short id that `secrets.token_urlsafe(5)` would draw is an
 * argument of `ShortenUrl`.
 */
module App {
  import opened Common

  /** The fixed origin in front of every short id. */
  const ShortUrlBase: string := "http://shortlink-s4v6.onrender.com/"

  /** Body of `POST /shorten`. */
  datatype ShortenReply =
    | UrlRequired                                     // {"error": "URL is required"}
    | Shortened(shortUrl: string, originalUrl: string)

  /** Outcome of `GET /{short_id}`. */
  datatype RedirectReply =
    | NotFound(status: int, detail: string, errorHeader: string)
    | Redirected(url: string, status: int)

  /** One `POST /shorten` call: the request's `original_url` and the drawn short id. */
  datatype ShortenRequest = ShortenRequest(originalUrl: Option<string>, shortId: string)

  /** `not original_url`: the field is absent, null or the empty string. */
  predicate Missing(originalUrl: Option<string>)
    ensures Missing(originalUrl) <==> originalUrl == None || originalUrl == Some("")
  {
    originalUrl.None? || originalUrl.value == ""
  }

  /**
   * `url_storage` after one shorten call: a present URL is stored verbatim
   * under the short id, replacing whatever was there; no other key moves.
   */
  function Stored(storage: map<string, string>, originalUrl: Option<string>, shortId: string): (r: map<string, string>)
    ensures Missing(originalUrl) ==> r == storage
    ensures !Missing(originalUrl) ==> r.Keys == storage.Keys + {shortId} && r[shortId] == originalUrl.value
    ensures forall k :: k != shortId ==> (k in r <==> k in storage) && (k in r ==> r[k] == storage[k])
  {
    if Missing(originalUrl) then storage else storage[shortId := originalUrl.value]
  }

  /** `redirect`: 404 with an `X-Error` header for an unknown id, else a 307 to the stored URL. */
  function Resolve(storage: map<string, string>, shortId: string): (r: RedirectReply)
    ensures r.Redirected? <==> shortId in storage
    ensures r.Redirected? ==> r.url == storage[shortId] && r.status == 307
    ensures r.NotFound? ==> r == NotFound(404, "Short link not found", "Link not found")
  {
    if shortId !in storage then NotFound(404, "Short link not found", "Link not found")
    else Redirected(storage[shortId], 307)
  }

  /** `url_storage` after a run of shorten calls, oldest first. */
  function Replay(storage: map<string, string>, requests: seq<ShortenRequest>): map<string, string>
    decreases |requests|
  {
    if requests == [] then storage
    else Replay(Stored(storage, requests[0].originalUrl, requests[0].shortId), requests[1..])
  }

  /** A later call writes `shortId` only if it drew the same id and carried a URL. */
  predicate Overwrites(request: ShortenRequest, shortId: string)
  {
    request.shortId == shortId && !Missing(request.originalUrl)
  }

  /** Calls that never write `shortId` leave its entry as it was. */
  lemma {:induction false} ReplayKeeps(storage: map<string, string>, requests: seq<ShortenRequest>, shortId: string)
    requires forall k :: 0 <= k < |requests| ==> !Overwrites(requests[k], shortId)
    ensures shortId in Replay(storage, requests) <==> shortId in storage
    ensures shortId in storage ==> Replay(storage, requests)[shortId] == storage[shortId]
    decreases |requests|
  {
    if requests != [] {
      var next := Stored(storage, requests[0].originalUrl, requests[0].shortId);
      assert !Overwrites(requests[0], shortId);
      ReplayKeeps(next, requests[1..], shortId);
    }
  }

  /**
   * Round trip: once `shortId` maps to `url`, redirecting it yields `url` with
   * a 307, however many calls follow, unless one of them reuses the id.
   */
  lemma ShortenThenRedirect(storage: map<string, string>, url: string, shortId: string, later: seq<ShortenRequest>)
    requires url != ""
    requires forall k :: 0 <= k < |later| ==> !Overwrites(later[k], shortId)
    ensures Resolve(Replay(Stored(storage, Some(url), shortId), later), shortId) == Redirected(url, 307)
  {
    ReplayKeeps(Stored(storage, Some(url), shortId), later, shortId);
  }

  /** The module-level dict `url_storage`. */
  class LinkStore {
    var urlStorage: map<string, string>

    /** The dict as the module starts: empty. */
    constructor ()
      ensures urlStorage == map[]
    {
      urlStorage := map[];
    }

    /**
     * `shorten_url`: a missing or empty URL is refused and nothing changes;
     * otherwise `url_storage[short_id] = original_url`, with no collision check.
     */
    method ShortenUrl(originalUrl: Option<string>, shortId: string) returns (r: ShortenReply)
      modifies this
      ensures urlStorage == Stored(old(urlStorage), originalUrl, shortId)
      ensures Missing(originalUrl) <==> r == UrlRequired
      ensures !Missing(originalUrl) ==> r == Shortened(ShortUrlBase + shortId, originalUrl.value)
    {
      if originalUrl.None? || originalUrl.value == "" {
        return UrlRequired;
      }
      urlStorage := urlStorage[shortId := originalUrl.value];
      r := Shortened(ShortUrlBase + shortId, originalUrl.value);
    }

    /** `redirect`: reads the dict and changes nothing. */
    method Redirect(shortId: string) returns (r: RedirectReply)
      ensures r == Resolve(urlStorage, shortId)
      ensures r.Redirected? ==> r.url == urlStorage[shortId]
    {
      if shortId !in urlStorage {
        return NotFound(404, "Short link not found", "Link not found");
      }
      var targetUrl := urlStorage[shortId];
      r := Redirected(targetUrl, 307);
    }

    /** `show_all`: the whole dict, not filtered by any user. */
    method ShowAll() returns (links: map<string, string>)
      ensures links.Keys == urlStorage.Keys
      ensures forall k :: k in links ==> links[k] == urlStorage[k]
    {
      links := urlStorage;
    }
  }
}
