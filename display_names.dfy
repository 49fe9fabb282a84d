/**
 * Memoised display-name resolution. The resolver owns the run-wide cache from
 * login to display name; a login is looked up on the profile endpoint only the
 * first time it is asked for.
 */
module DisplayNames {
  import opened Wrappers
  import opened GitHub

  /**
   * The display name a profile answer yields: the profile's `name` on status
   * 200 (the empty string when the key is absent, `null` kept as such), and
   * the empty string on any other status.
   */
  function NameFromProfile(r: Response<Profile>): (name: JsonString)
  {
    if r.status == 200 then
      match r.body.name
      case None => Text("")
      case Some(n) => n
    else Text("")
  }

  class Resolver {
    /** The profile endpoint. */
    const profileOf: ProfileOracle
    /** Login to display name, kept for the whole run. */
    var cache: map<string, JsonString>
    /** Every login looked up on the profile endpoint, in order. */
    ghost var lookups: seq<string>

    /**
     * Every cached name is what the profile endpoint gave for that login, the
     * cached logins are exactly the ones looked up, and no login was looked
     * up twice.
     */
    ghost predicate Valid()
      reads this
    {
      && (forall u :: u in cache ==> cache[u] == NameFromProfile(profileOf(u)))
      && (forall u :: u in cache <==> u in lookups)
      && (forall i, j :: 0 <= i < j < |lookups| ==> lookups[i] != lookups[j])
    }

    constructor (profileOf: ProfileOracle)
      ensures Valid()
      ensures this.profileOf == profileOf && cache == map[] && lookups == []
    {
      this.profileOf := profileOf;
      cache := map[];
      lookups := [];
    }

    /**
     * A cached login is answered from the cache with no lookup; otherwise the
     * profile is looked up once and its name (or "" on failure) is cached and
     * returned. Only the entry for `username` can change.
     */
    method FetchDisplayName(username: string) returns (name: JsonString)
      requires Valid()
      modifies this
      ensures Valid()
      ensures cache == old(cache)[username := name]
      ensures name == NameFromProfile(profileOf(username))
      ensures username in old(cache) ==> name == old(cache)[username] && lookups == old(lookups)
      ensures username !in old(cache) ==> lookups == old(lookups) + [username]
    {
      if username in cache {
        return cache[username];
      }
      var response := profileOf(username);
      lookups := lookups + [username];
      if response.status == 200 {
        var displayName := match response.body.name
          case None => Text("")
          case Some(n) => n;
        cache := cache[username := displayName];
        return displayName;
      } else {
        cache := cache[username := Text("")];
        return Text("");
      }
    }
  }
}
