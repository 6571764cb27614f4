/** The in-memory cache of last known good values. Times are points on the clock the caller reads. */
module Cache {
  import opened Text
  import opened Values

  const DAY := 24 * 3600 * 1_000_000_000

  datatype CachedSecret = CachedSecret(data: Bytes, fetchedAt: int)

  /** The entry a lookup at time `now` yields: present, and not older than `maxAge`. */
  function Fresh(secrets: map<string, CachedSecret>, maxAge: int, name: string, now: int): (r: Option<CachedSecret>)
    ensures r.Some? <==> name in secrets && now - secrets[name].fetchedAt <= maxAge
    ensures r.Some? ==> r.value == secrets[name]
  {
    if name in secrets && !(now - secrets[name].fetchedAt > maxAge) then Some(secrets[name]) else None
  }

  class SecretCache {
    var secrets: map<string, CachedSecret>
    const maxAge: int

    constructor (age: int)
      ensures secrets == map[] && maxAge == if age == 0 then DAY else age
    {
      secrets, maxAge := map[], if age == 0 then DAY else age;
    }

    method Get(name: string, now: int) returns (r: Option<CachedSecret>)
      ensures r == Fresh(secrets, maxAge, name, now)
    {
      if name !in secrets {
        return None;
      }
      var age := now - secrets[name].fetchedAt;
      if age > maxAge {
        return None;
      }
      return Some(secrets[name]);
    }

    method Set(name: string, data: Bytes, now: int)
      modifies this
      ensures secrets == old(secrets)[name := CachedSecret(data, now)]
    {
      secrets := secrets[name := CachedSecret(data, now)];
    }

    method Age(name: string, now: int) returns (age: int)
      ensures age == if name in secrets then now - secrets[name].fetchedAt else 0
    {
      age := 0;
      if name in secrets {
        age := now - secrets[name].fetchedAt;
      }
    }

    method Clear()
      modifies this
      ensures secrets == map[]
    {
      secrets := map[];
    }
  }
}
