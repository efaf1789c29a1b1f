/** When .NET's key sets were fetched, and which of them have reached their age. */
module KeySetLifetime {
  import opened Common
  import opened KeySets

  class Lifetime {
    var fetchedAt: map<nat, Time>

    constructor ()
      ensures fetchedAt == map[]
    {
      fetchedAt := map[];
    }

    // The fetch that brought cfg has just completed.
    method Fetched(cfg: nat, now: Time)
      modifies this
      ensures fetchedAt == old(fetchedAt)[cfg := now]
    {
      fetchedAt := fetchedAt[cfg := now];
    }

    // One that no fetch has stamped is aged from the first time it is asked about.
    method IsExpired(cfg: nat, now: Time, later: Time) returns (expired: bool)
      requires now <= later
      modifies this
      ensures cfg in old(fetchedAt) ==>
                fetchedAt == old(fetchedAt) && (expired <==> now - fetchedAt[cfg] >= MAX_AGE)
      ensures cfg !in old(fetchedAt) ==> fetchedAt == old(fetchedAt)[cfg := later] && !expired
    {
      if cfg !in fetchedAt {
        fetchedAt := fetchedAt[cfg := later];
      }
      expired := now - fetchedAt[cfg] >= MAX_AGE;
    }
  }
}
