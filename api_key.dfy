/** `validateApiKey` of app/utils/apiKey.server.ts: a key is valid when it
    belongs to a user whose usage count is below the limit of their tier. */
module ApiKey {
  import opened Wrappers
  import opened Seqs
  import opened Store

  /** JavaScript's `Infinity` becomes `Unlimited`. */
  datatype UsageLimit = Limited(max: nat) | Unlimited

  const BasicLimit: nat := 50
  const ProLimit: nat := 500

  function TierLimit(tier: string): UsageLimit {
    if tier == "basic" then Limited(BasicLimit)
    else if tier == "pro" then Limited(ProLimit)
    else Unlimited
  }

  predicate UnderLimit(usageCount: int, limit: UsageLimit) {
    match limit
    case Limited(max) => usageCount < max
    case Unlimited => true
  }

  predicate WithinQuota(u: User) {
    UnderLimit(u.usageCount, TierLimit(u.tier))
  }

  /** The key is valid exactly when the user the key finds exists and is
      under their tier's limit. */
  function ValidateApiKey(users: seq<User>, apiKey: string): (valid: bool)
    ensures valid ==> exists i :: 0 <= i < |users| && users[i].apiKey == Some(apiKey) && WithinQuota(users[i])
    ensures (forall i :: 0 <= i < |users| ==> users[i].apiKey != Some(apiKey)) ==> !valid
    ensures (forall i :: 0 <= i < |users| && users[i].apiKey == Some(apiKey) ==> !WithinQuota(users[i])) ==> !valid
    ensures forall i :: (0 <= i < |users| && users[i].apiKey == Some(apiKey)
                         && forall j :: 0 <= j < i ==> users[j].apiKey != Some(apiKey))
                        ==> (valid <==> WithinQuota(users[i]))
  {
    match UserByApiKey(users, apiKey)
    case None => false
    case Some(u) =>
      assert forall i :: (0 <= i < |users| && users[i].apiKey == Some(apiKey)
                          && forall j :: 0 <= j < i ==> users[j].apiKey != Some(apiKey)) ==> users[i] == u by {
        forall i | 0 <= i < |users| && users[i].apiKey == Some(apiKey)
                   && (forall j :: 0 <= j < i ==> users[j].apiKey != Some(apiKey))
          ensures users[i] == u
        {
          FindFirstAt((v: User) => v.apiKey == Some(apiKey), users, i);
        }
      }
      WithinQuota(u)
  }

  /** 'basic' allows 50 uses, 'pro' 500, anything else is unlimited; the
      comparison is strict, so a user exactly at the limit is refused. */
  lemma TierLimits(usageCount: int, tier: string)
    ensures tier == "basic" ==> (UnderLimit(usageCount, TierLimit(tier)) <==> usageCount < 50)
    ensures tier == "pro" ==> (UnderLimit(usageCount, TierLimit(tier)) <==> usageCount < 500)
    ensures tier != "basic" && tier != "pro" ==> UnderLimit(usageCount, TierLimit(tier))
  {
  }

  /** For a fixed tier, more usage never turns a refused key into a valid
      one. */
  lemma QuotaMonotone(tier: string, usageCount: int, moreUsage: int)
    requires usageCount <= moreUsage
    ensures UnderLimit(moreUsage, TierLimit(tier)) ==> UnderLimit(usageCount, TierLimit(tier))
  {
  }

  /** A basic user with 49 uses passes; with 50 they are refused. */
  lemma BasicBoundary(u: User)
    requires u.tier == "basic" && u.apiKey.Some?
    ensures ValidateApiKey([u.(usageCount := 49)], u.apiKey.value)
    ensures !ValidateApiKey([u.(usageCount := 50)], u.apiKey.value)
  {
  }
}
