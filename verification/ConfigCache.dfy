/** The in-memory cache of the integration-config client: its composite keys,
    prefix invalidation, expiry and overflow eviction. */
module ConfigCache {
  import opened Prelude
  import opened KeyText

  type Config = nat

  // ----- keys -----

  function SecretsFlag(secrets: bool): string {
    if secrets then "1" else "0"
  }

  /** `f"{tenant_id}:{platform_name}:{int(include_secrets)}"` */
  function CacheKey(tenant: string, platform: string, secrets: bool): string {
    tenant + [':'] + platform + [':'] + SecretsFlag(secrets)
  }

  /** Splits at the last colon, if there is one. */
  function SplitLast(s: string): (r: Option<(string, string)>)
    ensures r.None? <==> !Has(s, ':')
    ensures r.Some? ==> s == r.value.0 + [':'] + r.value.1 && !Has(r.value.1, ':')
  {
    if s == [] then None
    else if s[|s| - 1] == ':' then
      assert s == s[..|s| - 1] + [':'] + [];
      Some((s[..|s| - 1], []))
    else
      var shorter := SplitLast(s[..|s| - 1]);
      assert s == s[..|s| - 1] + [s[|s| - 1]];
      if shorter.None? then
        assert forall i :: 0 <= i < |s| - 1 ==> s[..|s| - 1][i] == s[i];
        None
      else Some((shorter.value.0, shorter.value.1 + [s[|s| - 1]]))
  }

  /** `key.rsplit(":", 2)`, when it yields three parts. */
  function RSplit(key: string): Option<(string, string, string)> {
    var last := SplitLast(key);
    if last.None? then None
    else
      var first := SplitLast(last.value.0);
      if first.None? then None else Some((first.value.0, first.value.1, last.value.1))
  }

  /** `_key_matches` */
  predicate KeyMatches(key: string, tenant: Option<string>, platform: Option<string>) {
    var parts := RSplit(key);
    && parts.Some?
    && (tenant.Some? ==> parts.value.0 == tenant.value)
    && (platform.Some? ==> parts.value.1 == platform.value)
  }

  lemma SplitLastOf(a: string, x: string)
    requires !Has(x, ':')
    ensures SplitLast(a + [':'] + x) == Some((a, x))
  {
    var s := a + [':'] + x;
    assert s[|a|] == ':';
    var r := SplitLast(s).value;
    LastPartUnique(a, x, r.0, r.1, ':');
  }

  lemma RSplitOfKey(tenant: string, platform: string, secrets: bool)
    ensures SplitLast(tenant + [':'] + platform).Some?
    ensures var inner := SplitLast(tenant + [':'] + platform).value;
      RSplit(CacheKey(tenant, platform, secrets)) == Some((inner.0, inner.1, SecretsFlag(secrets)))
  {
    assert SecretsFlag(secrets)[0] != ':';
    SplitLastOf(tenant + [':'] + platform, SecretsFlag(secrets));
    assert (tenant + [':'] + platform)[|tenant|] == ':';
  }

  /** For a colon-free platform the pair is recovered exactly. */
  lemma MatchesExactlyThePair(tenant: string, platform: string, secrets: bool, t: Option<string>, p: Option<string>)
    requires !Has(platform, ':')
    ensures KeyMatches(CacheKey(tenant, platform, secrets), t, p)
       <==> (t.Some? ==> t.value == tenant) && (p.Some? ==> p.value == platform)
  {
    RSplitOfKey(tenant, platform, secrets);
    SplitLastOf(tenant, platform);
  }

  /** An entry answers to its own platform name, or to its own tenant, exactly
      when the platform name is colon-free. */
  lemma OwnNameMatchesIffColonFree(tenant: string, platform: string, secrets: bool)
    ensures KeyMatches(CacheKey(tenant, platform, secrets), None, Some(platform)) <==> !Has(platform, ':')
    ensures KeyMatches(CacheKey(tenant, platform, secrets), Some(tenant), None) <==> !Has(platform, ':')
  {
    RSplitOfKey(tenant, platform, secrets);
    if Has(platform, ':') {
      var inner := SplitLast(platform).value;
      assert tenant + [':'] + platform == (tenant + [':'] + inner.0) + [':'] + inner.1;
      SplitLastOf(tenant + [':'] + inner.0, inner.1);
      assert |inner.1| < |platform|;
      assert |tenant + [':'] + inner.0| > |tenant|;
    } else {
      SplitLastOf(tenant, platform);
    }
  }

  /** Secret and non-secret entries never share a key, whatever the names. */
  lemma SecretsNeverShareKey(t: string, p: string, s: bool, t': string, p': string, s': bool)
    requires CacheKey(t, p, s) == CacheKey(t', p', s')
    ensures s == s' && t + [':'] + p == t' + [':'] + p'
  {
    assert SecretsFlag(s)[0] != ':' && SecretsFlag(s')[0] != ':';
    LastPartUnique(t + [':'] + p, SecretsFlag(s), t' + [':'] + p', SecretsFlag(s'), ':');
  }

  lemma KeyIdentifiesTriple(t: string, p: string, s: bool, t': string, p': string, s': bool)
    requires !Has(p, ':') && !Has(p', ':') && CacheKey(t, p, s) == CacheKey(t', p', s')
    ensures t == t' && p == p' && s == s'
  {
    SecretsNeverShareKey(t, p, s, t', p', s');
    LastPartUnique(t, p, t', p', ':');
  }

  // ----- entries, in dictionary order -----

  datatype Entry = Entry(key: string, expiresAt: real, config: Config)

  type Entries = seq<Entry>

  ghost predicate DistinctKeys(entries: Entries) {
    forall i, j :: 0 <= i < j < |entries| ==> entries[i].key != entries[j].key
  }

  function IndexOf(entries: Entries, key: string): (r: Option<nat>)
    ensures r.Some? ==> r.value < |entries| && entries[r.value].key == key
    ensures r.None? ==> forall i :: 0 <= i < |entries| ==> entries[i].key != key
  {
    if entries == [] then None
    else
      var n := |entries| - 1;
      if entries[n].key == key then Some(n) else IndexOf(entries[..n], key)
  }

  function Without(entries: Entries, i: nat): Entries
    requires i < |entries|
  {
    entries[..i] + entries[i + 1..]
  }

  /** `_get_from_cache`: the entries it leaves, and its answer. */
  function Get(entries: Entries, key: string, now: real): (Entries, Option<Config>) {
    match IndexOf(entries, key)
    case None => (entries, None)
    case Some(i) =>
      if now > entries[i].expiresAt then (Without(entries, i), None) else (entries, Some(entries[i].config))
  }

  /** `_put_in_cache`: overflow drops the first entry, then the key is assigned
      in place or appended. Evicting from an empty dictionary raises. */
  function Put(entries: Entries, maxSize: int, ttl: real, key: string, config: Config, now: real): Option<Entries> {
    if |entries| >= maxSize && entries == [] then None
    else
      var kept := if |entries| >= maxSize then entries[1..] else entries;
      var e := Entry(key, now + ttl, config);
      match IndexOf(kept, key)
      case None => Some(kept + [e])
      case Some(i) => Some(kept[i := e])
  }

  /** `invalidate_cache` */
  function Invalidate(entries: Entries, tenant: Option<string>, platform: Option<string>): Entries {
    if tenant.None? && platform.None? then [] else Unmatched(entries, tenant, platform)
  }

  function Unmatched(entries: Entries, tenant: Option<string>, platform: Option<string>): Entries {
    if entries == [] then []
    else
      var n := |entries| - 1;
      var rest := Unmatched(entries[..n], tenant, platform);
      if KeyMatches(entries[n].key, tenant, platform) then rest else rest + [entries[n]]
  }

  class Cache {
    const maxSize: int
    const ttl: real
    var entries: Entries

    constructor (maxSize: int, ttl: real)
      ensures entries == [] && this.maxSize == maxSize && this.ttl == ttl
    {
      this.maxSize, this.ttl := maxSize, ttl;
      entries := [];
    }

    method GetFromCache(key: string, now: real) returns (config: Option<Config>)
      modifies this
      ensures (entries, config) == Get(old(entries), key, now)
    {
      var found := IndexOf(entries, key);
      if found.None? {
        return None;
      }
      var entry := entries[found.value];
      if now > entry.expiresAt {
        entries := Without(entries, found.value);
        return None;
      }
      return Some(entry.config);
    }

    method PutInCache(key: string, config: Config, now: real) returns (raised: bool)
      modifies this
      ensures raised == Put(old(entries), maxSize, ttl, key, config, now).None?
      ensures entries == if raised then old(entries) else Put(old(entries), maxSize, ttl, key, config, now).value
    {
      if |entries| >= maxSize {
        if entries == [] {
          return true;
        }
        entries := entries[1..];
      }
      var found := IndexOf(entries, key);
      var entry := Entry(key, now + ttl, config);
      entries := if found.None? then entries + [entry] else entries[found.value := entry];
      return false;
    }

    method InvalidateCache(tenant: Option<string>, platform: Option<string>)
      modifies this
      ensures entries == Invalidate(old(entries), tenant, platform)
    {
      if tenant.None? && platform.None? {
        entries := [];
        return;
      }
      var kept: Entries := [];
      for i := 0 to |entries|
        invariant kept == Unmatched(entries[..i], tenant, platform)
        invariant entries == old(entries)
      {
        assert entries[..i + 1][..i] == entries[..i];
        if !KeyMatches(entries[i].key, tenant, platform) {
          kept := kept + [entries[i]];
        }
      }
      assert entries[..|entries|] == entries;
      entries := kept;
    }
  }

  // ----- every history of operations -----

  datatype Op =
    | Getting(key: string, at: real)
    | Putting(key: string, config: Config, at: real)
    | Invalidating(tenant: Option<string>, platform: Option<string>, at: real)

  function Do(entries: Entries, maxSize: int, ttl: real, op: Op): Entries {
    match op
    case Getting(key, now) => Get(entries, key, now).0
    case Putting(key, config, now) =>
      var r := Put(entries, maxSize, ttl, key, config, now);
      if r.None? then entries else r.value
    case Invalidating(t, p, _) => Invalidate(entries, t, p)
  }

  ghost function Run(maxSize: int, ttl: real, ops: seq<Op>): Entries {
    if ops == [] then []
    else Do(Run(maxSize, ttl, ops[..|ops| - 1]), maxSize, ttl, ops[|ops| - 1])
  }

  ghost predicate Clocked(ops: seq<Op>) {
    forall i, j :: 0 <= i <= j < |ops| ==> ops[i].at <= ops[j].at
  }

  lemma {:induction false} UnmatchedKeeps(entries: Entries, tenant: Option<string>, platform: Option<string>)
    requires DistinctKeys(entries)
    ensures |Unmatched(entries, tenant, platform)| <= |entries|
    ensures DistinctKeys(Unmatched(entries, tenant, platform))
    ensures forall e ::
              e in Unmatched(entries, tenant, platform) <==> e in entries && !KeyMatches(e.key, tenant, platform)
  {
    if entries != [] {
      var n := |entries| - 1;
      UnmatchedKeeps(entries[..n], tenant, platform);
      assert entries == entries[..n] + [entries[n]];
      var rest := Unmatched(entries[..n], tenant, platform);
      forall i | 0 <= i < |rest| ensures rest[i].key != entries[n].key {
        assert rest[i] in entries[..n];
      }
    }
  }

  lemma PutKeepsSize(entries: Entries, maxSize: int, ttl: real, key: string, config: Config, now: real)
    requires maxSize > 0 && |entries| <= maxSize && DistinctKeys(entries)
    ensures var r := Put(entries, maxSize, ttl, key, config, now);
            r.Some? ==> |r.value| <= maxSize && DistinctKeys(r.value)
  {
  }

  lemma GetKeepsSize(entries: Entries, key: string, now: real)
    requires DistinctKeys(entries)
    ensures |Get(entries, key, now).0| <= |entries| && DistinctKeys(Get(entries, key, now).0)
  {
  }

  /** Never more entries than the (positive) maximum, and never a key twice. */
  lemma {:induction false} SizeBounded(maxSize: int, ttl: real, ops: seq<Op>)
    requires maxSize > 0
    ensures |Run(maxSize, ttl, ops)| <= maxSize && DistinctKeys(Run(maxSize, ttl, ops))
  {
    if ops != [] {
      var before := Run(maxSize, ttl, ops[..|ops| - 1]);
      SizeBounded(maxSize, ttl, ops[..|ops| - 1]);
      match ops[|ops| - 1]
      case Invalidating(t, p, _) => UnmatchedKeeps(before, t, p);
      case Putting(key, config, now) => PutKeepsSize(before, maxSize, ttl, key, config, now);
      case Getting(key, now) => GetKeepsSize(before, key, now);
    }
  }

  /** The last put of a key in the history, if any. */
  ghost function LastPut(ops: seq<Op>, key: string): Option<Op> {
    if ops == [] then None
    else
      var op := ops[|ops| - 1];
      if op.Putting? && op.key == key then Some(op) else LastPut(ops[..|ops| - 1], key)
  }

  /** Entry `e` is what the last put of its key stored. */
  ghost predicate FromLastPut(ttl: real, ops: seq<Op>, e: Entry) {
    var put := LastPut(ops, e.key);
    put.Some? && put.value.Putting? && e.config == put.value.config && e.expiresAt == put.value.at + ttl
  }

  lemma EntryAfterPut(entries: Entries, maxSize: int, ttl: real, key: string, config: Config, now: real, e: Entry)
    requires maxSize > 0 && DistinctKeys(entries)
    requires e in Put(entries, maxSize, ttl, key, config, now).value
    ensures e == Entry(key, now + ttl, config) || (e.key != key && e in entries)
  {
    var kept := if |entries| >= maxSize then entries[1..] else entries;
    var after := Put(entries, maxSize, ttl, key, config, now).value;
    var i :| 0 <= i < |after| && after[i] == e;
    assert forall k :: 0 <= k < |kept| ==> kept[k] in entries;
  }

  lemma {:induction false} EntriesFromLastPut(maxSize: int, ttl: real, ops: seq<Op>, e: Entry)
    requires maxSize > 0 && e in Run(maxSize, ttl, ops)
    ensures FromLastPut(ttl, ops, e)
  {
    if ops != [] {
      var shorter, op := ops[..|ops| - 1], ops[|ops| - 1];
      var before := Run(maxSize, ttl, shorter);
      SizeBounded(maxSize, ttl, shorter);
      match op
      case Putting(key, config, now) =>
        EntryAfterPut(before, maxSize, ttl, key, config, now, e);
        if e != Entry(key, now + ttl, config) {
          EntriesFromLastPut(maxSize, ttl, shorter, e);
        }
      case Getting(key, now) =>
        assert e in before;
        EntriesFromLastPut(maxSize, ttl, shorter, e);
      case Invalidating(t, p, _) =>
        UnmatchedKeeps(before, t, p);
        EntriesFromLastPut(maxSize, ttl, shorter, e);
    }
  }

  /** A hit returns what the last put of that key stored, no longer than the TTL
      ago. */
  lemma HitIsFreshAndLatest(maxSize: int, ttl: real, ops: seq<Op>, key: string, now: real)
    requires maxSize > 0 && Get(Run(maxSize, ttl, ops), key, now).1.Some?
    ensures LastPut(ops, key).Some? && LastPut(ops, key).value.Putting?
    ensures Get(Run(maxSize, ttl, ops), key, now).1 == Some(LastPut(ops, key).value.config)
    ensures now <= LastPut(ops, key).value.at + ttl
  {
    var entries := Run(maxSize, ttl, ops);
    var e := entries[IndexOf(entries, key).value];
    assert e in entries;
    EntriesFromLastPut(maxSize, ttl, ops, e);
  }

  /** Since its last put, the key's entry has been neither invalidated, nor evicted
      by a put that found the cache full with this entry first, nor removed by a get
      that came after its time. */
  ghost predicate Kept(maxSize: int, ttl: real, ops: seq<Op>, key: string) {
    if ops == [] then false
    else
      var before, op := ops[..|ops| - 1], ops[|ops| - 1];
      match op
      case Putting(k, _, _) =>
        var entries := Run(maxSize, ttl, before);
        || k == key
        || (Kept(maxSize, ttl, before, key) && !(|entries| >= maxSize && entries != [] && entries[0].key == key))
      case Invalidating(t, p, _) =>
        Kept(maxSize, ttl, before, key) && !((t.None? && p.None?) || KeyMatches(key, t, p))
      case Getting(k, now) =>
        && Kept(maxSize, ttl, before, key)
        && !(k == key && LastPut(before, key).Some? && now > LastPut(before, key).value.at + ttl)
  }

  ghost predicate HasKey(entries: Entries, key: string) {
    exists i :: 0 <= i < |entries| && entries[i].key == key
  }

  lemma PutHas(entries: Entries, maxSize: int, ttl: real, k: string, config: Config, now: real, key: string)
    requires maxSize > 0 && DistinctKeys(entries)
    ensures var r := Put(entries, maxSize, ttl, k, config, now);
            && r.Some?
            && (HasKey(r.value, key) <==>
                  k == key || (HasKey(entries, key) && !(|entries| >= maxSize && entries[0].key == key)))
  {
    var kept := if |entries| >= maxSize then entries[1..] else entries;
    var after := Put(entries, maxSize, ttl, k, config, now).value;
    var at := IndexOf(kept, k);
    if at.Some? {
      assert after[at.value].key == k;
    } else {
      assert after[|kept|].key == k;
    }
    forall i | 0 <= i < |entries| && entries[i].key == key && !(|entries| >= maxSize && i == 0)
      ensures HasKey(after, key)
    {
      var j := if |entries| >= maxSize then i - 1 else i;
      assert kept[j] == entries[i];
      assert after[j].key == key;
    }
    forall j | 0 <= j < |after| && after[j].key == key && k != key ensures HasKey(entries, key) {
      assert kept[j] == after[j];
      assert entries[if |entries| >= maxSize then j + 1 else j] == kept[j];
    }
  }

  lemma GetHas(entries: Entries, k: string, now: real, key: string)
    requires DistinctKeys(entries)
    ensures HasKey(Get(entries, k, now).0, key) <==>
              HasKey(entries, key) && !(k == key && IndexOf(entries, key).Some?
                                        && now > entries[IndexOf(entries, key).value].expiresAt)
  {
    var at := IndexOf(entries, k);
    var after := Get(entries, k, now).0;
    if at.Some? && now > entries[at.value].expiresAt {
      forall i | 0 <= i < |entries| && entries[i].key == key && i != at.value ensures HasKey(after, key) {
        assert after[if i < at.value then i else i - 1] == entries[i];
      }
      forall j | 0 <= j < |after| && after[j].key == key ensures HasKey(entries, key) && key != k {
        assert after[j] == entries[if j < at.value then j else j + 1];
      }
    }
  }

  lemma InvalidateHas(entries: Entries, t: Option<string>, p: Option<string>, key: string)
    requires DistinctKeys(entries)
    ensures HasKey(Invalidate(entries, t, p), key) <==>
              HasKey(entries, key) && !((t.None? && p.None?) || KeyMatches(key, t, p))
  {
    UnmatchedKeeps(entries, t, p);
    var after := Unmatched(entries, t, p);
    forall i | 0 <= i < |entries| && entries[i].key == key && !KeyMatches(key, t, p) ensures HasKey(after, key) {
      assert entries[i] in after;
    }
    forall j | 0 <= j < |after| && after[j].key == key ensures HasKey(entries, key) && !KeyMatches(key, t, p) {
      assert after[j] in entries;
    }
  }

  lemma {:induction false} HeldExactly(maxSize: int, ttl: real, ops: seq<Op>, key: string)
    requires maxSize > 0
    ensures HasKey(Run(maxSize, ttl, ops), key) <==> Kept(maxSize, ttl, ops, key)
  {
    if ops != [] {
      var before, op := ops[..|ops| - 1], ops[|ops| - 1];
      var entries := Run(maxSize, ttl, before);
      HeldExactly(maxSize, ttl, before, key);
      SizeBounded(maxSize, ttl, before);
      match op
      case Putting(k, config, now) => PutHas(entries, maxSize, ttl, k, config, now, key);
      case Invalidating(t, p, _) => InvalidateHas(entries, t, p, key);
      case Getting(k, now) =>
        GetHas(entries, k, now, key);
        if IndexOf(entries, key).Some? {
          EntriesFromLastPut(maxSize, ttl, before, entries[IndexOf(entries, key).value]);
        }
    }
  }

  /** A get is a hit exactly when the key was put, its entry has been kept, and its
      TTL is not over. */
  lemma HitExactly(maxSize: int, ttl: real, ops: seq<Op>, key: string, now: real)
    requires maxSize > 0
    ensures Get(Run(maxSize, ttl, ops), key, now).1.Some? <==>
              Kept(maxSize, ttl, ops, key) && LastPut(ops, key).Some? && now <= LastPut(ops, key).value.at + ttl
  {
    var entries := Run(maxSize, ttl, ops);
    HeldExactly(maxSize, ttl, ops, key);
    if IndexOf(entries, key).Some? {
      EntriesFromLastPut(maxSize, ttl, ops, entries[IndexOf(entries, key).value]);
    }
  }

  /** Invalidation removes exactly the matching pairs, for entries stored under
      colon-free platform names. */
  lemma InvalidationIsExact(
      entries: Entries, e: Entry, tenant: string, platform: string, secrets: bool, t: Option<string>,
      p: Option<string>)
    requires DistinctKeys(entries) && e in entries
    requires e.key == CacheKey(tenant, platform, secrets) && !Has(platform, ':')
    ensures e !in Invalidate(entries, t, p)
       <==> (t.Some? ==> t.value == tenant) && (p.Some? ==> p.value == platform)
  {
    UnmatchedKeeps(entries, t, p);
    MatchesExactlyThePair(tenant, platform, secrets, t, p);
  }

  // ----- eviction order -----

  /** Each put is of a key the cache does not hold, as after a miss. */
  ghost predicate PutsFollowMisses(maxSize: int, ttl: real, ops: seq<Op>) {
    forall i :: 0 <= i < |ops| && ops[i].Putting? ==> IndexOf(Run(maxSize, ttl, ops[..i]), ops[i].key).None?
  }

  ghost predicate ByExpiry(entries: Entries) {
    forall i, j :: 0 <= i <= j < |entries| ==> entries[i].expiresAt <= entries[j].expiresAt
  }

  lemma {:induction false} UnmatchedByExpiry(entries: Entries, tenant: Option<string>, platform: Option<string>)
    requires ByExpiry(entries) && DistinctKeys(entries)
    ensures ByExpiry(Unmatched(entries, tenant, platform))
  {
    if entries != [] {
      var n := |entries| - 1;
      UnmatchedByExpiry(entries[..n], tenant, platform);
      UnmatchedKeeps(entries[..n], tenant, platform);
      var rest := Unmatched(entries[..n], tenant, platform);
      forall i | 0 <= i < |rest| ensures rest[i].expiresAt <= entries[n].expiresAt {
        assert rest[i] in entries[..n];
      }
    }
  }

  lemma NoExpiryBeyond(maxSize: int, ttl: real, ops: seq<Op>, now: real)
    requires maxSize > 0 && forall i :: 0 <= i < |ops| ==> ops[i].at <= now
    ensures forall e :: e in Run(maxSize, ttl, ops) ==> e.expiresAt <= now + ttl
  {
    forall e | e in Run(maxSize, ttl, ops) ensures e.expiresAt <= now + ttl {
      EntriesFromLastPut(maxSize, ttl, ops, e);
      LastPutIsInHistory(ops, e.key);
    }
  }

  lemma {:induction false} LastPutIsInHistory(ops: seq<Op>, key: string)
    ensures LastPut(ops, key).Some? ==> LastPut(ops, key).value in ops
  {
    if ops != [] {
      LastPutIsInHistory(ops[..|ops| - 1], key);
      assert ops == ops[..|ops| - 1] + [ops[|ops| - 1]];
    }
  }

  /** When puts follow misses, dictionary order is expiry order. */
  lemma {:induction false} OrderIsExpiryOrder(maxSize: int, ttl: real, ops: seq<Op>)
    requires maxSize > 0 && Clocked(ops) && PutsFollowMisses(maxSize, ttl, ops)
    ensures ByExpiry(Run(maxSize, ttl, ops))
  {
    if ops != [] {
      var n := |ops| - 1;
      var shorter, op := ops[..n], ops[n];
      forall i | 0 <= i < n && shorter[i].Putting?
        ensures IndexOf(Run(maxSize, ttl, shorter[..i]), shorter[i].key).None?
      {
        assert shorter[..i] == ops[..i] && shorter[i] == ops[i];
      }
      OrderIsExpiryOrder(maxSize, ttl, shorter);
      var before := Run(maxSize, ttl, shorter);
      SizeBounded(maxSize, ttl, shorter);
      match op
      case Putting(key, config, now) =>
        NoExpiryBeyond(maxSize, ttl, shorter, now);
        AppendKeepsOrder(before, maxSize, ttl, key, config, now);
      case Getting(_, _) =>
      case Invalidating(t, p, _) => UnmatchedByExpiry(before, t, p);
    }
  }

  /** A put of an absent key appends it, after dropping the first entry if full. */
  lemma PutAppends(entries: Entries, maxSize: int, ttl: real, key: string, config: Config, now: real)
    requires maxSize > 0 && IndexOf(entries, key).None?
    ensures Put(entries, maxSize, ttl, key, config, now)
         == Some((if |entries| >= maxSize then entries[1..] else entries) + [Entry(key, now + ttl, config)])
  {
    if |entries| >= maxSize {
      var kept := entries[1..];
      assert forall k :: 0 <= k < |kept| ==> kept[k] == entries[k + 1];
      assert IndexOf(kept, key).None?;
    }
  }

  lemma SortedAppend(entries: Entries, e: Entry)
    requires ByExpiry(entries) && forall x :: x in entries ==> x.expiresAt <= e.expiresAt
    ensures ByExpiry(entries + [e]) && (entries != [] ==> ByExpiry(entries[1..] + [e]))
  {
    assert forall k :: 0 <= k < |entries| ==> entries[k] in entries;
  }

  lemma AppendKeepsOrder(entries: Entries, maxSize: int, ttl: real, key: string, config: Config, now: real)
    requires maxSize > 0 && ByExpiry(entries) && IndexOf(entries, key).None?
    requires forall e :: e in entries ==> e.expiresAt <= now + ttl
    ensures ByExpiry(Put(entries, maxSize, ttl, key, config, now).value)
  {
    PutAppends(entries, maxSize, ttl, key, config, now);
    SortedAppend(entries, Entry(key, now + ttl, config));
  }

  /** So an overflowing put evicts the entry nearest to its expiry. */
  lemma OverflowEvictsNearestExpiry(maxSize: int, ttl: real, ops: seq<Op>, key: string, config: Config, now: real)
    requires maxSize > 0 && Clocked(ops) && PutsFollowMisses(maxSize, ttl, ops)
    requires |Run(maxSize, ttl, ops)| == maxSize && IndexOf(Run(maxSize, ttl, ops), key).None?
    ensures var before := Run(maxSize, ttl, ops);
      && Put(before, maxSize, ttl, key, config, now) == Some(before[1..] + [Entry(key, now + ttl, config)])
      && forall e :: e in before ==> before[0].expiresAt <= e.expiresAt
  {
    OrderIsExpiryOrder(maxSize, ttl, ops);
    PutAppends(Run(maxSize, ttl, ops), maxSize, ttl, key, config, now);
  }

  /** A put over a live entry keeps its place in the dictionary, so the order
      survives exactly when nothing behind it expires sooner. */
  lemma OverwriteKeepsOrderIff(
      entries: Entries, maxSize: int, ttl: real, key: string, config: Config, now: real, at: nat)
    requires ByExpiry(entries) && |entries| < maxSize && IndexOf(entries, key) == Some(at)
    requires forall e :: e in entries ==> e.expiresAt <= now + ttl
    ensures ByExpiry(Put(entries, maxSize, ttl, key, config, now).value)
       <==> forall j :: at < j < |entries| ==> entries[j].expiresAt == now + ttl
  {
    var after := entries[at := Entry(key, now + ttl, config)];
    assert Put(entries, maxSize, ttl, key, config, now) == Some(after);
    assert forall j :: 0 <= j < |entries| ==> entries[j] in entries;
    if forall j :: at < j < |entries| ==> entries[j].expiresAt == now + ttl {
      forall i, j | 0 <= i <= j < |after| ensures after[i].expiresAt <= after[j].expiresAt {}
    } else {
      var j :| at < j < |entries| && entries[j].expiresAt != now + ttl;
      assert after[j] == entries[j] && after[at].expiresAt > after[j].expiresAt;
    }
  }
}
