/** Eviction by oldest last use, shared by the relay bindings and the forwarding pool. */
module Lru {
  import opened Bytes
  import opened Net
  import Sets

  /** No member of `group` was used before `k`. */
  ghost predicate IsOldest<K>(m: map<K, Instant>, group: set<K>, k: K)
    requires group <= m.Keys
  {
    k in group && forall j | j in group :: m[k] <= m[j]
  }

  /** `after` is `before` cut to at most `cap` members of `group`, least recently used first, and nothing else. */
  ghost predicate Trimmed<K>(before: map<K, Instant>, group: set<K>, cap: nat, after: map<K, Instant>)
    requires group <= before.Keys
  {
    && (forall k | k in after :: k in before && after[k] == before[k])
    && (forall k | k in before && k !in after :: k in group)
    && |group * after.Keys| == Min(|group|, cap)
    && (forall gone, kept | gone in before && gone !in after && kept in group && kept in after :: before[gone] <= before[kept])
  }

  /** One scan for the least recently used member. */
  method FindOldest<K>(m: map<K, Instant>, group: set<K>) returns (k: K)
    requires group != {} && group <= m.Keys
    ensures IsOldest(m, group, k)
  {
    k :| k in group;
    var rest := group - {k};
    while rest != {}
      invariant k in group && rest <= group && forall j | j in group - rest :: m[k] <= m[j]
      decreases |rest|
    {
      var j :| j in rest;
      rest := rest - {j};
      if m[j] < m[k] {
        k := j;
      }
    }
  }

  lemma NothingToTrim<K>(m: map<K, Instant>, group: set<K>, cap: nat)
    requires group <= m.Keys && |group| <= cap
    ensures Trimmed(m, group, cap, m)
  {
    assert group * m.Keys == group;
  }

  /** Removing the oldest and trimming the rest is trimming the whole. */
  lemma TrimOne<K>(before: map<K, Instant>, group: set<K>, cap: nat, k: K, after: map<K, Instant>)
    requires group <= before.Keys && |group| > cap && IsOldest(before, group, k)
    requires group - {k} <= (before - {k}).Keys && Trimmed(before - {k}, group - {k}, cap, after)
    ensures Trimmed(before, group, cap, after)
  {
    var less := before - {k};
    assert k !in after;
    Sets.Without(group, after.Keys, k);
    forall gone, kept | gone in before && gone !in after && kept in group && kept in after
      ensures before[gone] <= before[kept]
    {
      assert gone != k ==> gone in less && less[gone] == before[gone];
      assert less[kept] == before[kept];
    }
  }

  lemma TrimmedSubset<K>(before: map<K, Instant>, group: set<K>, after: map<K, Instant>, after': map<K, Instant>, cap: nat)
    requires group <= before.Keys && Trimmed(before, group, cap, after) && Trimmed(before, group, cap, after')
    requires forall i, j | i in group && j in group && i != j :: before[i] != before[j]
    ensures after.Keys <= after'.Keys
  {
    forall k | k in after ensures k in after' {
      if k !in after' {
        // Everything `after'` kept is newer than `k`, so `after` kept it too, and `k` besides.
        assert k in group * after.Keys;
        assert forall j | j in before && j !in after :: before[j] <= before[k];
        forall j | j in group * after'.Keys ensures j in group * after.Keys - {k} {
          assert before[k] <= before[j] && before[k] != before[j];
        }
        var small, large := group * after'.Keys, group * after.Keys;
        assert small <= large - {k};
        Sets.SubsetSize(small, large - {k});
      }
    }
  }

  /** When no two last uses coincide the survivors are determined. */
  lemma TrimmedUnique<K>(before: map<K, Instant>, group: set<K>, after: map<K, Instant>, after': map<K, Instant>, cap: nat)
    requires group <= before.Keys && Trimmed(before, group, cap, after) && Trimmed(before, group, cap, after')
    requires forall i, j | i in group && j in group && i != j :: before[i] != before[j]
    ensures after == after'
  {
    TrimmedSubset(before, group, after, after', cap);
    TrimmedSubset(before, group, after', after, cap);
  }
}
