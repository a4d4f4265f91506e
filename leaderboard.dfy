/**
 * The leaderboard store: one Redis sorted set per window key, mapping a
 * member (a user id) to its study hours, and the operations built on the
 * commands ZREVRANK, ZADD, ZSCORE and ZINCRBY.
 */
module Leaderboard {
  import opened Common
  import opened Windows
  import Intervals

  type Member = string

  /** One sorted set: member to score. */
  type SortedSet = map<Member, real>

  /** The whole store: key to sorted set; a key never written holds no set. */
  type Store = map<WindowKey, SortedSet>

  /** Byte-wise lexicographic order on members, as Redis compares them. */
  predicate LexLess(a: Member, b: Member)
    decreases |a|
  {
    |b| > 0 && (|a| == 0 || a[0] < b[0] || (a[0] == b[0] && LexLess(a[1..], b[1..])))
  }

  lemma {:induction false} LexLessIrreflexive(a: Member)
    ensures !LexLess(a, a)
    decreases |a|
  {
    if |a| > 0 {
      LexLessIrreflexive(a[1..]);
    }
  }

  /** Two members are equal or one is lexicographically smaller. */
  lemma {:induction false} LexLessTotal(a: Member, b: Member)
    ensures a == b || LexLess(a, b) || LexLess(b, a)
    decreases |a|
  {
    if a != b && |a| > 0 && |b| > 0 && a[0] == b[0] {
      assert a[1..] != b[1..] by {
        assert a == [a[0]] + a[1..] && b == [b[0]] + b[1..];
      }
      LexLessTotal(a[1..], b[1..]);
    }
  }

  /**
   * In ZREVRANK order member `a` comes before member `b`: a higher score
   * first, and among equal scores the lexicographically greater member first.
   */
  predicate Ahead(s: SortedSet, a: Member, b: Member): (r: bool)
    requires a in s && b in s
    ensures a == b ==> !r
    ensures a != b && !r ==> s[b] > s[a] || (s[b] == s[a] && LexLess(a, b))
  {
    LexLessIrreflexive(a);
    LexLessTotal(a, b);
    s[a] > s[b] || (s[a] == s[b] && LexLess(b, a))
  }

  /** The members ahead of `m`. */
  function AheadOf(s: SortedSet, m: Member): set<Member>
    requires m in s
  {
    set x | x in s && Ahead(s, x, m)
  }

  /** ZREVRANK of a present member: how many members come before it (0-based). */
  function RevRank(s: SortedSet, m: Member): (rank: nat)
    requires m in s
    ensures rank < |s|
  {
    LexLessIrreflexive(m);
    SubsetCardinality(AheadOf(s, m), s.Keys - {m});
    |AheadOf(s, m)|
  }

  lemma {:induction false} SubsetCardinality<T>(a: set<T>, b: set<T>)
    requires a <= b
    ensures |a| <= |b|
    ensures a < b ==> |a| < |b|
  {
    if a != {} {
      var x :| x in a;
      SubsetCardinality(a - {x}, b - {x});
    } else if a < b {
      var y :| y in b;
    }
  }

  /** A member with a strictly higher score gets a strictly smaller rank. */
  lemma HigherScoreRanksAhead(s: SortedSet, x: Member, m: Member)
    requires x in s && m in s && s[x] > s[m]
    ensures RevRank(s, x) < RevRank(s, m)
  {
    LexLessIrreflexive(x);
    assert x in AheadOf(s, m) && x !in AheadOf(s, x);
    SubsetCardinality(AheadOf(s, x), AheadOf(s, m));
  }

  /** Two different members never share a rank. */
  lemma RanksDistinct(s: SortedSet, x: Member, m: Member)
    requires x in s && m in s && x != m
    ensures RevRank(s, x) != RevRank(s, m)
  {
    LexLessTotal(x, m);
    LexLessIrreflexive(x);
    LexLessIrreflexive(m);
    if Ahead(s, x, m) {
      AheadTransitive(s, x, m);
      assert x in AheadOf(s, m) && x !in AheadOf(s, x);
      SubsetCardinality(AheadOf(s, x), AheadOf(s, m));
    } else {
      assert Ahead(s, m, x);
      AheadTransitive(s, m, x);
      assert m in AheadOf(s, x) && m !in AheadOf(s, m);
      SubsetCardinality(AheadOf(s, m), AheadOf(s, x));
    }
  }

  /** Whoever is ahead of `x` is ahead of every member `x` is ahead of. */
  lemma AheadTransitive(s: SortedSet, x: Member, m: Member)
    requires x in s && m in s && Ahead(s, x, m)
    ensures AheadOf(s, x) <= AheadOf(s, m)
  {
    forall y | y in AheadOf(s, x)
      ensures y in AheadOf(s, m)
    {
      if s[y] == s[x] == s[m] {
        LexLessTransitive(m, x, y);
      }
    }
  }

  lemma {:induction false} LexLessTransitive(a: Member, b: Member, c: Member)
    requires LexLess(a, b) && LexLess(b, c)
    ensures LexLess(a, c)
    decreases |a|
  {
    if |a| > 0 && a[0] == b[0] && b[0] == c[0] {
      LexLessTransitive(a[1..], b[1..], c[1..]);
    }
  }

  /** A member whose score exceeds every other member's is ranked first. */
  lemma TopScoreRanksFirst(s: SortedSet, m: Member)
    requires m in s
    requires forall x :: x in s && x != m ==> s[x] < s[m]
    ensures RevRank(s, m) == 0
  {
    LexLessIrreflexive(m);
    assert AheadOf(s, m) == {};
  }

  /** A member at zero among members who all studied ranks last. */
  lemma ZeroAmongPositiveRanksLast(s: SortedSet, m: Member)
    requires m in s && s[m] == 0.0
    requires forall x :: x in s && x != m ==> s[x] > 0.0
    ensures RevRank(s, m) == |s| - 1
  {
    LexLessIrreflexive(m);
    assert AheadOf(s, m) == s.Keys - {m};
  }

  /** The set under a key; a missing key reads as an empty set. */
  function SetIn(store: Store, key: WindowKey): SortedSet {
    if key in store then store[key] else map[]
  }

  /** ZSCORE with `or 0`: an absent member reads as zero. */
  function ScoreIn(store: Store, key: WindowKey, m: Member): real {
    var s := SetIn(store, key);
    if m in s then s[m] else 0.0
  }

  /** ZADD of one member: the member takes `score`, nothing else changes. */
  function Added(store: Store, key: WindowKey, m: Member, score: real): (r: Store)
    ensures SetIn(r, key) == SetIn(store, key)[m := score]
    ensures forall k :: k != key ==> SetIn(r, k) == SetIn(store, k)
  {
    store[key := SetIn(store, key)[m := score]]
  }

  /** The lazy insert of get_redis_rank: an absent member is added at zero. */
  function WithMember(store: Store, key: WindowKey, m: Member): (r: Store)
    ensures m in SetIn(r, key) && ScoreIn(r, key, m) == ScoreIn(store, key, m)
    ensures SetIn(r, key).Keys == SetIn(store, key).Keys + {m}
  {
    if m in SetIn(store, key) then store else Added(store, key, m, 0.0)
  }

  /** ZINCRBY: the member's score grows by `d`, an absent member starting from zero. */
  function Incremented(store: Store, key: WindowKey, m: Member, d: real): (r: Store)
    ensures ScoreIn(r, key, m) == ScoreIn(store, key, m) + d
    ensures SetIn(r, key).Keys == SetIn(store, key).Keys + {m}
  {
    Added(store, key, m, ScoreIn(store, key, m) + d)
  }

  /** ZINCRBY of the same member under each key in turn. */
  function IncrementedAll(store: Store, keys: seq<WindowKey>, m: Member, d: real): (r: Store)
    ensures forall k :: k !in keys ==> SetIn(r, k) == SetIn(store, k)
  {
    if |keys| == 0 then store
    else
      assert forall k :: k in keys[..|keys| - 1] ==> k in keys;
      Incremented(IncrementedAll(store, keys[..|keys| - 1], m, d), keys[|keys| - 1], m, d)
  }

  /** The lazy insert of each key in turn. */
  function WithMemberAll(store: Store, keys: seq<WindowKey>, m: Member): Store {
    if |keys| == 0 then store
    else WithMember(WithMemberAll(store, keys[..|keys| - 1], m), keys[|keys| - 1], m)
  }

  /**
   * After the lazy insert the member is present; it scores zero if it was
   * absent and keeps its score otherwise; every other member and every other
   * key is unchanged, and inserting again changes nothing.
   */
  lemma WithMemberEffect(store: Store, key: WindowKey, m: Member)
    ensures var r := WithMember(store, key, m);
            && (m !in SetIn(store, key) ==> SetIn(r, key) == SetIn(store, key)[m := 0.0])
            && (forall x :: x in SetIn(store, key) ==> x in SetIn(r, key) && SetIn(r, key)[x] == SetIn(store, key)[x])
            && (forall k :: k != key ==> SetIn(r, k) == SetIn(store, k))
            && WithMember(r, key, m) == r
  {
  }

  /** One ZINCRBY: the member gains `d` under `key`, and nothing else changes. */
  lemma IncrementedEffect(store: Store, key: WindowKey, m: Member, d: real)
    ensures var r := Incremented(store, key, m, d);
            && (forall x :: x != m ==> ScoreIn(r, key, x) == ScoreIn(store, key, x))
            && (forall k :: k != key ==> SetIn(r, k) == SetIn(store, k))
  {
  }

  /** How often `k` occurs in `keys`. */
  function Occurrences(keys: seq<WindowKey>, k: WindowKey): (n: nat)
    ensures n == 0 <==> k !in keys
  {
    if |keys| == 0 then 0
    else
      assert keys == keys[..|keys| - 1] + [keys[|keys| - 1]];
      Occurrences(keys[..|keys| - 1], k) + (if keys[|keys| - 1] == k then 1 else 0)
  }

  /** What the member gains under `k` when each of `keys` adds `d`. */
  function Gain(keys: seq<WindowKey>, k: WindowKey, d: real): real {
    if |keys| == 0 then 0.0
    else Gain(keys[..|keys| - 1], k, d) + (if keys[|keys| - 1] == k then d else 0.0)
  }

  /** The gain is `d` once per occurrence of the key. */
  lemma {:induction false} GainCountsOccurrences(keys: seq<WindowKey>, k: WindowKey, d: real)
    ensures Gain(keys, k, d) == (Occurrences(keys, k) as real) * d
  {
    if |keys| > 0 {
      var init := keys[..|keys| - 1];
      GainCountsOccurrences(init, k, d);
      GainStep(keys, k, d);
    }
  }

  /** One more key adds `d` to the gain exactly when it adds one to the count. */
  lemma GainStep(keys: seq<WindowKey>, k: WindowKey, d: real)
    requires |keys| > 0
    requires var init := keys[..|keys| - 1];
             Gain(init, k, d) == (Occurrences(init, k) as real) * d
    ensures Gain(keys, k, d) == (Occurrences(keys, k) as real) * d
  {
    var init, step := keys[..|keys| - 1], keys[|keys| - 1] == k;
    AccumulateStep(0.0, Gain(init, k, d), Gain(keys, k, d), Occurrences(init, k), Occurrences(keys, k), d, step);
  }

  /** Incrementing under a sequence of keys adds `d` to the member once per occurrence of each key. */
  lemma IncrementedAllScore(store: Store, keys: seq<WindowKey>, m: Member, d: real, k: WindowKey)
    ensures ScoreIn(IncrementedAll(store, keys, m, d), k, m) == ScoreIn(store, k, m) + (Occurrences(keys, k) as real) * d
  {
    IncrementedAllGain(store, keys, m, d, k);
    GainCountsOccurrences(keys, k, d);
  }

  lemma {:induction false} IncrementedAllGain(store: Store, keys: seq<WindowKey>, m: Member, d: real, k: WindowKey)
    ensures ScoreIn(IncrementedAll(store, keys, m, d), k, m) == ScoreIn(store, k, m) + Gain(keys, k, d)
  {
    if |keys| > 0 {
      var init := keys[..|keys| - 1];
      IncrementedAllGain(store, init, m, d, k);
      IncrementedScore(IncrementedAll(store, init, m, d), keys[|keys| - 1], m, d, k);
    }
  }

  /** One ZINCRBY as seen from the member's score under any key. */
  lemma IncrementedScore(store: Store, key: WindowKey, m: Member, d: real, k: WindowKey)
    ensures ScoreIn(Incremented(store, key, m, d), k, m) == ScoreIn(store, k, m) + (if k == key then d else 0.0)
  {
  }

  /** A running total that gains `d` at each step counted by `n` is `n * d` above where it began. */
  lemma AccumulateStep(s0: real, before: real, after: real, c: nat, n: nat, d: real, step: bool)
    requires before == s0 + (c as real) * d
    requires after == before + (if step then d else 0.0)
    requires n == c + (if step then 1 else 0)
    ensures after == s0 + (n as real) * d
  {
    if step {
      assert (n as real) * d == (c as real) * d + d;
    }
  }

  /**
   * Incrementing under a sequence of keys changes no other member, adds the
   * member under the listed keys only, and leaves every other key as it was.
   */
  lemma {:induction false} IncrementedAllFrame(store: Store, keys: seq<WindowKey>, m: Member, d: real, k: WindowKey)
    ensures forall x :: x != m ==> ScoreIn(IncrementedAll(store, keys, m, d), k, x) == ScoreIn(store, k, x)
    ensures SetIn(IncrementedAll(store, keys, m, d), k).Keys == SetIn(store, k).Keys + (if k in keys then {m} else {})
  {
    if |keys| > 0 {
      var init := keys[..|keys| - 1];
      var last := keys[|keys| - 1];
      assert keys == init + [last];
      IncrementedAllFrame(store, init, m, d, k);
      IncrementedEffect(IncrementedAll(store, init, m, d), last, m, d);
      assert k in keys <==> k in init || k == last;
    }
  }

  /** Under distinct keys (as get_rank_categories yields) each listed key gains exactly `d`. */
  lemma IncrementedAllDistinct(store: Store, keys: seq<WindowKey>, m: Member, d: real, i: nat)
    requires forall a, b :: 0 <= a < b < |keys| ==> keys[a] != keys[b]
    requires i < |keys|
    ensures ScoreIn(IncrementedAll(store, keys, m, d), keys[i], m) == ScoreIn(store, keys[i], m) + d
  {
    IncrementedAllScore(store, keys, m, d, keys[i]);
    DistinctOccurrences(keys, i);
  }

  lemma {:induction false} DistinctOccurrences(keys: seq<WindowKey>, i: nat)
    requires forall a, b :: 0 <= a < b < |keys| ==> keys[a] != keys[b]
    requires i < |keys|
    ensures Occurrences(keys, keys[i]) == 1
  {
    var init := keys[..|keys| - 1];
    if i < |keys| - 1 {
      assert init[i] == keys[i];
      DistinctOccurrences(init, i);
    } else {
      assert keys[i] !in init;
    }
  }

  /**
   * The lazy inserts leave the member present under every listed key with its
   * former score, and touch no other key and no other member.
   */
  lemma {:induction false} WithMemberAllEffect(store: Store, keys: seq<WindowKey>, m: Member)
    ensures var r := WithMemberAll(store, keys, m);
            && (forall k :: k in keys ==> m in SetIn(r, k))
            && (forall k :: ScoreIn(r, k, m) == ScoreIn(store, k, m))
            && (forall k :: k !in keys ==> SetIn(r, k) == SetIn(store, k))
            && (forall k :: SetIn(r, k).Keys == SetIn(store, k).Keys + (if k in keys then {m} else {}))
            && (forall k, x :: x != m ==> ScoreIn(r, k, x) == ScoreIn(store, k, x))
  {
    if |keys| > 0 {
      var init := keys[..|keys| - 1];
      var last := keys[|keys| - 1];
      WithMemberAllEffect(store, init, m);
      WithMemberEffect(WithMemberAll(store, init, m), last, m);
      forall k | k in keys
        ensures k in init || k == last
      {
        var i :| 0 <= i < |keys| && keys[i] == k;
        if i < |keys| - 1 {
          assert init[i] == k;
        }
      }
    }
  }

  /** Visiting a key already visited adds nothing: the member is there already. */
  lemma RevisitChangesNothing(store: Store, keys: seq<WindowKey>, k: WindowKey, m: Member)
    requires k in keys
    ensures WithMemberAll(store, keys + [k], m) == WithMemberAll(store, keys, m)
  {
    assert (keys + [k])[..|keys|] == keys;
    WithMemberAllEffect(store, keys, m);
  }

  /** The Redis server holding the sorted sets. */
  class RankStore {
    var sets: Store

    constructor()
      ensures sets == map[]
    {
      sets := map[];
    }

    /** ZREVRANK: the 0-based rank, or nothing for an absent member. */
    method ZRevRank(key: WindowKey, m: Member) returns (rank: Option<nat>)
      ensures m in SetIn(sets, key) ==> rank == Some(RevRank(SetIn(sets, key), m))
      ensures m !in SetIn(sets, key) ==> rank == None
    {
      var s := SetIn(sets, key);
      if m in s {
        rank := Some(RevRank(s, m));
      } else {
        rank := None;
      }
    }

    /** ZADD of one member. */
    method ZAdd(key: WindowKey, m: Member, score: real)
      modifies this
      ensures sets == Added(old(sets), key, m, score)
    {
      sets := Added(sets, key, m, score);
    }

    /** ZSCORE: the score, or nothing for an absent member. */
    method ZScore(key: WindowKey, m: Member) returns (score: Option<real>)
      ensures m in SetIn(sets, key) ==> score == Some(SetIn(sets, key)[m])
      ensures m !in SetIn(sets, key) ==> score == None
    {
      var s := SetIn(sets, key);
      score := if m in s then Some(s[m]) else None;
    }

    /** ZINCRBY. */
    method ZIncrBy(key: WindowKey, m: Member, incr: real)
      modifies this
      ensures sets == Incremented(old(sets), key, m, incr)
    {
      sets := Incremented(sets, key, m, incr);
    }
  }

  /**
   * get_redis_rank: the 1-based rank of the member, after adding it at zero
   * if it was absent.
   */
  method GetRedisRank(store: RankStore, key: WindowKey, m: Member) returns (rank: nat)
    modifies store
    ensures store.sets == WithMember(old(store.sets), key, m)
    ensures m in SetIn(store.sets, key)
    ensures rank == 1 + RevRank(SetIn(store.sets, key), m)
    ensures 1 <= rank <= |SetIn(store.sets, key)|
  {
    var r := store.ZRevRank(key, m);
    if r.None? {
      store.ZAdd(key, m, 0.0);
      r := store.ZRevRank(key, m);
    }
    rank := 1 + r.value;
  }

  /** get_redis_score: the member's score, zero when absent. */
  method GetRedisScore(store: RankStore, key: WindowKey, m: Member) returns (score: real)
    ensures score == ScoreIn(store.sets, key, m)
    ensures m !in SetIn(store.sets, key) ==> score == 0.0
  {
    var found := store.ZScore(key, m);
    score := if found.Some? then found.value else 0.0;
  }

  /**
   * increment_studytime: `incr` hours, or the hours since `lastTime` when no
   * increment is given, are added to the member under each listed key.
   */
  method IncrementStudytime(keys: seq<WindowKey>, store: RankStore, m: Member,
                            incr: Option<real>, lastTime: Option<int>, now: int)
    requires incr.Some? || lastTime.Some?
    modifies store
    ensures var d := if incr.Some? then incr.value else Intervals.Hours(now - lastTime.value);
            store.sets == IncrementedAll(old(store.sets), keys, m, d)
  {
    var d := if incr.Some? then incr.value else Intervals.Hours(now - lastTime.value);
    for i := 0 to |keys|
      invariant store.sets == IncrementedAll(old(store.sets), keys[..i], m, d)
    {
      assert keys[..i + 1][..i] == keys[..i];
      store.ZIncrBy(keys[i], m, d);
    }
    assert keys[..|keys|] == keys;
  }

  /** The rank and study time reported for one key. */
  datatype Stat = Stat(rank: nat, studyTime: real)

  /** The rank and study time the store holds for a present member. */
  function StatIn(store: Store, key: WindowKey, m: Member): Stat
    requires m in SetIn(store, key)
  {
    Stat(1 + RevRank(SetIn(store, key), m), ScoreIn(store, key, m))
  }

  /** The keys get_user_stats visits: the four categories, then "all_time" again. */
  function StatKeys(now: int, offset: int): seq<WindowKey> {
    GetRankCategories(now, offset).Values() + [AllTime]
  }

  /** After visiting `key`, every entry collected so far still reports the store as it now is. */
  lemma VisitKeepsStats(before: Store, key: WindowKey, m: Member, stats: map<WindowKey, Stat>)
    requires forall k :: k in stats ==> m in SetIn(before, k) && stats[k] == StatIn(before, k, m)
    ensures var after := WithMember(before, key, m);
            forall k :: k in stats ==> m in SetIn(after, k) && stats[k] == StatIn(after, k, m)
  {
    WithMemberEffect(before, key, m);
  }

  /** The loop of get_user_stats over the keys it is given. */
  method CollectStats(store: RankStore, m: Member, keys: seq<WindowKey>) returns (stats: map<WindowKey, Stat>)
    modifies store
    ensures store.sets == WithMemberAll(old(store.sets), keys, m)
    ensures stats.Keys == set k | k in keys
    ensures forall k :: k in stats ==> m in SetIn(store.sets, k) && stats[k] == StatIn(store.sets, k, m)
  {
    stats := map[];
    for i := 0 to |keys|
      invariant store.sets == WithMemberAll(old(store.sets), keys[..i], m)
      invariant stats.Keys == set k | k in keys[..i]
      invariant forall k :: k in stats ==> m in SetIn(store.sets, k) && stats[k] == StatIn(store.sets, k, m)
    {
      WithMemberAllNext(old(store.sets), keys, i, m);
      CollectStep(store.sets, keys, i, m, stats);
      var rank := GetRedisRank(store, keys[i], m);
      var score := GetRedisScore(store, keys[i], m);
      assert Stat(rank, score) == StatIn(store.sets, keys[i], m);
      stats := stats[keys[i] := Stat(rank, score)];
    }
    assert keys[..|keys|] == keys;
  }

  /** The lazy inserts over one more key are one more lazy insert. */
  lemma WithMemberAllNext(orig: Store, keys: seq<WindowKey>, i: nat, m: Member)
    requires i < |keys|
    ensures WithMemberAll(orig, keys[..i + 1], m) == WithMember(WithMemberAll(orig, keys[..i], m), keys[i], m)
  {
    assert keys[..i + 1][..i] == keys[..i];
  }

  /** One turn of the loop of get_user_stats keeps the collected entries true to the store. */
  lemma CollectStep(before: Store, keys: seq<WindowKey>, i: nat, m: Member, stats: map<WindowKey, Stat>)
    requires i < |keys|
    requires stats.Keys == set k | k in keys[..i]
    requires forall k :: k in stats ==> m in SetIn(before, k) && stats[k] == StatIn(before, k, m)
    ensures keys[..i + 1] == keys[..i] + [keys[i]]
    ensures (set k | k in keys[..i] + [keys[i]]) == stats.Keys + {keys[i]}
    ensures var after := WithMember(before, keys[i], m);
            && m in SetIn(after, keys[i])
            && forall k :: k in stats ==> m in SetIn(after, k) && stats[k] == StatIn(after, k, m)
  {
    assert keys[..i + 1] == keys[..i] + [keys[i]];
    VisitKeepsStats(before, keys[i], m, stats);
  }

  /** Four pairwise-distinct keys make a set of four. */
  lemma FourKeys(c: RankCategories)
    requires forall i, j :: 0 <= i < j < |c.Values()| ==> c.Values()[i] != c.Values()[j]
    ensures |set k | k in c.Values()| == 4
  {
    assert (set k | k in c.Values()) == {c.daily, c.weekly, c.monthly, c.allTime};
    assert c.Values()[0] != c.Values()[1] && c.Values()[0] != c.Values()[2] && c.Values()[0] != c.Values()[3];
    assert c.Values()[1] != c.Values()[2] && c.Values()[1] != c.Values()[3] && c.Values()[2] != c.Values()[3];
  }

  /**
   * get_user_stats: the member is added at zero under every category it is
   * missing from, and each category reports the member's rank and score in
   * the resulting store. The second visit of "all_time" changes nothing.
   */
  method GetUserStats(store: RankStore, m: Member, now: int, offset: int) returns (stats: map<WindowKey, Stat>)
    modifies store
    ensures store.sets == WithMemberAll(old(store.sets), StatKeys(now, offset), m)
    ensures store.sets == WithMemberAll(old(store.sets), GetRankCategories(now, offset).Values(), m)
    ensures stats.Keys == set k | k in GetRankCategories(now, offset).Values()
    ensures |stats| == 4
    ensures forall k :: k in stats ==> m in SetIn(store.sets, k) && stats[k] == StatIn(store.sets, k, m)
  {
    var categories := GetRankCategories(now, offset);
    RevisitChangesNothing(store.sets, categories.Values(), AllTime, m);
    stats := CollectStats(store, m, categories.Values() + [AllTime]);
    FourKeys(categories);
  }
}
