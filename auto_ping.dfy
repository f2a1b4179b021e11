/** The auto-ping plugin: an alias table built from the configuration, the
    ids whose alias occurs in a group message, a per-group cache of member
    ids that expires after an hour, and the reply that mentions each matched
    member of the group. */
module AutoPing {
  import opened Wrappers
  import opened Text
  import opened Orders

  /** `_MEMBER_CACHE_TTL_SECONDS`. */
  const MEMBER_CACHE_TTL := 3600

  /** One `auto_ping_targets` item: an id and the aliases that name it. */
  datatype Target = Target(qq: int, aliases: seq<string>)

  /** One alias assignment, in the order `_build_alias_map` makes them. */
  type Entry = (string, int)

  // ---------------------------------------------------------------- alias table

  function TargetEntries(t: Target): (es: seq<Entry>)
    ensures |es| == |t.aliases| && forall i :: 0 <= i < |es| ==> es[i] == (t.aliases[i], t.qq)
  {
    seq(|t.aliases|, i requires 0 <= i < |t.aliases| => (t.aliases[i], t.qq))
  }

  /** The assignments made by the `auto_ping_targets` loop. */
  function AllTargetEntries(ts: seq<Target>): seq<Entry>
    decreases |ts|
  {
    if |ts| == 0 then [] else AllTargetEntries(ts[..|ts| - 1]) + TargetEntries(ts[|ts| - 1])
  }

  /** Every assignment, `auto_ping_alias_map` first. */
  function Entries(aliasMap: seq<Entry>, targets: seq<Target>): seq<Entry> {
    aliasMap + AllTargetEntries(targets)
  }

  /** One assignment: an empty alias is skipped, any other is stored casefolded. */
  function Put(m: map<string, int>, e: Entry): map<string, int> {
    if e.0 == "" then m else m[Lower(e.0) := e.1]
  }

  /** The table after a run of assignments, each overwriting the last. */
  function Fold(es: seq<Entry>): map<string, int>
    decreases |es|
  {
    if |es| == 0 then map[] else Put(Fold(es[..|es| - 1]), es[|es| - 1])
  }

  lemma FoldSnoc(es: seq<Entry>, e: Entry)
    ensures Fold(es + [e]) == Put(Fold(es), e)
  {
    assert (es + [e])[..|es|] == es;
  }

  lemma FoldPrefix(es: seq<Entry>, i: nat)
    requires i < |es|
    ensures Fold(es[..i + 1]) == Put(Fold(es[..i]), es[i])
  {
    assert es[..i + 1][..i] == es[..i];
  }

  lemma FoldAfter(done: seq<Entry>, es: seq<Entry>, j: nat)
    requires j < |es|
    ensures Fold(done + es[..j + 1]) == Put(Fold(done + es[..j]), es[j])
  {
    assert done + es[..j + 1] == (done + es[..j]) + [es[j]];
    FoldSnoc(done + es[..j], es[j]);
  }

  /** The assignments up to target `t`, before and after its aliases. */
  lemma TargetsPrefix(aliasMap: seq<Entry>, targets: seq<Target>, t: nat)
    requires t < |targets|
    ensures var done := aliasMap + AllTargetEntries(targets[..t]);
            var es := TargetEntries(targets[t]);
            done + es[..0] == done && done + es[..|es|] == aliasMap + AllTargetEntries(targets[..t + 1])
  {
    assert targets[..t + 1][..t] == targets[..t];
    var es := TargetEntries(targets[t]);
    assert es[..0] == [] && es[..|es|] == es;
  }

  /** `_build_alias_map`. */
  method BuildAliasMap(aliasMap: seq<Entry>, targets: seq<Target>) returns (m: map<string, int>)
    ensures m == Fold(Entries(aliasMap, targets))
  {
    m := map[];
    for i := 0 to |aliasMap|
      invariant m == Fold(aliasMap[..i])
    {
      FoldPrefix(aliasMap, i);
      var (alias, qq) := aliasMap[i];
      if alias != "" {
        m := m[Lower(alias) := qq];
      }
    }
    assert aliasMap[..|aliasMap|] == aliasMap + AllTargetEntries(targets[..0]);
    for t := 0 to |targets|
      invariant m == Fold(aliasMap + AllTargetEntries(targets[..t]))
    {
      var target := targets[t];
      ghost var done := aliasMap + AllTargetEntries(targets[..t]);
      ghost var es := TargetEntries(target);
      TargetsPrefix(aliasMap, targets, t);
      for j := 0 to |target.aliases|
        invariant m == Fold(done + es[..j])
      {
        FoldAfter(done, es, j);
        var alias := target.aliases[j];
        if alias != "" {
          m := m[Lower(alias) := target.qq];
        }
      }
    }
    assert targets[..|targets|] == targets;
  }

  /** Entry `e` names the table key `k`. */
  predicate Names(e: Entry, k: string) {
    e.0 != "" && Lower(e.0) == k
  }

  /** The table holds a key exactly when a non-empty alias casefolds to it,
      and the key keeps the id of the last such alias. */
  lemma {:induction false} FoldMeaning(es: seq<Entry>, k: string)
    ensures k in Fold(es) <==> exists i :: 0 <= i < |es| && Names(es[i], k)
    ensures k in Fold(es) ==>
              exists i :: 0 <= i < |es| && Names(es[i], k) && Fold(es)[k] == es[i].1 &&
                          forall j :: i < j < |es| ==> !Names(es[j], k)
    decreases |es|
  {
    if |es| > 0 {
      var init := es[..|es| - 1];
      FoldMeaning(init, k);
      if !Names(es[|es| - 1], k) {
        if i :| 0 <= i < |es| && Names(es[i], k) {
          assert Names(init[i], k);
        }
        if k in Fold(es) {
          var i :| 0 <= i < |init| && Names(init[i], k) && Fold(init)[k] == init[i].1 &&
                   forall j :: i < j < |init| ==> !Names(init[j], k);
          forall j | i < j < |es| ensures !Names(es[j], k) {
            if j < |init| {
              assert es[j] == init[j];
            }
          }
          assert es[i] == init[i];
        }
      }
    }
  }

  /** Every key of the table is a non-empty casefolded string. */
  lemma FoldKeys(es: seq<Entry>)
    ensures forall k :: k in Fold(es) ==> k != "" && Lower(k) == k
  {
    forall k | k in Fold(es) ensures k != "" && Lower(k) == k {
      FoldMeaning(es, k);
      var i :| 0 <= i < |es| && Names(es[i], k);
      LowerIdempotent(es[i].0);
    }
  }

  lemma {:induction false} AllTargetEntriesFrom(ts: seq<Target>, i: nat)
    requires i < |AllTargetEntries(ts)|
    ensures exists t, j :: 0 <= t < |ts| && 0 <= j < |ts[t].aliases| &&
                           AllTargetEntries(ts)[i] == (ts[t].aliases[j], ts[t].qq)
    decreases |ts|
  {
    var init := AllTargetEntries(ts[..|ts| - 1]);
    var last := TargetEntries(ts[|ts| - 1]);
    if i < |init| {
      AllTargetEntriesFrom(ts[..|ts| - 1], i);
      var t, j :| 0 <= t < |ts| - 1 && 0 <= j < |ts[..|ts| - 1][t].aliases| &&
                  init[i] == (ts[..|ts| - 1][t].aliases[j], ts[..|ts| - 1][t].qq);
      assert ts[..|ts| - 1][t] == ts[t];
    } else {
      assert AllTargetEntries(ts)[i] == last[i - |init|];
      assert AllTargetEntries(ts)[i] == (ts[|ts| - 1].aliases[i - |init|], ts[|ts| - 1].qq);
    }
  }

  /** An alias configured under `auto_ping_targets` beats the same alias in
      `auto_ping_alias_map`: the key then maps to a target's id. */
  lemma TargetsOverride(aliasMap: seq<Entry>, targets: seq<Target>, k: string, i: nat)
    requires i < |AllTargetEntries(targets)| && Names(AllTargetEntries(targets)[i], k)
    ensures var m := Fold(Entries(aliasMap, targets));
            k in m &&
            exists t, j :: 0 <= t < |targets| && 0 <= j < |targets[t].aliases| &&
                           Names((targets[t].aliases[j], targets[t].qq), k) && m[k] == targets[t].qq
  {
    var es := Entries(aliasMap, targets);
    var ts := AllTargetEntries(targets);
    assert es[|aliasMap| + i] == ts[i];
    FoldMeaning(es, k);
    var w :| 0 <= w < |es| && Names(es[w], k) && Fold(es)[k] == es[w].1 &&
             forall j :: w < j < |es| ==> !Names(es[j], k);
    assert w >= |aliasMap| + i;
    assert es[w] == ts[w - |aliasMap|];
    AllTargetEntriesFrom(targets, w - |aliasMap|);
  }

  // ---------------------------------------------------------------- matching

  /** The ids whose alias occurs in the casefolded text. */
  function Matches(text: string, m: map<string, int>): (r: set<int>)
    ensures forall q :: q in r ==> q in m.Values
  {
    set a | a in m && a != "" && Contains(Lower(text), a) :: m[a]
  }

  /** `_match_targets`. */
  method MatchTargets(text: string, m: map<string, int>) returns (targets: set<int>)
    ensures targets == Matches(text, m)
  {
    if text == "" || |m| == 0 {
      MatchesEmpty(text, m);
      return {};
    }
    var normalized := Lower(text);
    targets := {};
    var rest := m.Keys;
    while rest != {}
      invariant rest <= m.Keys
      invariant targets == set a | a in m && a !in rest && a != "" && Contains(normalized, a) :: m[a]
      decreases |rest|
    {
      var a :| a in rest;
      if a != "" && Contains(normalized, a) {
        targets := targets + {m[a]};
      }
      rest := rest - {a};
    }
  }

  /** The early return of `_match_targets` agrees with the general rule: no
      non-empty alias occurs in an empty text. */
  lemma MatchesEmpty(text: string, m: map<string, int>)
    requires text == "" || |m| == 0
    ensures Matches(text, m) == {}
  {
    if |m| == 0 {
      assert m == map[];
    } else {
      forall a | a in m && a != "" ensures !Contains(Lower(text), a) {
        assert |Lower(text)| == 0;
      }
    }
  }

  /** Matching ignores case: casefolding the text first changes nothing. */
  lemma MatchesIgnoreCase(text: string, m: map<string, int>)
    ensures Matches(Lower(text), m) == Matches(text, m)
  {
    LowerIdempotent(text);
  }

  /** End to end: an id is matched exactly when some configured non-empty
      alias, casefolded, occurs in the casefolded text and the table gives
      that alias this id. */
  lemma MatchesConfigured(es: seq<Entry>, text: string, q: int)
    ensures q in Matches(text, Fold(es)) <==>
            exists i :: 0 <= i < |es| && es[i].0 != "" && Contains(Lower(text), Lower(es[i].0)) &&
                        Lower(es[i].0) in Fold(es) && Fold(es)[Lower(es[i].0)] == q
  {
    var m := Fold(es);
    if q in Matches(text, m) {
      var a :| a in m && a != "" && Contains(Lower(text), a) && m[a] == q;
      FoldMeaning(es, a);
      var i :| 0 <= i < |es| && Names(es[i], a);
    }
    if i :| 0 <= i < |es| && es[i].0 != "" && Contains(Lower(text), Lower(es[i].0)) &&
            Lower(es[i].0) in m && m[Lower(es[i].0)] == q {
      FoldKeys(es);
      assert Lower(es[i].0) != "";
    }
  }

  // ---------------------------------------------------------------- member cache

  /** `_MemberCacheEntry`. */
  datatype MemberCacheEntry = MemberCacheEntry(expiresAt: int, memberIds: set<int>)

  /** A lookup's answer, the cache after it, and whether the member list
      was requested from the API. */
  datatype Lookup = Lookup(ids: set<int>, cache: map<int, MemberCacheEntry>, fetched: bool)

  /** `_get_group_member_ids` at time `now`, where `listed` is what the
      member-list API would answer. */
  function CacheLookup(cache: map<int, MemberCacheEntry>, groupId: int, now: int, listed: set<int>): (r: Lookup)
    ensures r.fetched <==> !(groupId in cache && cache[groupId].expiresAt > now)
    ensures groupId in r.cache && r.cache[groupId].memberIds == r.ids && r.cache[groupId].expiresAt > now
    ensures r.fetched ==> r.ids == listed && r.cache[groupId] == MemberCacheEntry(now + MEMBER_CACHE_TTL, listed)
    ensures !r.fetched ==> r.ids == cache[groupId].memberIds && r.cache == cache
    ensures forall g :: g != groupId ==> (g in r.cache <==> g in cache) && (g in cache ==> r.cache[g] == cache[g])
  {
    if groupId in cache && cache[groupId].expiresAt > now then
      Lookup(cache[groupId].memberIds, cache, false)
    else
      Lookup(listed, cache[groupId := MemberCacheEntry(now + MEMBER_CACHE_TTL, listed)], true)
  }

  /** After a lookup, asking again for the same group before the entry
      expires answers the same ids without calling the API. */
  lemma CacheReuse(cache: map<int, MemberCacheEntry>, groupId: int, now: int, listed: set<int>,
                   later: int, listed2: set<int>)
    requires var r := CacheLookup(cache, groupId, now, listed); later < r.cache[groupId].expiresAt
    ensures var r := CacheLookup(cache, groupId, now, listed);
            CacheLookup(r.cache, groupId, later, listed2) == Lookup(r.ids, r.cache, false)
  {
  }

  /** A fetch keeps its answer for exactly an hour: reused at every moment
      before `now + 3600`, fetched afresh from then on. */
  lemma CacheLifetime(cache: map<int, MemberCacheEntry>, groupId: int, now: int, listed: set<int>,
                      later: int, listed2: set<int>)
    requires CacheLookup(cache, groupId, now, listed).fetched && now <= later
    ensures var r := CacheLookup(cache, groupId, now, listed);
            CacheLookup(r.cache, groupId, later, listed2).fetched <==> later >= now + MEMBER_CACHE_TTL
  {
  }

  /** `_member_cache`, the module-level dictionary. */
  class MemberCache {
    var entries: map<int, MemberCacheEntry>

    constructor()
      ensures entries == map[]
    {
      entries := map[];
    }

    /** `_get_group_member_ids`. */
    method GroupMemberIds(groupId: int, now: int, listed: set<int>) returns (ids: set<int>, fetched: bool)
      modifies this
      ensures Lookup(ids, entries, fetched) == CacheLookup(old(entries), groupId, now, listed)
    {
      if groupId in entries && entries[groupId].expiresAt > now {
        return entries[groupId].memberIds, false;
      }
      entries := entries[groupId := MemberCacheEntry(now + MEMBER_CACHE_TTL, listed)];
      return listed, true;
    }
  }

  // ---------------------------------------------------------------- the reply

  /** A segment of the reply: a mention or plain text. */
  datatype Segment = At(qq: int) | Plain(s: string)

  function Keep(qs: seq<int>, members: set<int>): (r: seq<int>)
    ensures forall q :: q in r <==> q in qs && q in members
    ensures (forall i, j :: 0 <= i < j < |qs| ==> qs[i] < qs[j]) ==> forall i, j :: 0 <= i < j < |r| ==> r[i] < r[j]
    decreases |qs|
  {
    if |qs| == 0 then []
    else
      var init := Keep(qs[..|qs| - 1], members);
      var q := qs[|qs| - 1];
      if q in members then
        assert (forall i, j :: 0 <= i < j < |qs| ==> qs[i] < qs[j]) ==> forall i :: 0 <= i < |init| ==> init[i] < q by {
          if forall i, j :: 0 <= i < j < |qs| ==> qs[i] < qs[j] {
            forall i | 0 <= i < |init| ensures init[i] < q {
              assert init[i] in qs[..|qs| - 1];
            }
          }
        }
        init + [q]
      else init
  }

  /** `targets_in_group`: the matched ids, ascending, that belong to the group. */
  function Pinged(targets: set<int>, members: set<int>): seq<int> {
    Keep(SortInts(targets), members)
  }

  /** The mentions are exactly the matched group members, in strictly
      ascending order. */
  lemma PingedMeaning(targets: set<int>, members: set<int>)
    ensures var r := Pinged(targets, members);
            (forall q :: q in r <==> q in targets && q in members) &&
            forall i, j :: 0 <= i < j < |r| ==> r[i] < r[j]
  {
  }

  /** The reply: a mention and a space per id. */
  function Mentions(qs: seq<int>): (r: seq<Segment>)
    decreases |qs|
  {
    if |qs| == 0 then [] else Mentions(qs[..|qs| - 1]) + [At(qs[|qs| - 1]), Plain(" ")]
  }

  lemma {:induction false} MentionsShape(qs: seq<int>)
    ensures |Mentions(qs)| == 2 * |qs|
    ensures forall i :: 0 <= i < |qs| ==> Mentions(qs)[2 * i] == At(qs[i]) && Mentions(qs)[2 * i + 1] == Plain(" ")
    decreases |qs|
  {
    if |qs| > 0 {
      MentionsShape(qs[..|qs| - 1]);
    }
  }

  /** `handle`: nothing happens for a message that names no one; otherwise
      the member list is looked up (through the cache) and the matched
      members are mentioned, unless none of them is in the group. */
  method Handle(cache: MemberCache, aliasMap: map<string, int>, text: string, groupId: int, now: int,
                listed: set<int>)
    returns (sent: Option<seq<Segment>>)
    modifies cache
    ensures var targets := Matches(text, aliasMap);
            if targets == {} then
              sent == None && cache.entries == old(cache.entries)
            else
              var look := CacheLookup(old(cache.entries), groupId, now, listed);
              var ps := Pinged(targets, look.ids);
              cache.entries == look.cache &&
              sent == (if ps == [] then None else Some(Mentions(ps)))
    ensures sent.Some? ==> sent.value != []
  {
    var targets := MatchTargets(text, aliasMap);
    if targets == {} {
      return None;
    }
    var memberIds, _ := cache.GroupMemberIds(groupId, now, listed);
    var inGroup := Pinged(targets, memberIds);
    if inGroup == [] {
      return None;
    }
    var msg: seq<Segment> := [];
    for i := 0 to |inGroup|
      invariant msg == Mentions(inGroup[..i])
    {
      assert inGroup[..i + 1][..i] == inGroup[..i];
      msg := msg + [At(inGroup[i]), Plain(" ")];
    }
    assert inGroup[..|inGroup|] == inGroup;
    MentionsShape(inGroup);
    return Some(msg);
  }
}
