/** The value side of the chat-history query cache: cache entries and query
    filters, the composite key, the weak-match predicate, the overlap ratio and
    the exact / fuzzy / incremental classification of a stored entry against a
    query. Times are integer seconds; "now" is always passed in. */
module CacheModel {
  import opened Wrappers
  import opened Text

  /** Cap on the number of messages an entry keeps (the value used here is a
      stand-in; the model only relies on it being positive). */
  const MAX_MESSAGES_PER_ENTRY: nat := 1000

  /** Largest stretch of recent, uncached time a fuzzy match may ignore. */
  const FUZZY_MAX_UNCOVERED: int := 600

  /** A chat message as the cache sees it: never written, only filtered. */
  datatype Message = Message(userId: int, plainText: string, time: int, groupId: int)

  /** What a caller asks for. `None` bounds mean "from the beginning" and
      "up to now". */
  datatype QueryFilter = QueryFilter(
    groupId: Option<int>,
    userId: Option<int>,
    content: Option<string>,
    regex: Option<string>,
    timeAfter: Option<int>,
    timeBefore: Option<int>,
    limit: int,
    hasAbsoluteTime: bool)

  /** `QueryFilter()` with every field left at its default. */
  const DefaultQueryFilter: QueryFilter :=
    QueryFilter(None, None, None, None, None, None, 20, false)

  /** One stored query answer. */
  datatype CacheEntry = CacheEntry(
    groupId: int,
    userId: Option<int>,
    content: Option<string>,
    regex: Option<string>,
    timeAfter: Option<int>,
    timeBefore: Option<int>,
    messages: seq<Message>,
    totalCount: int)

  datatype MatchType = NoMatch | ExactMatch | FuzzyTime | PartialOverlap {
    /** The enumeration's integer values. */
    function Value(): (v: int)
      ensures 0 <= v <= 3
      ensures v == 0 <==> this == NoMatch
      ensures v == 1 <==> this == ExactMatch
      ensures v == 2 <==> this == FuzzyTime
      ensures v == 3 <==> this == PartialOverlap
    {
      match this
      case NoMatch => 0
      case ExactMatch => 1
      case FuzzyTime => 2
      case PartialOverlap => 3
    }
  }

  /** What a successful lookup hands back. */
  datatype CacheResult = CacheResult(
    messages: seq<Message>,
    isFuzzy: bool,
    needsIncremental: bool,
    missingRanges: seq<(int, int)>,
    matchType: MatchType)

  // ---------------------------------------------------------------- key

  function RenderInt(o: Option<int>): string {
    match o
    case None => "None"
    case Some(i) => IntToString(i)
  }

  function RenderStr(o: Option<string>): string {
    match o
    case None => "None"
    case Some(s) => s
  }

  /** The six filter fields rendered in key order. */
  function KeyFields(e: CacheEntry): seq<string> {
    [IntToString(e.groupId), RenderInt(e.userId), RenderStr(e.content),
     RenderStr(e.regex), RenderInt(e.timeAfter), RenderInt(e.timeBefore)]
  }

  /** `CacheEntry.make_key`: the six filter fields, ':'-separated, with a
      missing value written "None". */
  function MakeKey(e: CacheEntry): string {
    IntToString(e.groupId) + (":" + (RenderInt(e.userId) + (":" + (RenderStr(e.content) + (":" +
    (RenderStr(e.regex) + (":" + (RenderInt(e.timeAfter) + (":" + RenderInt(e.timeBefore))))))))))
  }

  /** The key is the rendered fields joined with ':'. */
  lemma MakeKeyIsJoin(e: CacheEntry)
    ensures MakeKey(e) == Join(KeyFields(e), ":")
  {
    var fs := KeyFields(e);
    assert Join(fs[5..], ":") == fs[5];
    assert fs[4..][1..] == fs[5..];
    assert Join(fs[4..], ":") == fs[4] + (":" + Join(fs[5..], ":"));
    assert fs[3..][1..] == fs[4..];
    assert Join(fs[3..], ":") == fs[3] + (":" + Join(fs[4..], ":"));
    assert fs[2..][1..] == fs[3..];
    assert Join(fs[2..], ":") == fs[2] + (":" + Join(fs[3..], ":"));
    assert fs[1..][1..] == fs[2..];
    assert Join(fs[1..], ":") == fs[1] + (":" + Join(fs[2..], ":"));
  }

  /** The two key layouts the tests pin down. */
  lemma MakeKeyExamples()
    ensures MakeKey(CacheEntry(123, Some(456), Some("hello"), Some("test.*"), Some(1000), Some(2000), [], 0))
            == "123:456:hello:test.*:1000:2000"
    ensures MakeKey(CacheEntry(123, None, None, None, None, None, [], 0)) == "123:None:None:None:None:None"
  {
    ExampleNumerals();
    ExampleLiterals();
  }

  // `ExampleLiterals` and `ExampleNumerals` unroll the string and numeral
  // steps of `MakeKeyExamples`; they model nothing of their own.

  lemma ExampleLiterals()
    ensures "123" + (":" + ("456" + (":" + ("hello" + (":" + ("test.*" + (":" + ("1000" + (":" + "2000")))))))))
            == "123:456:hello:test.*:1000:2000"
    ensures "123" + (":" + ("None" + (":" + ("None" + (":" + ("None" + (":" + ("None" + (":" + "None")))))))))
            == "123:None:None:None:None:None"
  {
  }

  lemma ExampleNumerals()
    ensures IntToString(123) == "123" && IntToString(456) == "456"
    ensures IntToString(1000) == "1000" && IntToString(2000) == "2000"
  {
    assert NatToString(12) == "12";
    assert NatToString(45) == "45";
    assert NatToString(10) == "10";
    assert NatToString(100) == "100";
    assert NatToString(20) == "20";
    assert NatToString(200) == "200";
  }

  /** Same filter fields, payload aside. */
  predicate SameFilter(a: CacheEntry, b: CacheEntry) {
    a.groupId == b.groupId && a.userId == b.userId && a.content == b.content &&
    a.regex == b.regex && a.timeAfter == b.timeAfter && a.timeBefore == b.timeBefore
  }

  /** A text field that cannot be confused inside a key: no ':' and not the
      literal "None". */
  predicate KeySafeText(o: Option<string>) {
    o.Some? ==> ':' !in o.value && o.value != "None"
  }

  predicate KeySafe(e: CacheEntry) {
    KeySafeText(e.content) && KeySafeText(e.regex)
  }

  lemma RenderIntAvoidsColon(o: Option<int>)
    ensures ':' !in RenderInt(o)
  {
    if o.Some? {
      IntToStringAvoids(o.value, ':');
    }
  }

  /** Splitting a key on ':' gives the six rendered fields back whenever the
      text fields hold no ':'. */
  lemma {:induction false} KeySplitsIntoFields(e: CacheEntry)
    requires e.content.Some? ==> ':' !in e.content.value
    requires e.regex.Some? ==> ':' !in e.regex.value
    ensures SplitOn(MakeKey(e), ':') == KeyFields(e)
  {
    var fs := KeyFields(e);
    IntToStringAvoids(e.groupId, ':');
    RenderIntAvoidsColon(e.userId);
    RenderIntAvoidsColon(e.timeAfter);
    RenderIntAvoidsColon(e.timeBefore);
    assert forall k :: 0 <= k < |fs| ==> ':' !in fs[k];
    assert ":" == [':'];
    SplitJoin(fs, ':');
    MakeKeyIsJoin(e);
  }

  lemma RenderIntInjective(a: Option<int>, b: Option<int>)
    requires RenderInt(a) == RenderInt(b)
    ensures a == b
  {
    match a
    case None =>
      if b.Some? {
        IntToStringAvoids(b.value, 'N');
      }
    case Some(i) =>
      if b.None? {
        IntToStringAvoids(i, 'N');
      } else {
        IntToStringInjective(i, b.value);
      }
  }

  lemma RenderStrInjective(a: Option<string>, b: Option<string>)
    requires KeySafeText(a) && KeySafeText(b)
    requires RenderStr(a) == RenderStr(b)
    ensures a == b
  {
  }

  /** Keys of key-safe entries are equal exactly when their filters are. */
  lemma MakeKeyInjective(a: CacheEntry, b: CacheEntry)
    requires KeySafe(a) && KeySafe(b)
    ensures MakeKey(a) == MakeKey(b) <==> SameFilter(a, b)
  {
    if MakeKey(a) == MakeKey(b) {
      KeySplitsIntoFields(a);
      KeySplitsIntoFields(b);
      var fa, fb := KeyFields(a), KeyFields(b);
      assert fa == fb;
      IntToStringInjective(a.groupId, b.groupId);
      RenderIntInjective(a.userId, b.userId);
      RenderStrInjective(a.content, b.content);
      RenderStrInjective(a.regex, b.regex);
      RenderIntInjective(a.timeAfter, b.timeAfter);
      RenderIntInjective(a.timeBefore, b.timeBefore);
    }
  }

  /** Without key safety distinct filters can share a key: content "None"
      renders like a missing content, and a ':' inside content can shift into
      the regex field. */
  lemma MakeKeyCollisions()
    ensures var a := CacheEntry(1, None, Some("None"), None, None, None, [], 0);
            var b := CacheEntry(1, None, None, None, None, None, [], 0);
            MakeKey(a) == MakeKey(b) && !SameFilter(a, b)
    ensures var a := CacheEntry(1, None, Some("x:y"), Some("z"), None, None, [], 0);
            var b := CacheEntry(1, None, Some("x"), Some("y:z"), None, None, [], 0);
            MakeKey(a) == MakeKey(b) && !SameFilter(a, b)
  {
    assert IntToString(1) == "1";
  }

  /** `copy_filter_only`: the same filter and key, no messages, zero count. */
  function CopyFilterOnly(e: CacheEntry): (c: CacheEntry)
    ensures SameFilter(c, e) && MakeKey(c) == MakeKey(e)
    ensures c.messages == [] && c.totalCount == 0
  {
    e.(messages := [], totalCount := 0)
  }

  /** The message list as `put` stores it: the first MAX_MESSAGES_PER_ENTRY. */
  function Truncated(e: CacheEntry): (t: CacheEntry)
    ensures SameFilter(t, e) && MakeKey(t) == MakeKey(e) && t.totalCount == e.totalCount
    ensures |t.messages| == if |e.messages| <= MAX_MESSAGES_PER_ENTRY then |e.messages| else MAX_MESSAGES_PER_ENTRY
    ensures t.messages == e.messages[..|t.messages|]
  {
    if |e.messages| <= MAX_MESSAGES_PER_ENTRY then e
    else e.(messages := e.messages[..MAX_MESSAGES_PER_ENTRY])
  }

  // ---------------------------------------------------------------- weak match

  /** Whether a stored entry may answer a query, time aside. */
  predicate WeakMatch(e: CacheEntry, q: QueryFilter) {
    q.groupId == Some(e.groupId) &&
    e.regex == q.regex &&
    (e.userId.None? || e.userId == q.userId) &&
    (e.content.None? || (q.content.Some? && Contains(q.content.value, e.content.value)))
  }

  /** Each of the four ways a stored entry is refused. */
  lemma WeakMatchRefusals(e: CacheEntry, q: QueryFilter)
    ensures q.groupId != Some(e.groupId) ==> !WeakMatch(e, q)
    ensures e.regex != q.regex ==> !WeakMatch(e, q)
    ensures e.userId.Some? && e.userId != q.userId ==> !WeakMatch(e, q)
    ensures e.content.Some? && q.content.Some? && !Contains(q.content.value, e.content.value) ==> !WeakMatch(e, q)
  {
  }

  /** A broader entry (no user, a shorter content that the query's content
      contains) serves a narrower query. */
  lemma BroaderEntryMatches(e: CacheEntry, q: QueryFilter, pre: string, post: string)
    requires q.groupId == Some(e.groupId) && e.regex == q.regex && e.userId.None?
    requires e.content.Some? && q.content == Some(pre + e.content.value + post)
    ensures WeakMatch(e, q)
  {
    ContainsInfix(pre, e.content.value, post);
  }

  /** An entry answers the query it was made from. */
  lemma WeakMatchSelf(e: CacheEntry, q: QueryFilter)
    requires q.groupId == Some(e.groupId) && q.userId == e.userId
    requires q.content == e.content && q.regex == e.regex
    ensures WeakMatch(e, q)
  {
    if e.content.Some? {
      ContainsSelf(e.content.value);
    }
  }

  // ---------------------------------------------------------------- time

  function StoredAfter(e: CacheEntry): int { e.timeAfter.GetOr(0) }
  function StoredBefore(e: CacheEntry, now: int): int { e.timeBefore.GetOr(now) }
  function QueryAfter(q: QueryFilter): int { q.timeAfter.GetOr(0) }
  function QueryBefore(q: QueryFilter, now: int): int { q.timeBefore.GetOr(now) }

  function Max(a: int, b: int): int { if a >= b then a else b }
  function Min(a: int, b: int): int { if a <= b then a else b }

  /** The stored window contains the query window. */
  predicate Covers(e: CacheEntry, q: QueryFilter, now: int) {
    StoredAfter(e) <= QueryAfter(q) && QueryBefore(q, now) <= StoredBefore(e, now)
  }

  /** The two windows share no instant. */
  predicate Disjoint(e: CacheEntry, q: QueryFilter, now: int) {
    StoredBefore(e, now) <= QueryAfter(q) || QueryBefore(q, now) <= StoredAfter(e)
  }

  /** A non-negative fraction `num / den`. */
  datatype Ratio = Ratio(num: int, den: int)

  /** `ratio > n / d`, by cross-multiplication. */
  predicate Exceeds(r: Ratio, n: int, d: int)
    requires r.den > 0 && d > 0
  {
    r.num * d > n * r.den
  }

  /** `_calculate_overlap_ratio`: the length of the windows' intersection
      over the query's duration, 0 for an empty query window. */
  function OverlapRatio(e: CacheEntry, q: QueryFilter, now: int): (r: Ratio)
    ensures r.den > 0 && 0 <= r.num <= r.den
    ensures QueryBefore(q, now) > QueryAfter(q) ==> r.den == QueryBefore(q, now) - QueryAfter(q)
    ensures QueryBefore(q, now) <= QueryAfter(q) ==> r.num == 0
    ensures Covers(e, q, now) && QueryBefore(q, now) > QueryAfter(q) ==> r.num == r.den
    ensures Disjoint(e, q, now) ==> r.num == 0
    ensures r.num > 0 ==> !Disjoint(e, q, now)
  {
    var qa, qb := QueryAfter(q), QueryBefore(q, now);
    var sa, sb := StoredAfter(e), StoredBefore(e, now);
    if qb <= qa then Ratio(0, 1)
    else Ratio(Max(0, Min(sb, qb) - Max(sa, qa)), qb - qa)
  }

  /** The three ratios the tests pin: 1 inside, 1/2 half over, 0 apart. */
  lemma OverlapRatioExamples()
    ensures var r := OverlapRatio(CacheEntry(123, None, Some("test"), None, Some(1000), Some(3000), [], 0),
                                  QueryFilter(Some(123), None, Some("test"), None, Some(1500), Some(2500), 20, false), 0);
            r.num == r.den
    ensures var r := OverlapRatio(CacheEntry(123, None, Some("test"), None, Some(1000), Some(2000), [], 0),
                                  QueryFilter(Some(123), None, Some("test"), None, Some(1500), Some(2500), 20, false), 0);
            2 * r.num == r.den
    ensures var r := OverlapRatio(CacheEntry(123, None, Some("test"), None, Some(1000), Some(2000), [], 0),
                                  QueryFilter(Some(123), None, Some("test"), None, Some(3000), Some(4000), 20, false), 0);
            r.num == 0
  {
  }

  /** How much of the recent end of the query window the entry misses. */
  function Uncovered(e: CacheEntry, q: QueryFilter, now: int): (u: int)
    ensures u >= 0
  {
    Max(0, QueryBefore(q, now) - StoredBefore(e, now))
  }

  predicate FuzzyOk(e: CacheEntry, q: QueryFilter, now: int) {
    !q.hasAbsoluteTime && Exceeds(OverlapRatio(e, q, now), 9, 10) &&
    Uncovered(e, q, now) < FUZZY_MAX_UNCOVERED
  }

  /** Time coverage of a stored entry against a query. */
  function Classify(e: CacheEntry, q: QueryFilter, now: int): MatchType {
    if Covers(e, q, now) then ExactMatch
    else if FuzzyOk(e, q, now) then FuzzyTime
    else if Exceeds(OverlapRatio(e, q, now), 4, 10) then PartialOverlap
    else NoMatch
  }

  /** The classification, case by case, as the lookup promises it. */
  lemma ClassifyCases(e: CacheEntry, q: QueryFilter, now: int)
    ensures Classify(e, q, now) == ExactMatch <==> Covers(e, q, now)
    ensures Classify(e, q, now) == FuzzyTime <==>
              !Covers(e, q, now) && !q.hasAbsoluteTime &&
              10 * OverlapRatio(e, q, now).num > 9 * OverlapRatio(e, q, now).den &&
              QueryBefore(q, now) - StoredBefore(e, now) < FUZZY_MAX_UNCOVERED
    ensures Classify(e, q, now) == PartialOverlap <==>
              !Covers(e, q, now) &&
              !(!q.hasAbsoluteTime &&
                10 * OverlapRatio(e, q, now).num > 9 * OverlapRatio(e, q, now).den &&
                QueryBefore(q, now) - StoredBefore(e, now) < FUZZY_MAX_UNCOVERED) &&
              10 * OverlapRatio(e, q, now).num > 4 * OverlapRatio(e, q, now).den
    ensures q.hasAbsoluteTime && !Covers(e, q, now) ==> Classify(e, q, now) != FuzzyTime
  {
  }

  /** Windows that share nothing, or an empty query window not inside the
      stored one, give no match. */
  lemma NoOverlapNoMatch(e: CacheEntry, q: QueryFilter, now: int)
    requires !Covers(e, q, now)
    requires Disjoint(e, q, now) || QueryBefore(q, now) <= QueryAfter(q)
    ensures Classify(e, q, now) == NoMatch
  {
  }

  /** The parts of the query window outside the stored window: at most one
      range before the stored start and one after the stored end. */
  function MissingRanges(e: CacheEntry, q: QueryFilter, now: int): (rs: seq<(int, int)>)
    ensures |rs| <= 2
  {
    var qa, qb := QueryAfter(q), QueryBefore(q, now);
    var sa, sb := StoredAfter(e), StoredBefore(e, now);
    (if qa < sa then [(qa, sa - 1)] else []) + (if qb > sb then [(sb + 1, qb)] else [])
  }

  predicate InRange(t: int, r: (int, int)) {
    r.0 <= t <= r.1
  }

  /** Every instant of the query window is in the stored window or in one of
      the missing ranges, and no missing range reaches into the stored window. */
  lemma MissingRangesComplete(e: CacheEntry, q: QueryFilter, now: int, t: int)
    requires QueryAfter(q) <= t <= QueryBefore(q, now)
    ensures (StoredAfter(e) <= t <= StoredBefore(e, now)) ||
            exists k :: 0 <= k < |MissingRanges(e, q, now)| && InRange(t, MissingRanges(e, q, now)[k])
    ensures forall k :: 0 <= k < |MissingRanges(e, q, now)| && InRange(t, MissingRanges(e, q, now)[k]) ==>
              !(StoredAfter(e) <= t <= StoredBefore(e, now))
  {
    var rs := MissingRanges(e, q, now);
    if t < StoredAfter(e) {
      assert InRange(t, rs[0]);
    } else if t > StoredBefore(e, now) {
      assert InRange(t, rs[|rs| - 1]);
    }
  }

  /** The missing ranges of the half-overlap example. */
  lemma MissingRangesExample()
    ensures MissingRanges(CacheEntry(123, None, Some("test"), None, Some(1000), Some(2000), [], 0),
                          QueryFilter(Some(123), None, Some("test"), None, Some(1500), Some(2500), 20, false), 0)
            == [(2001, 2500)]
  {
  }

  // ---------------------------------------------------------------- result

  /** A cached message survives into a result when it belongs to the query's
      user, contains the query's content and lies in the window [lo, hi]. */
  predicate Keep(m: Message, q: QueryFilter, lo: int, hi: int) {
    (q.userId.None? || m.userId == q.userId.value) &&
    (q.content.None? || Contains(m.plainText, q.content.value)) &&
    lo <= m.time <= hi
  }

  /** The positions of the stored messages that `Keep` accepts, ascending. */
  function KeptPositions(ms: seq<Message>, q: QueryFilter, lo: int, hi: int): (ps: seq<int>)
    ensures forall k :: 0 <= k < |ps| ==> 0 <= ps[k] < |ms|
    ensures forall k, l :: 0 <= k < l < |ps| ==> ps[k] < ps[l]
    ensures forall i :: 0 <= i < |ms| ==> (Keep(ms[i], q, lo, hi) <==> i in ps)
    decreases |ms|
  {
    if |ms| == 0 then []
    else
      var ps := KeptPositions(ms[..|ms| - 1], q, lo, hi);
      if Keep(ms[|ms| - 1], q, lo, hi) then ps + [|ms| - 1] else ps
  }

  /** `r` lists the messages of `ms` that `Keep` accepts, in stored order,
      each as often as it is stored. */
  predicate ListsKept(r: seq<Message>, ms: seq<Message>, q: QueryFilter, lo: int, hi: int) {
    var ps := KeptPositions(ms, q, lo, hi);
    |r| == |ps| && forall k :: 0 <= k < |r| ==> r[k] == ms[ps[k]]
  }

  /** The cached messages narrowed to the query, in their stored order. */
  function FilterMessages(ms: seq<Message>, q: QueryFilter, lo: int, hi: int): (r: seq<Message>)
    ensures |r| <= |ms|
    ensures forall m :: m in r <==> m in ms && Keep(m, q, lo, hi)
    ensures ListsKept(r, ms, q, lo, hi)
    decreases |ms|
  {
    if |ms| == 0 then []
    else
      var r := FilterMessages(ms[..|ms| - 1], q, lo, hi);
      if Keep(ms[|ms| - 1], q, lo, hi) then r + [ms[|ms| - 1]] else r
  }

  /** The result one stored entry gives for a query, or None when it cannot
      be used. Messages are narrowed to the overlap of the two windows. */
  function TryEntry(e: CacheEntry, q: QueryFilter, now: int): (r: Option<CacheResult>)
    ensures r.Some? <==> WeakMatch(e, q) && Classify(e, q, now) != NoMatch
    ensures r.Some? ==> r.value.matchType == Classify(e, q, now)
    ensures r.Some? ==> (r.value.isFuzzy <==> r.value.matchType == FuzzyTime)
    ensures r.Some? ==> (r.value.needsIncremental <==> r.value.matchType == PartialOverlap)
    ensures r.Some? && r.value.needsIncremental ==> r.value.missingRanges == MissingRanges(e, q, now)
    ensures r.Some? && !r.value.needsIncremental ==> r.value.missingRanges == []
    ensures r.Some? ==> forall m :: m in r.value.messages <==>
              m in e.messages && Keep(m, q, Max(StoredAfter(e), QueryAfter(q)), Min(StoredBefore(e, now), QueryBefore(q, now)))
  {
    if !WeakMatch(e, q) then None
    else
      var lo := Max(StoredAfter(e), QueryAfter(q));
      var hi := Min(StoredBefore(e, now), QueryBefore(q, now));
      var ms := FilterMessages(e.messages, q, lo, hi);
      match Classify(e, q, now)
      case NoMatch => None
      case ExactMatch => Some(CacheResult(ms, false, false, [], ExactMatch))
      case FuzzyTime => Some(CacheResult(ms, true, false, [], FuzzyTime))
      case PartialOverlap => Some(CacheResult(ms, false, true, MissingRanges(e, q, now), PartialOverlap))
  }

  /** An answer lists the kept messages in stored order, each as often as
      it is stored. */
  lemma TryEntryKeepsOrder(e: CacheEntry, q: QueryFilter, now: int)
    ensures var r := TryEntry(e, q, now);
            r.Some? ==>
              ListsKept(r.value.messages, e.messages, q, Max(StoredAfter(e), QueryAfter(q)), Min(StoredBefore(e, now), QueryBefore(q, now)))
  {
  }

  /** The three threshold cases of the cache tests, for any current time:
      an entry ending 120 s ago answers a relative query from an hour ago
      fuzzily (3480/3600 covered); the same query with an absolute time needs
      an incremental fetch; an entry ending 900 s ago needs one too. */
  lemma ThresholdExamples(now: int)
    ensures var m := Message(1, "test", now - 1800, 123);
            var recent := CacheEntry(123, None, Some("test"), None, Some(now - 3600), Some(now - 120), [m], 1);
            var r := TryEntry(recent, QueryFilter(Some(123), None, Some("test"), None, Some(now - 3600), None, 20, false), now);
            r.Some? && r.value.isFuzzy && !r.value.needsIncremental
    ensures var m := Message(1, "test", now - 1800, 123);
            var recent := CacheEntry(123, None, Some("test"), None, Some(now - 3600), Some(now - 120), [m], 1);
            var r := TryEntry(recent, QueryFilter(Some(123), None, Some("test"), None, Some(now - 3600), None, 20, true), now);
            r.Some? && !r.value.isFuzzy && r.value.needsIncremental
    ensures var m := Message(1, "test", now - 1800, 123);
            var stale := CacheEntry(123, None, Some("test"), None, Some(now - 3600), Some(now - 900), [m], 1);
            var r := TryEntry(stale, QueryFilter(Some(123), None, Some("test"), None, Some(now - 3600), None, 20, false), now);
            r.Some? && !r.value.isFuzzy && r.value.needsIncremental
  {
    var m := Message(1, "test", now - 1800, 123);
    var recent := CacheEntry(123, None, Some("test"), None, Some(now - 3600), Some(now - 120), [m], 1);
    var stale := CacheEntry(123, None, Some("test"), None, Some(now - 3600), Some(now - 900), [m], 1);
    var relative := QueryFilter(Some(123), None, Some("test"), None, Some(now - 3600), None, 20, false);
    var absolute := relative.(hasAbsoluteTime := true);
    ContainsSelf("test");
    assert WeakMatch(recent, relative) && WeakMatch(recent, absolute) && WeakMatch(stale, relative);
    assert OverlapRatio(recent, relative, now) == Ratio(3480, 3600);
    assert OverlapRatio(recent, absolute, now) == Ratio(3480, 3600);
    assert OverlapRatio(stale, relative, now) == Ratio(2700, 3600);
  }

  /** On an exact match every returned message lies in the query window. */
  lemma ExactResultInQueryWindow(e: CacheEntry, q: QueryFilter, now: int)
    requires TryEntry(e, q, now).Some? && TryEntry(e, q, now).value.matchType == ExactMatch
    ensures forall m :: m in TryEntry(e, q, now).value.messages ==>
              m in e.messages && QueryAfter(q) <= m.time <= QueryBefore(q, now)
  {
  }
}
