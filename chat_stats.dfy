/** The chat statistics of a group: per user, how many messages fall into
    each hour of the day (`ChatStatistics`) and on how many distinct days
    the user was active in each hour (`ActiveStatistics`), hours and days
    taken in UTC+8. */
module ChatStats {
  import opened Wrappers
  import opened Text

  // ---------------------------------------------------------------- local time

  /** The fixed local offset, UTC+8, in seconds. */
  const LOCAL_OFFSET: int := 8 * 3600
  const DAY: int := 86400
  const HOUR: int := 3600

  /** A message time in whole seconds: the wall-clock reading and the UTC
      offset it carries, none for a naive time. */
  datatype MessageTime = MessageTime(wall: int, utcOffset: Option<int>)

  /** The instant, in seconds since the epoch; a naive time is taken as UTC. */
  function Instant(t: MessageTime): int {
    match t.utcOffset
    case None => t.wall
    case Some(o) => t.wall - o
  }

  /** The UTC+8 wall clock at that instant. */
  function LocalSeconds(t: MessageTime): int {
    Instant(t) + LOCAL_OFFSET
  }

  /** `local_time.hour`. */
  function LocalHour(t: MessageTime): (h: int)
    ensures 0 <= h < 24
  {
    (LocalSeconds(t) % DAY) / HOUR
  }

  /** `local_time.date()`, as the number of days since the epoch. */
  function LocalDate(t: MessageTime): int {
    LocalSeconds(t) / DAY
  }

  /** The local date and hour locate the instant: it lies within that hour
      of that day. */
  lemma LocalClock(t: MessageTime)
    ensures var rest := LocalSeconds(t) - LocalDate(t) * DAY - LocalHour(t) * HOUR;
            0 <= rest < HOUR
  {
    var s := LocalSeconds(t);
    var r := s % DAY;
    assert s == LocalDate(t) * DAY + r;
    assert r == LocalHour(t) * HOUR + r % HOUR;
  }

  /** A message a day later falls into the same hour of the next date. */
  lemma NextDay(t: MessageTime)
    ensures var u := MessageTime(t.wall + DAY, t.utcOffset);
            LocalHour(u) == LocalHour(t) && LocalDate(u) == LocalDate(t) + 1
  {
    var s := LocalSeconds(t);
    var u := MessageTime(t.wall + DAY, t.utcOffset);
    assert LocalSeconds(u) == s + DAY;
    assert (s + DAY) / DAY == s / DAY + 1 && (s + DAY) % DAY == s % DAY by {
      assert s + DAY == (s / DAY + 1) * DAY + s % DAY;
    }
  }

  // ---------------------------------------------------------------- message counts

  /** `hourly_distribution.get(h, 0)`. */
  function Count(m: map<int, int>, h: int): int {
    if h in m then m[h] else 0
  }

  /** The counts of hours `from` to 23. */
  function SumFrom(m: map<int, int>, from: nat): int
    decreases 24 - from
  {
    if from >= 24 then 0 else Count(m, from) + SumFrom(m, from + 1)
  }

  /** `hourly_distribution[h] += 1` on a `defaultdict(int)`. */
  function Bump(m: map<int, int>, h: int): map<int, int> {
    m[h := Count(m, h) + 1]
  }

  /** One more message in hour `h` adds one to the sum of every range of
      hours that holds `h`. */
  lemma {:induction false} SumBump(m: map<int, int>, h: int, from: nat)
    requires 0 <= h < 24
    ensures SumFrom(Bump(m, h), from) == SumFrom(m, from) + (if from <= h then 1 else 0)
    decreases 24 - from
  {
    if from < 24 {
      SumBump(m, h, from + 1);
    }
  }

  /** Counting one more message in an hour of the day keeps a tally valid. */
  lemma BumpValid(hourly: map<int, int>, total: int, h: int)
    requires ValidCounts(hourly, total) && 0 <= h < 24
    ensures ValidCounts(Bump(hourly, h), total + 1)
  {
    SumBump(hourly, h, 0);
  }

  /** No hour counted, no message. */
  lemma {:induction false} SumEmpty(from: nat)
    ensures SumFrom(map[], from) == 0
    decreases 24 - from
  {
    if from < 24 {
      SumEmpty(from + 1);
    }
  }

  /** Counts that are all positive sum to a positive number when any hour
      is counted. */
  lemma {:induction false} SumPositive(m: map<int, int>, from: nat, h: int)
    requires forall k :: k in m ==> m[k] > 0
    requires from <= h < 24 && h in m
    ensures SumFrom(m, from) > 0
    decreases 24 - from
  {
    if from < h {
      SumPositive(m, from + 1, h);
    } else {
      SumNonNegative(m, from + 1);
    }
  }

  lemma {:induction false} SumNonNegative(m: map<int, int>, from: nat)
    requires forall k :: k in m ==> m[k] > 0
    ensures SumFrom(m, from) >= 0
    decreases 24 - from
  {
    if from < 24 {
      SumNonNegative(m, from + 1);
    }
  }

  /** The number of messages in local hour `h`. */
  function HourCount(ts: seq<MessageTime>, h: int): nat {
    if |ts| == 0 then 0
    else HourCount(ts[..|ts| - 1], h) + (if LocalHour(ts[|ts| - 1]) == h then 1 else 0)
  }

  /** The messages of hours `from` to 23. */
  function HourCountFrom(ts: seq<MessageTime>, from: nat): int
    decreases 24 - from
  {
    if from >= 24 then 0 else HourCount(ts, from) + HourCountFrom(ts, from + 1)
  }

  /** Every message falls into exactly one hour: the hour counts of a list
      of messages add up to its length. */
  lemma {:induction false} HourCountsSum(ts: seq<MessageTime>)
    ensures HourCountFrom(ts, 0) == |ts|
    decreases |ts|
  {
    if |ts| > 0 {
      HourCountsSum(ts[..|ts| - 1]);
      HourCountsStep(ts, LocalHour(ts[|ts| - 1]), 0);
    } else {
      HourCountsNone(ts, 0);
    }
  }

  lemma {:induction false} HourCountsNone(ts: seq<MessageTime>, from: nat)
    requires |ts| == 0
    ensures HourCountFrom(ts, from) == 0
    decreases 24 - from
  {
    if from < 24 {
      HourCountsNone(ts, from + 1);
    }
  }

  lemma {:induction false} HourCountsStep(ts: seq<MessageTime>, h: int, from: nat)
    requires |ts| > 0 && h == LocalHour(ts[|ts| - 1])
    ensures HourCountFrom(ts, from) == HourCountFrom(ts[..|ts| - 1], from) + (if from <= h then 1 else 0)
    decreases 24 - from
  {
    if from < 24 {
      HourCountsStep(ts, h, from + 1);
    }
  }

  /** A share of the messages as an exact fraction: `num / den` percent. */
  datatype Percent = Percent(num: int, den: int)

  /** `UserPart`: "<name>的" for a non-empty display name, nothing otherwise. */
  function UserPart(userDisplay: Option<string>): string {
    if userDisplay.Some? && userDisplay.value != "" then userDisplay.value + "的" else ""
  }

  /** Python's right-aligned `{x:wd}`: spaces in front up to width `w`. */
  function PadLeft(s: string, w: nat): (r: string)
    ensures |r| == if |s| >= w then |s| else w
    ensures r[|r| - |s|..] == s
    ensures forall c :: c in r ==> c == ' ' || c in s
  {
    if |s| >= w then s else seq(w - |s|, _ => ' ') + s
  }

  /** One line of the text output: the hour, its number and its share. */
  function HourLine(hour: int, count: int, percentText: string): string {
    PadLeft(IntToString(hour), 2) + "h: " + PadLeft(IntToString(count), 3) + " (" + percentText + "%)"
  }

  /** An hour line has no line break when the percentage text has none. */
  lemma HourLineOneLine(hour: int, count: int, percentText: string)
    requires '\n' !in percentText
    ensures '\n' !in HourLine(hour, count, percentText)
  {
    IntToStringAvoids(hour, '\n');
    IntToStringAvoids(count, '\n');
  }

  // ---------------------------------------------------------------- ChatStatistics

  /** Only hours of the day are counted, each counted hour holds at least
      one message, and the hourly counts add up to the total. */
  ghost predicate ValidCounts(hourly: map<int, int>, total: int) {
    (forall h :: h in hourly ==> 0 <= h < 24 && hourly[h] > 0) &&
    total == SumFrom(hourly, 0)
  }

  /** `ChatStatistics`: the number of messages per local hour and in all.
      The creation-time window (`start_time`, `end_time`) reads the clock and
      is not part of this model. */
  class ChatStatistics {
    const userId: string
    const groupId: string
    const days: int
    var hourly: map<int, int>
    var total: int

    /** Only hours of the day are counted, each counted hour holds at least
        one message, and the hourly counts add up to the total. */
    ghost predicate Valid()
      reads this
    {
      ValidCounts(hourly, total)
    }

    constructor (userId: string, groupId: string, days: int)
      ensures Valid()
      ensures this.userId == userId && this.groupId == groupId && this.days == days
      ensures hourly == map[] && total == 0
    {
      this.userId := userId;
      this.groupId := groupId;
      this.days := days;
      hourly := map[];
      total := 0;
      SumEmpty(0);
    }

    /** `add_message`: one more message in the time's local hour. */
    method AddMessage(t: MessageTime)
      requires Valid()
      modifies this
      ensures Valid()
      ensures hourly == Bump(old(hourly), LocalHour(t)) && total == old(total) + 1
    {
      var hour := LocalHour(t);
      BumpValid(hourly, total, hour);
      hourly := Bump(hourly, hour);
      total := total + 1;
    }

    /** `get_hourly_percentages`: each counted hour's share of all messages,
        nothing when there are none. */
    function HourlyPercentages(): (r: map<int, Percent>)
      reads this
      ensures total == 0 ==> r == map[]
      ensures total != 0 ==> r.Keys == hourly.Keys && forall h :: h in r ==> r[h] == Percent(hourly[h] * 100, total)
    {
      if total == 0 then map[] else map h | h in hourly :: Percent(hourly[h] * 100, total)
    }

    /** `format_text_output`, with the `%4.1f` rendering of each hour's
        percentage given as `percentText` (0 for an uncounted hour). */
    function FormatTextOutput(userDisplay: Option<string>, percentText: int -> string): (r: string)
      reads this
    {
      if total == 0 then
        UserPart(userDisplay) + "过去" + IntToString(days) + "天无聊天记录"
      else
        Header(userDisplay) + "\n" + Join(Lines(percentText), "\n")
    }

    function Header(userDisplay: Option<string>): string
      reads this
    {
      UserPart(userDisplay) + "过去" + IntToString(days) + "天聊天分布 (共" + IntToString(total) + "条消息)"
    }

    function Lines(percentText: int -> string): (ls: seq<string>)
      reads this
      ensures |ls| == 24
    {
      var m := hourly;
      seq(24, h => HourLine(h, Count(m, h), percentText(h)))
    }
  }

  /** With no message the statistics are empty: no percentages, and the
      text is the single no-records line; with messages, the percentages of
      the counted hours add up to 100. */
  lemma ChatStatisticsEmpty(s: ChatStatistics, userDisplay: Option<string>, percentText: int -> string)
    requires s.Valid()
    ensures s.HourlyPercentages() == map[] <==> s.total == 0
    ensures s.total == 0 <==> s.hourly == map[]
    ensures s.total == 0 ==>
              s.FormatTextOutput(userDisplay, percentText) ==
              UserPart(userDisplay) + "过去" + IntToString(s.days) + "天无聊天记录"
  {
    if s.hourly == map[] {
      SumEmpty(0);
    } else {
      var h := SomeKey(s.hourly);
      SumPositive(s.hourly, 0, h);
    }
  }

  /** With messages, the text is the header and one line per hour, 0 to 23
      in order, each holding that hour's count. */
  lemma ChatTextLines(s: ChatStatistics, userDisplay: Option<string>, percentText: int -> string)
    requires s.total != 0
    requires userDisplay.Some? ==> '\n' !in userDisplay.value
    requires forall h :: 0 <= h < 24 ==> '\n' !in percentText(h)
    ensures SplitOn(s.FormatTextOutput(userDisplay, percentText), '\n') == [s.Header(userDisplay)] + s.Lines(percentText)
    ensures forall h :: 0 <= h < 24 ==>
              s.Lines(percentText)[h] == HourLine(h, Count(s.hourly, h), percentText(h))
  {
    var ls := s.Lines(percentText);
    var hd := s.Header(userDisplay);
    LinesOneLine(s, percentText);
    HeaderOneLine(s, userDisplay);
    var parts := [hd] + ls;
    PartsOneLine(hd, ls);
    JoinCons(parts, "\n");
    assert parts[1..] == ls;
    Assoc(hd, "\n", Join(ls, "\n"));
    SplitJoin(parts, '\n');
  }

  lemma LinesOneLine(s: ChatStatistics, percentText: int -> string)
    requires forall h :: 0 <= h < 24 ==> '\n' !in percentText(h)
    ensures forall k :: 0 <= k < 24 ==> '\n' !in s.Lines(percentText)[k]
  {
    forall k | 0 <= k < 24 ensures '\n' !in s.Lines(percentText)[k] {
      HourLineOneLine(k, Count(s.hourly, k), percentText(k));
    }
  }

  lemma PartsOneLine(hd: string, ls: seq<string>)
    requires '\n' !in hd && forall k :: 0 <= k < |ls| ==> '\n' !in ls[k]
    ensures forall k :: 0 <= k < |[hd] + ls| ==> '\n' !in ([hd] + ls)[k]
  {
  }

  lemma HeaderOneLine(s: ChatStatistics, userDisplay: Option<string>)
    requires userDisplay.Some? ==> '\n' !in userDisplay.value
    ensures '\n' !in s.Header(userDisplay)
  {
    IntToStringAvoids(s.days, '\n');
    IntToStringAvoids(s.total, '\n');
  }

  /** With messages, the shares of the counted hours add up to 100 percent:
      their numerators sum to 100 times the common denominator. */
  lemma PercentagesSum(s: ChatStatistics)
    requires s.Valid() && s.total != 0
    ensures PercentSumFrom(s.HourlyPercentages(), 0) == 100 * s.total
  {
    PercentSumIs(s.hourly, s.HourlyPercentages(), s.total, 0);
  }

  /** The numerators of hours `from` to 23. */
  function PercentSumFrom(p: map<int, Percent>, from: nat): int
    decreases 24 - from
  {
    if from >= 24 then 0 else (if from in p then p[from].num else 0) + PercentSumFrom(p, from + 1)
  }

  lemma {:induction false} PercentSumIs(m: map<int, int>, p: map<int, Percent>, total: int, from: nat)
    requires p.Keys == m.Keys && forall h :: h in p ==> p[h] == Percent(m[h] * 100, total)
    ensures PercentSumFrom(p, from) == 100 * SumFrom(m, from)
    decreases 24 - from
  {
    if from < 24 {
      PercentSumIs(m, p, total, from + 1);
    }
  }

  /** `get_user_chat_statistics` once the records are fetched: every
      message's time added in turn. */
  method UserChatStatistics(userId: string, groupId: string, days: int, times: seq<MessageTime>)
    returns (stats: ChatStatistics)
    ensures fresh(stats) && stats.Valid() && stats.userId == userId
    ensures stats.total == |times|
    ensures forall h :: Count(stats.hourly, h) == HourCount(times, h)
  {
    stats := new ChatStatistics(userId, groupId, days);
    for i := 0 to |times|
      invariant stats.Valid() && stats.userId == userId
      invariant stats.total == i
      invariant forall h :: Count(stats.hourly, h) == HourCount(times[..i], h)
    {
      assert times[..i + 1][..i] == times[..i];
      stats.AddMessage(times[i]);
    }
    assert times[..|times|] == times;
  }

  // ---------------------------------------------------------------- the group partition

  /** A message record: who sent it and when. */
  datatype Record = Record(userId: string, time: MessageTime)

  /** The number of records of user `u`. */
  function UserCount(rs: seq<Record>, u: string): nat {
    if |rs| == 0 then 0
    else UserCount(rs[..|rs| - 1], u) + (if rs[|rs| - 1].userId == u then 1 else 0)
  }

  /** The times of user `u`'s records, in order. */
  function TimesOf(rs: seq<Record>, u: string): (ts: seq<MessageTime>)
    ensures |ts| == UserCount(rs, u)
  {
    if |rs| == 0 then []
    else TimesOf(rs[..|rs| - 1], u) + (if rs[|rs| - 1].userId == u then [rs[|rs| - 1].time] else [])
  }

  /** The users with records, each once, in order of their first record:
      the key order of the dictionary the source builds. */
  function Users(rs: seq<Record>): (us: seq<string>)
  {
    if |rs| == 0 then []
    else
      var init := Users(rs[..|rs| - 1]);
      var u := rs[|rs| - 1].userId;
      if u in init then init else init + [u]
  }

  /** Each user with a record appears once, and no one else. */
  lemma {:induction false} UsersMeaning(rs: seq<Record>)
    ensures forall u :: u in Users(rs) <==> exists i :: 0 <= i < |rs| && rs[i].userId == u
    ensures forall i, j :: 0 <= i < j < |Users(rs)| ==> Users(rs)[i] != Users(rs)[j]
    decreases |rs|
  {
    if |rs| > 0 {
      UsersMeaning(rs[..|rs| - 1]);
      UsersStep(rs, Users(rs[..|rs| - 1]));
    }
  }

  lemma UsersStep(rs: seq<Record>, init: seq<string>)
    requires |rs| > 0
    requires forall u :: u in init <==> exists i :: 0 <= i < |rs| - 1 && rs[i].userId == u
    ensures forall u :: (exists i :: 0 <= i < |rs| && rs[i].userId == u) <==> u in init || u == rs[|rs| - 1].userId
  {
    forall u ensures (exists i :: 0 <= i < |rs| && rs[i].userId == u) <==> u in init || u == rs[|rs| - 1].userId {
      if exists i :: 0 <= i < |rs| && rs[i].userId == u {
        var i :| 0 <= i < |rs| && rs[i].userId == u;
      }
    }
  }

  /** The record counts of the users in `us`. */
  function SumUsers(us: seq<string>, rs: seq<Record>): int {
    if |us| == 0 then 0 else UserCount(rs, us[0]) + SumUsers(us[1..], rs)
  }

  /** The per-user totals partition the records: they add up to the number
      of records. */
  lemma {:induction false} PartitionTotal(rs: seq<Record>)
    ensures SumUsers(Users(rs), rs) == |rs|
    decreases |rs|
  {
    if |rs| > 0 {
      var init := rs[..|rs| - 1];
      var u := rs[|rs| - 1].userId;
      var us := Users(init);
      UsersMeaning(init);
      PartitionTotal(init);
      SumUsersStep(us, rs, init, u);
      if u !in us {
        SumUsersSnoc(us, u, rs);
        UserCountAbsent(init, u);
      }
    }
  }

  /** Adding a record adds one to the sum of any list of distinct users
      that holds its sender, and nothing otherwise. */
  lemma {:induction false} SumUsersStep(us: seq<string>, rs: seq<Record>, init: seq<Record>, u: string)
    requires |rs| > 0 && init == rs[..|rs| - 1] && u == rs[|rs| - 1].userId
    requires forall i, j :: 0 <= i < j < |us| ==> us[i] != us[j]
    ensures SumUsers(us, rs) == SumUsers(us, init) + (if u in us then 1 else 0)
    decreases |us|
  {
    if |us| > 0 {
      SumUsersStep(us[1..], rs, init, u);
      if u == us[0] {
        assert u !in us[1..];
      } else {
        assert u in us ==> u in us[1..];
      }
    }
  }

  lemma {:induction false} SumUsersSnoc(us: seq<string>, u: string, rs: seq<Record>)
    ensures SumUsers(us + [u], rs) == SumUsers(us, rs) + UserCount(rs, u)
    decreases |us|
  {
    if |us| == 0 {
      assert (us + [u])[1..] == [];
    } else {
      assert (us + [u])[1..] == us[1..] + [u];
      SumUsersSnoc(us[1..], u, rs);
    }
  }

  /** A user with no record has no count. */
  lemma {:induction false} UserCountAbsent(rs: seq<Record>, u: string)
    requires forall i :: 0 <= i < |rs| ==> rs[i].userId != u
    ensures UserCount(rs, u) == 0
    decreases |rs|
  {
    if |rs| > 0 {
      UserCountAbsent(rs[..|rs| - 1], u);
    }
  }

  /** `get_group_chat_statistics` once the records are fetched: one
      statistics object per user with records, created at that user's first
      record and fed that user's messages. */
  method GroupChatStatistics(groupId: string, days: int, rs: seq<Record>)
    returns (userStats: map<string, ChatStatistics>)
    ensures forall u :: u in userStats <==> u in Users(rs)
    ensures forall u :: u in userStats ==> fresh(userStats[u])
    ensures forall u, v :: u in userStats && v in userStats && u != v ==> userStats[u] != userStats[v]
    ensures forall u :: u in userStats ==>
              userStats[u].Valid() && userStats[u].userId == u &&
              CountsOf(userStats[u].hourly, userStats[u].total, u, rs)
  {
    userStats := map[];
    ghost var counts: map<string, (map<int, int>, int)> := map[];
    for i := 0 to |rs|
      invariant AllCounts(counts, rs[..i]) && Mirrors(userStats, counts)
      invariant forall u :: u in userStats ==> fresh(userStats[u])
    {
      AllCountsStep(counts, rs, i);
      userStats := Tally(userStats, counts, rs[i], groupId, days);
      counts := counts[rs[i].userId := NextCounts(counts, rs[i])];
    }
    assert rs[..|rs|] == rs;
  }

  /** The statistics objects of `userStats` hold exactly the tallies in `counts`. */
  ghost predicate Mirrors(userStats: map<string, ChatStatistics>, counts: map<string, (map<int, int>, int)>)
    reads userStats.Values
  {
    userStats.Keys == counts.Keys &&
    forall u :: u in userStats ==>
      userStats[u].userId == u && userStats[u].hourly == counts[u].0 && userStats[u].total == counts[u].1
  }

  /** One pass of the loop body: the sender's object is fetched or created, then bumped. */
  method Tally(userStats: map<string, ChatStatistics>, ghost counts: map<string, (map<int, int>, int)>,
               r: Record, groupId: string, days: int)
    returns (next: map<string, ChatStatistics>)
    requires Mirrors(userStats, counts)
    requires forall u :: u in counts ==> ValidCounts(counts[u].0, counts[u].1)
    modifies userStats.Values
    ensures Mirrors(next, counts[r.userId := NextCounts(counts, r)])
    ensures forall u :: u in next ==> (u in userStats && next[u] == userStats[u]) || fresh(next[u])
  {
    var s: ChatStatistics;
    if r.userId in userStats {
      s := userStats[r.userId];
    } else {
      s := new ChatStatistics(r.userId, groupId, days);
    }
    next := userStats[r.userId := s];
    s.AddMessage(r.time);
  }

  ghost predicate AllCounts(counts: map<string, (map<int, int>, int)>, rs: seq<Record>) {
    (forall u :: u in counts <==> u in Users(rs)) &&
    forall u :: u in counts ==> ValidCounts(counts[u].0, counts[u].1) && CountsOf(counts[u].0, counts[u].1, u, rs)
  }

  /** The counts of the sender of `r` once `r` is counted: one more in the
      hour of `r`, from empty counts for a new sender. */
  function NextCounts(counts: map<string, (map<int, int>, int)>, r: Record): (map<int, int>, int) {
    var c := if r.userId in counts then counts[r.userId] else (map[], 0);
    (Bump(c.0, LocalHour(r.time)), c.1 + 1)
  }

  /** The next record counts for its sender and for no one else. */
  lemma AllCountsStep(counts: map<string, (map<int, int>, int)>, rs: seq<Record>, i: nat)
    requires i < |rs| && AllCounts(counts, rs[..i])
    ensures AllCounts(counts[rs[i].userId := NextCounts(counts, rs[i])], rs[..i + 1])
  {
    UsersSetStep(rs, i);
    SenderCounts(counts, rs, i);
    OtherCounts(counts, rs, i);
    AllCountsUpdate(counts, rs[i].userId, NextCounts(counts, rs[i]), rs[..i], rs[..i + 1]);
  }

  lemma AllCountsUpdate(counts: map<string, (map<int, int>, int)>, u: string, c: (map<int, int>, int),
                        before: seq<Record>, after: seq<Record>)
    requires forall v :: v in counts <==> v in Users(before)
    requires forall v :: v in Users(after) <==> v in Users(before) || v == u
    requires ValidCounts(c.0, c.1) && CountsOf(c.0, c.1, u, after)
    requires forall v :: v in counts && v != u ==> ValidCounts(counts[v].0, counts[v].1) && CountsOf(counts[v].0, counts[v].1, v, after)
    ensures AllCounts(counts[u := c], after)
  {
    var next := counts[u := c];
    forall v ensures v in next <==> v in Users(after) {
    }
    forall v | v in next ensures ValidCounts(next[v].0, next[v].1) && CountsOf(next[v].0, next[v].1, v, after) {
      if v != u {
        assert next[v] == counts[v];
      }
    }
  }

  lemma UsersSetStep(rs: seq<Record>, i: nat)
    requires i < |rs|
    ensures forall v :: v in Users(rs[..i + 1]) <==> v in Users(rs[..i]) || v == rs[i].userId
  {
    assert rs[..i + 1][..i] == rs[..i];
  }

  lemma SenderCounts(counts: map<string, (map<int, int>, int)>, rs: seq<Record>, i: nat)
    requires i < |rs| && AllCounts(counts, rs[..i])
    ensures var c := NextCounts(counts, rs[i]);
            ValidCounts(c.0, c.1) && CountsOf(c.0, c.1, rs[i].userId, rs[..i + 1])
  {
    var u := rs[i].userId;
    var pre := rs[..i + 1];
    assert pre[..i] == rs[..i];
    var c := if u in counts then counts[u] else (map[], 0);
    if u !in counts {
      UsersMeaning(rs[..i]);
      CountsAbsent(rs[..i], u);
      SumEmpty(0);
    }
    BumpValid(c.0, c.1, LocalHour(rs[i].time));
    CountsAfter(c.0, c.1, pre);
  }

  lemma OtherCounts(counts: map<string, (map<int, int>, int)>, rs: seq<Record>, i: nat)
    requires i < |rs| && AllCounts(counts, rs[..i])
    ensures forall v :: v in counts && v != rs[i].userId ==>
              ValidCounts(counts[v].0, counts[v].1) && CountsOf(counts[v].0, counts[v].1, v, rs[..i + 1])
  {
    var pre := rs[..i + 1];
    assert pre[..i] == rs[..i];
    forall v | v in counts && v != rs[i].userId ensures CountsOf(counts[v].0, counts[v].1, v, pre) {
      CountsOther(counts[v].0, counts[v].1, v, pre);
    }
  }

  /** Hourly counts and a total that are those of user `u`'s records. */
  ghost predicate CountsOf(hourly: map<int, int>, total: int, u: string, rs: seq<Record>) {
    total == UserCount(rs, u) && forall h :: Count(hourly, h) == HourCount(TimesOf(rs, u), h)
  }

  /** A user without records starts from empty counts. */
  lemma CountsAbsent(rs: seq<Record>, u: string)
    requires forall i :: 0 <= i < |rs| ==> rs[i].userId != u
    ensures CountsOf(map[], 0, u, rs)
  {
    UserCountAbsent(rs, u);
  }

  /** Counting the sender's latest record keeps the counts those of the
      sender's records. */
  lemma CountsAfter(hourly: map<int, int>, total: int, rs: seq<Record>)
    requires |rs| > 0 && CountsOf(hourly, total, rs[|rs| - 1].userId, rs[..|rs| - 1])
    ensures CountsOf(Bump(hourly, LocalHour(rs[|rs| - 1].time)), total + 1, rs[|rs| - 1].userId, rs)
  {
    var u := rs[|rs| - 1].userId;
    var ts := TimesOf(rs, u);
    assert ts == TimesOf(rs[..|rs| - 1], u) + [rs[|rs| - 1].time];
    assert ts[..|ts| - 1] == TimesOf(rs[..|rs| - 1], u);
    forall h ensures Count(Bump(hourly, LocalHour(rs[|rs| - 1].time)), h) == HourCount(ts, h) {
      assert HourCount(ts, h) == HourCount(ts[..|ts| - 1], h) + (if LocalHour(ts[|ts| - 1]) == h then 1 else 0);
    }
  }

  /** Another user's counts are unaffected by the record. */
  lemma CountsOther(hourly: map<int, int>, total: int, u: string, rs: seq<Record>)
    requires |rs| > 0 && rs[|rs| - 1].userId != u
    requires CountsOf(hourly, total, u, rs[..|rs| - 1])
    ensures CountsOf(hourly, total, u, rs)
  {
    var init := TimesOf(rs[..|rs| - 1], u);
    assert TimesOf(rs, u) == init + [];
    assert init + [] == init;
  }

  /** A map with an entry has a key. */
  lemma SomeKey<K, V>(m: map<K, V>) returns (k: K)
    requires m != map[]
    ensures k in m
  {
    assert |m.Keys| == |m|;
    assert |m| != 0;
    k :| k in m.Keys;
  }

  // ---------------------------------------------------------------- ActiveStatistics

  /** `hourly_active_days.get(h)`, empty when the hour has none. */
  function DatesAt(m: map<int, set<int>>, h: int): set<int> {
    if h in m then m[h] else {}
  }

  /** `hourly_active_days[hour].add(date)` on a `defaultdict(set)`. */
  function MarkActive(m: map<int, set<int>>, t: MessageTime): map<int, set<int>> {
    m[LocalHour(t) := DatesAt(m, LocalHour(t)) + {LocalDate(t)}]
  }

  /** The local dates on which messages fell into hour `h`. */
  function ActiveDates(ts: seq<MessageTime>, h: int): set<int> {
    set t | t in ts && LocalHour(t) == h :: LocalDate(t)
  }

  /** Marking a message that shares its hour and date with one already
      marked changes nothing. */
  lemma MarkActiveIdempotent(m: map<int, set<int>>, t: MessageTime, t2: MessageTime)
    requires LocalHour(t2) == LocalHour(t) && LocalDate(t2) == LocalDate(t)
    ensures MarkActive(MarkActive(m, t), t2) == MarkActive(m, t)
  {
  }

  /** `ActiveStatistics`: per local hour, the set of local dates with a
      message in that hour. */
  class ActiveStatistics {
    const userId: string
    const groupId: string
    const days: int
    var hourlyActive: map<int, set<int>>

    /** Only hours of the day appear, each with at least one date. */
    ghost predicate Valid()
      reads this
    {
      forall h :: h in hourlyActive ==> 0 <= h < 24 && hourlyActive[h] != {}
    }

    constructor (userId: string, groupId: string, days: int)
      ensures Valid()
      ensures this.userId == userId && this.groupId == groupId && this.days == days
      ensures hourlyActive == map[]
    {
      this.userId := userId;
      this.groupId := groupId;
      this.days := days;
      hourlyActive := map[];
    }

    /** `add_message`: the message's local date joins its hour's dates. */
    method AddMessage(t: MessageTime)
      requires Valid()
      modifies this
      ensures Valid()
      ensures hourlyActive == MarkActive(old(hourlyActive), t)
    {
      var hour := LocalHour(t);
      var date := LocalDate(t);
      hourlyActive := hourlyActive[hour := DatesAt(hourlyActive, hour) + {date}];
    }

    /** `get_hourly_active_counts`: the number of active dates per hour. */
    function HourlyActiveCounts(): (r: map<int, int>)
      reads this
      ensures r.Keys == hourlyActive.Keys && forall h :: h in r ==> r[h] == |hourlyActive[h]|
    {
      map h | h in hourlyActive :: |hourlyActive[h]|
    }

    /** The hours with at least one active date. */
    function ActiveHours(): (r: nat)
      reads this
    {
      var counts := HourlyActiveCounts();
      |set h | h in counts && counts[h] > 0|
    }

    /** `get_hourly_percentages`: each hour's active dates as a share of the
        requested days, nothing when zero days were requested. */
    function HourlyPercentages(): (r: map<int, Percent>)
      reads this
      ensures days == 0 ==> r == map[]
      ensures days != 0 ==> r.Keys == hourlyActive.Keys &&
                            forall h :: h in r ==> r[h] == Percent(|hourlyActive[h]| * 100, days)
    {
      if days == 0 then map[] else map h | h in hourlyActive :: Percent(|hourlyActive[h]| * 100, days)
    }

    /** `format_text_output`, the `%5.1f` percentage rendering given as
        `percentText`. */
    function FormatTextOutput(userDisplay: Option<string>, percentText: int -> string): string
      reads this
    {
      if ActiveHours() == 0 then
        UserPart(userDisplay) + "过去" + IntToString(days) + "天无活跃记录"
      else
        UserPart(userDisplay) + "过去" + IntToString(days) + "天活跃时间分布 (共" + IntToString(ActiveHours()) + "个活跃小时)" +
        "\n" + Join(ActiveLines(percentText), "\n")
    }

    function ActiveLines(percentText: int -> string): (ls: seq<string>)
      reads this
      ensures |ls| == 24
    {
      var counts := HourlyActiveCounts();
      seq(24, h => HourLine(h, Count(counts, h), percentText(h)))
    }
  }

  /** Every hour that appears is active, so the active hours are the hours
      that appear, and there are none exactly when no message was added. */
  lemma ActiveHoursMeaning(s: ActiveStatistics, userDisplay: Option<string>, percentText: int -> string)
    requires s.Valid()
    ensures s.ActiveHours() == |s.hourlyActive.Keys|
    ensures s.ActiveHours() == 0 <==> s.hourlyActive == map[]
    ensures s.hourlyActive == map[] ==>
              s.FormatTextOutput(userDisplay, percentText) ==
              UserPart(userDisplay) + "过去" + IntToString(s.days) + "天无活跃记录"
  {
    var counts := s.HourlyActiveCounts();
    assert (set h | h in counts && counts[h] > 0) == s.hourlyActive.Keys by {
      forall h | h in s.hourlyActive ensures counts[h] > 0 {
        assert s.hourlyActive[h] != {};
      }
    }
    if s.hourlyActive != map[] {
      var h := SomeKey(s.hourlyActive);
    }
  }

  /** `get_user_active_statistics` once the records are fetched: each hour
      holds the dates of the messages in it, so its count is the number of
      distinct dates with a message in that hour. */
  method UserActiveStatistics(userId: string, groupId: string, days: int, times: seq<MessageTime>)
    returns (stats: ActiveStatistics)
    ensures fresh(stats) && stats.Valid() && stats.userId == userId
    ensures forall h :: DatesAt(stats.hourlyActive, h) == ActiveDates(times, h)
  {
    stats := new ActiveStatistics(userId, groupId, days);
    for i := 0 to |times|
      invariant stats.Valid() && stats.userId == userId
      invariant forall h :: DatesAt(stats.hourlyActive, h) == ActiveDates(times[..i], h)
    {
      ActiveDatesStep(times[..i], times[i]);
      assert times[..i + 1] == times[..i] + [times[i]];
      stats.AddMessage(times[i]);
    }
    assert times[..|times|] == times;
  }

  /** One more message adds its date to its hour and to no other. */
  lemma ActiveDatesStep(ts: seq<MessageTime>, t: MessageTime)
    ensures forall h :: ActiveDates(ts + [t], h) ==
                        ActiveDates(ts, h) + (if LocalHour(t) == h then {LocalDate(t)} else {})
  {
    forall h ensures ActiveDates(ts + [t], h) == ActiveDates(ts, h) + (if LocalHour(t) == h then {LocalDate(t)} else {}) {
      forall d | d in ActiveDates(ts + [t], h)
        ensures d in ActiveDates(ts, h) + (if LocalHour(t) == h then {LocalDate(t)} else {})
      {
        var x :| x in ts + [t] && LocalHour(x) == h && LocalDate(x) == d;
        if x != t {
          assert x in ts;
        }
      }
      forall d | d in ActiveDates(ts, h) ensures d in ActiveDates(ts + [t], h) {
        var x :| x in ts && LocalHour(x) == h && LocalDate(x) == d;
        assert x in ts + [t];
      }
      if LocalHour(t) == h {
        assert t in ts + [t];
      }
    }
  }
}
