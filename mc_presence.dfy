/** Per-player presence of the Minecraft server checker: for every (group,
    server) pair, who is online since when and when each player was last
    seen leaving, and the join/leave messages a new status sample gives. */
module McPresence {
  import opened Wrappers
  import opened Text
  import opened Dicts
  import opened Orders
  import opened McFormat

  /** A (group id, server address) pair. */
  type PresenceKey = (int, string)

  /** The two module-level tables: player -> online since, and player ->
      last seen going offline, per (group, server). */
  datatype Presence = Presence(
    online: map<PresenceKey, Dict<string, int>>,
    lastOffline: map<PresenceKey, Dict<string, int>>)

  /** Every per-server table is a proper dictionary. */
  predicate PresenceOk(p: Presence) {
    (forall k :: k in p.online ==> UniqueKeys(p.online[k])) &&
    (forall k :: k in p.lastOffline ==> UniqueKeys(p.lastOffline[k]))
  }

  /** The last-offline table of a server, {} when it has none yet. */
  function OfflineOf(p: Presence, key: PresenceKey): (m: Dict<string, int>)
    requires PresenceOk(p)
    ensures UniqueKeys(m)
  {
    if key in p.lastOffline then p.lastOffline[key] else []
  }

  // ---------------------------------------------------------------- stamping

  /** `m[name] = now` for every name in turn. */
  function StampAll(m: Dict<string, int>, names: seq<string>, now: int): (r: Dict<string, int>)
    requires UniqueKeys(m)
    ensures UniqueKeys(r)
  {
    if |names| == 0 then m
    else
      var r := StampAll(m, names[..|names| - 1], now);
      GetSet(r, names[|names| - 1], now, names[|names| - 1]);
      Set(r, names[|names| - 1], now)
  }

  /** Every stamped name reads `now`; every other name keeps its value. */
  lemma {:induction false} StampAllGet(m: Dict<string, int>, names: seq<string>, now: int, n: string)
    requires UniqueKeys(m)
    ensures Get(StampAll(m, names, now), n) == if n in names then Some(now) else Get(m, n)
  {
    if |names| > 0 {
      var init := names[..|names| - 1];
      StampAllGet(m, init, now, n);
      GetSet(StampAll(m, init, now), names[|names| - 1], now, n);
      InSnoc(names, n);
    }
  }

  // ---------------------------------------------------------------- clearing

  /** `_clear_player_presence`: both tables forget the server. */
  function ClearKey(p: Presence, key: PresenceKey): (r: Presence)
    requires PresenceOk(p)
    ensures PresenceOk(r)
    ensures key !in r.online && key !in r.lastOffline
    ensures forall k :: k != key ==> (k in r.online <==> k in p.online) && (k in r.lastOffline <==> k in p.lastOffline)
    ensures forall k :: k != key && k in r.online ==> r.online[k] == p.online[k]
    ensures forall k :: k != key && k in r.lastOffline ==> r.lastOffline[k] == p.lastOffline[k]
  {
    Presence(p.online - {key}, p.lastOffline - {key})
  }

  /** `_mark_all_players_offline`: the server's online table is dropped and,
      when it listed anyone, each of them is stamped offline at `now`. */
  function MarkOffline(p: Presence, key: PresenceKey, now: int): (r: Presence)
    requires PresenceOk(p)
    ensures PresenceOk(r)
  {
    if key !in p.online then p
    else
      var previous := p.online[key];
      if previous == [] then Presence(p.online - {key}, p.lastOffline)
      else Presence(p.online - {key}, p.lastOffline[key := StampAll(OfflineOf(p, key), Keys(previous), now)])
  }

  /** After an offline result the server has no online table; every player
      it listed went offline at `now`; other entries of the offline table
      and every other server are unchanged. */
  lemma MarkOfflineMeaning(p: Presence, key: PresenceKey, now: int, n: string)
    requires PresenceOk(p)
    ensures var r := MarkOffline(p, key, now);
            key !in r.online &&
            (key in p.online && HasKey(p.online[key], n) ==>
               key in r.lastOffline && Get(r.lastOffline[key], n) == Some(now)) &&
            (key in r.lastOffline && !(key in p.online && HasKey(p.online[key], n)) ==>
               Get(r.lastOffline[key], n) == Get(OfflineOf(p, key), n))
    ensures var r := MarkOffline(p, key, now);
            (forall k :: k != key ==> (k in r.online <==> k in p.online)) &&
            (forall k :: k != key && k in r.online ==> r.online[k] == p.online[k]) &&
            (forall k :: k != key ==> (k in r.lastOffline <==> k in p.lastOffline)) &&
            (forall k :: k != key && k in r.lastOffline ==> r.lastOffline[k] == p.lastOffline[k])
  {
    if key in p.online && p.online[key] != [] {
      var previous := p.online[key];
      StampAllGet(OfflineOf(p, key), Keys(previous), now, n);
      KeysHasKey(previous, n);
    }
  }

  // ---------------------------------------------------------------- samples

  /** The stripped, non-empty names of a status sample, without duplicates. */
  function SampleNames(sample: seq<string>): (names: set<string>)
    ensures "" !in names && |names| <= |sample|
    decreases |sample|
  {
    if |sample| == 0 then {}
    else
      var name := Strip(sample[|sample| - 1]);
      SampleNames(sample[..|sample| - 1]) + if name == "" then {} else {name}
  }

  /** A name is in the sample set exactly when some listed name strips to
      it and it is not empty. */
  lemma {:induction false} SampleNamesMeaning(sample: seq<string>, n: string)
    ensures n in SampleNames(sample) <==> n != "" && exists s :: s in sample && Strip(s) == n
  {
    if |sample| > 0 {
      var init := sample[..|sample| - 1];
      SampleNamesMeaning(init, n);
      if exists s :: s in sample && Strip(s) == n {
        var s :| s in sample && Strip(s) == n;
        InSnoc(sample, s);
      }
      if exists s :: s in init && Strip(s) == n {
        var s :| s in init && Strip(s) == n;
        InSnoc(sample, s);
      }
      InSnoc(sample, sample[|sample| - 1]);
    }
  }

  function JoinMessage(name: string, ip: string, offlineAt: Option<int>, now: int): string {
    "[+] " + name + " " + ip + " | offline for: " + Elapsed(offlineAt, now)
  }

  function LeaveMessage(name: string, ip: string, onlineSince: int, now: int): string {
    "[-] " + name + " " + ip + " | online for: " + FormatDuration(Some(now - onlineSince))
  }

  /** What a diff pass carries: the new online table, the messages so far
      and the server's offline table. */
  datatype Pass = Pass(next: Dict<string, int>, messages: seq<string>, offline: Dict<string, int>)

  predicate PassOk(acc: Pass) {
    UniqueKeys(acc.next) && UniqueKeys(acc.offline)
  }

  /** One sampled name: a known player keeps the time it came online, a new
      one comes online now and is announced. */
  function JoinStep(acc: Pass, name: string, previous: Dict<string, int>, ip: string, now: int): (r: Pass)
    requires PassOk(acc)
    ensures PassOk(r)
  {
    GetSet(acc.next, name, now, name);
    var g := Get(previous, name);
    if g.Some? then
      GetSet(acc.next, name, g.value, name);
      Pass(Set(acc.next, name, g.value), acc.messages, acc.offline)
    else
      Pass(Set(acc.next, name, now), acc.messages + [JoinMessage(name, ip, Get(acc.offline, name), now)], acc.offline)
  }

  /** The first loop of `_build_player_diff_messages`, over `names`. */
  function JoinPass(names: seq<string>, previous: Dict<string, int>, ip: string, now: int, acc: Pass): (r: Pass)
    requires PassOk(acc)
    ensures PassOk(r)
  {
    if |names| == 0 then acc
    else JoinStep(JoinPass(names[..|names| - 1], previous, ip, now, acc), names[|names| - 1], previous, ip, now)
  }

  /** One previously online player: skipped when still sampled; kept as it
      is when the sample is partial; otherwise announced as gone and
      stamped offline now. */
  function LeaveStep(acc: Pass, item: (string, int), sample: set<string>, full: bool, ip: string, now: int): (r: Pass)
    requires PassOk(acc)
    ensures PassOk(r)
  {
    if item.0 in sample then acc
    else if !full then
      GetSet(acc.next, item.0, item.1, item.0);
      Pass(Set(acc.next, item.0, item.1), acc.messages, acc.offline)
    else
      GetSet(acc.offline, item.0, now, item.0);
      Pass(acc.next, acc.messages + [LeaveMessage(item.0, ip, item.1, now)], Set(acc.offline, item.0, now))
  }

  /** The second loop, over the previous online table. */
  function LeavePass(items: Dict<string, int>, sample: set<string>, full: bool, ip: string, now: int, acc: Pass): (r: Pass)
    requires PassOk(acc)
    ensures PassOk(r)
  {
    if |items| == 0 then acc
    else LeaveStep(LeavePass(items[..|items| - 1], sample, full, ip, now, acc), items[|items| - 1], sample, full, ip, now)
  }

  /** `_build_player_diff_messages`: the new tables and the messages. */
  function Diff(p: Presence, groupId: int, result: CheckResult, now: int): (Presence, seq<string>)
    requires PresenceOk(p)
  {
    var key := (groupId, result.ip);
    if !result.online then (MarkOffline(p, key, now), [])
    else
      var sample := SampleNames(result.playerSample);
      if key !in p.online then
        (Presence(p.online[key := StampAll([], SortStrings(sample), now)],
                  p.lastOffline[key := OfflineOf(p, key)]), [])
      else
        var left := Observe(p.online[key], OfflineOf(p, key), sample, |sample| == result.playersOnline, result.ip, now);
        (Presence(p.online[key := left.next], p.lastOffline[key := left.offline]), left.messages)
  }

  /** A later observation of a server: the join pass over the sorted sample,
      then the leave pass over the previous online table. */
  function Observe(previous: Dict<string, int>, offline: Dict<string, int>, sample: set<string>,
                   full: bool, ip: string, now: int): (r: Pass)
    requires UniqueKeys(offline)
    ensures PassOk(r)
  {
    LeavePass(previous, sample, full, ip, now, JoinPass(SortStrings(sample), previous, ip, now, Pass([], [], offline)))
  }

  /** A later observation of an online server, read off `Diff`. */
  lemma DiffObserves(p: Presence, groupId: int, result: CheckResult, now: int)
    requires PresenceOk(p) && result.online && (groupId, result.ip) in p.online
    ensures var key := (groupId, result.ip);
            var sample := SampleNames(result.playerSample);
            var left := Observe(p.online[key], OfflineOf(p, key), sample, |sample| == result.playersOnline, result.ip, now);
            Diff(p, groupId, result, now)
            == (Presence(p.online[key := left.next], p.lastOffline[key := left.offline]), left.messages)
  {
  }

  lemma DiffOk(p: Presence, groupId: int, result: CheckResult, now: int)
    requires PresenceOk(p)
    ensures PresenceOk(Diff(p, groupId, result, now).0)
  {
    var key := (groupId, result.ip);
    var r := Diff(p, groupId, result, now).0;
    if result.online {
      assert key in r.online && UniqueKeys(r.online[key]);
      assert key in r.lastOffline && UniqueKeys(r.lastOffline[key]);
      forall k | k in r.online ensures UniqueKeys(r.online[k]) {
        if k != key {
          assert r.online[k] == p.online[k];
        }
      }
      forall k | k in r.lastOffline ensures UniqueKeys(r.lastOffline[k]) {
        if k != key {
          assert r.lastOffline[k] == p.lastOffline[k];
        }
      }
    }
  }

  // ---------------------------------------------------------------- the join pass

  /** The names of `names` not in `previous`, in the same order. */
  function NewNames(names: seq<string>, previous: Dict<string, int>): (r: seq<string>)
    ensures forall n :: n in r <==> n in names && !HasKey(previous, n)
  {
    if |names| == 0 then []
    else
      var init := names[..|names| - 1];
      var last := names[|names| - 1];
      assert names == init + [last];
      NewNames(init, previous) + (if HasKey(previous, last) then [] else [last])
  }

  /** Join messages for `names`, in order. */
  function JoinMessages(names: seq<string>, ip: string, offline: Dict<string, int>, now: int): (r: seq<string>)
    ensures |r| == |names|
  {
    if |names| == 0 then []
    else JoinMessages(names[..|names| - 1], ip, offline, now) + [JoinMessage(names[|names| - 1], ip, Get(offline, names[|names| - 1]), now)]
  }

  /** The `i`-th join message is about the `i`-th name. */
  lemma {:induction false} JoinMessagesAt(names: seq<string>, ip: string, offline: Dict<string, int>, now: int, i: nat)
    requires i < |names|
    ensures JoinMessages(names, ip, offline, now)[i] == JoinMessage(names[i], ip, Get(offline, names[i]), now)
  {
    if i < |names| - 1 {
      JoinMessagesAt(names[..|names| - 1], ip, offline, now, i);
    }
  }

  /** Filtering keeps a sorted sequence sorted. */
  lemma {:induction false} NewNamesSorted(names: seq<string>, previous: Dict<string, int>)
    requires SortedBy(names, StrLess)
    ensures SortedBy(NewNames(names, previous), StrLess)
  {
    if |names| > 0 {
      var init := names[..|names| - 1];
      var last := names[|names| - 1];
      assert SortedBy(init, StrLess);
      NewNamesSorted(init, previous);
      var a := NewNames(init, previous);
      forall i | 0 <= i < |a| ensures StrLess(a[i], last) {
        assert a[i] in init;
        var j :| 0 <= j < |init| && init[j] == a[i];
      }
    }
  }

  /** The join pass leaves the offline table alone and appends one join
      message per sampled name that was not online before. */
  lemma {:induction false} JoinPassMessages(names: seq<string>, previous: Dict<string, int>, ip: string, now: int, acc: Pass)
    requires PassOk(acc)
    ensures JoinPass(names, previous, ip, now, acc).offline == acc.offline
    ensures JoinPass(names, previous, ip, now, acc).messages
            == acc.messages + JoinMessages(NewNames(names, previous), ip, acc.offline, now)
  {
    if |names| > 0 {
      var init := names[..|names| - 1];
      var last := names[|names| - 1];
      JoinPassMessages(init, previous, ip, now, acc);
      var ns := NewNames(init, previous);
      if !HasKey(previous, last) {
        assert NewNames(names, previous) == ns + [last];
        JoinMessagesSnoc(ns, last, ip, acc.offline, now);
      } else {
        assert NewNames(names, previous) == ns;
      }
    }
  }

  lemma JoinMessagesSnoc(names: seq<string>, last: string, ip: string, offline: Dict<string, int>, now: int)
    ensures JoinMessages(names + [last], ip, offline, now)
            == JoinMessages(names, ip, offline, now) + [JoinMessage(last, ip, Get(offline, last), now)]
  {
    assert (names + [last])[..|names|] == names;
  }

  /** After the join pass each sampled name is online: since its old time
      when it was online before, since `now` otherwise. */
  lemma {:induction false} JoinPassGet(names: seq<string>, previous: Dict<string, int>, ip: string, now: int, acc: Pass, n: string)
    requires PassOk(acc)
    ensures Get(JoinPass(names, previous, ip, now, acc).next, n)
            == if n in names then (if HasKey(previous, n) then Get(previous, n) else Some(now)) else Get(acc.next, n)
  {
    if |names| > 0 {
      var init := names[..|names| - 1];
      var last := names[|names| - 1];
      JoinPassGet(init, previous, ip, now, acc, n);
      var r := JoinPass(init, previous, ip, now, acc);
      var g := Get(previous, last);
      GetSet(r.next, last, if g.Some? then g.value else now, n);
      InSnoc(names, n);
    }
  }

  // ---------------------------------------------------------------- the leave pass

  /** The previous entries whose player is not sampled, in order. */
  function Absent(items: Dict<string, int>, sample: set<string>): (r: Dict<string, int>)
    ensures forall x :: x in r <==> x in items && x.0 !in sample
  {
    if |items| == 0 then []
    else
      var init := items[..|items| - 1];
      var last := items[|items| - 1];
      assert items == init + [last];
      Absent(init, sample) + (if last.0 in sample then [] else [last])
  }

  /** Leave messages for `items`, in order. */
  function LeaveMessages(items: Dict<string, int>, ip: string, now: int): (r: seq<string>)
    ensures |r| == |items|
  {
    if |items| == 0 then []
    else LeaveMessages(items[..|items| - 1], ip, now) + [LeaveMessage(items[|items| - 1].0, ip, items[|items| - 1].1, now)]
  }

  /** The `i`-th leave message is about the `i`-th pair. */
  lemma {:induction false} LeaveMessagesAt(items: Dict<string, int>, ip: string, now: int, i: nat)
    requires i < |items|
    ensures LeaveMessages(items, ip, now)[i] == LeaveMessage(items[i].0, ip, items[i].1, now)
  {
    if i < |items| - 1 {
      LeaveMessagesAt(items[..|items| - 1], ip, now, i);
    }
  }

  /** A partial sample announces no departures; a full one announces every
      previous player missing from it, in table order. */
  lemma {:induction false} LeavePassMessages(items: Dict<string, int>, sample: set<string>, full: bool, ip: string, now: int, acc: Pass)
    requires PassOk(acc)
    ensures LeavePass(items, sample, full, ip, now, acc).messages
            == acc.messages + (if full then LeaveMessages(Absent(items, sample), ip, now) else [])
  {
    if |items| > 0 {
      var init := items[..|items| - 1];
      var last := items[|items| - 1];
      LeavePassMessages(init, sample, full, ip, now, acc);
      var a := Absent(init, sample);
      if full && last.0 !in sample {
        assert Absent(items, sample) == a + [last];
        LeaveMessagesSnoc(a, last, ip, now);
      } else if full {
        assert Absent(items, sample) == a;
      }
    }
  }

  lemma LeaveMessagesSnoc(items: Dict<string, int>, last: (string, int), ip: string, now: int)
    ensures LeaveMessages(items + [last], ip, now) == LeaveMessages(items, ip, now) + [LeaveMessage(last.0, ip, last.1, now)]
  {
    assert (items + [last])[..|items|] == items;
  }

  /** After the leave pass a missing player of a partial sample is still
      online since its old time; nothing else in the new table changes ... */
  lemma {:induction false} LeavePassNext(items: Dict<string, int>, sample: set<string>, full: bool, ip: string, now: int, acc: Pass, n: string)
    requires PassOk(acc) && UniqueKeys(items)
    ensures Get(LeavePass(items, sample, full, ip, now, acc).next, n)
            == if !full && n !in sample && HasKey(items, n) then Get(items, n) else Get(acc.next, n)
  {
    if |items| > 0 {
      var init := items[..|items| - 1];
      var last := items[|items| - 1];
      GetSnoc(items, n);
      HasKeySnoc(items, n);
      LeavePassNext(init, sample, full, ip, now, acc, n);
      GetSet(LeavePass(init, sample, full, ip, now, acc).next, last.0, last.1, n);
    }
  }

  /** ... and a missing player of a full sample is stamped offline at `now`. */
  lemma {:induction false} LeavePassOffline(items: Dict<string, int>, sample: set<string>, full: bool, ip: string, now: int, acc: Pass, n: string)
    requires PassOk(acc) && UniqueKeys(items)
    ensures Get(LeavePass(items, sample, full, ip, now, acc).offline, n)
            == if full && n !in sample && HasKey(items, n) then Some(now) else Get(acc.offline, n)
  {
    if |items| > 0 {
      var init := items[..|items| - 1];
      var last := items[|items| - 1];
      GetSnoc(items, n);
      HasKeySnoc(items, n);
      LeavePassOffline(init, sample, full, ip, now, acc, n);
      GetSet(LeavePass(init, sample, full, ip, now, acc).offline, last.0, now, n);
    }
  }

  // ---------------------------------------------------------------- a whole diff

  /** An offline result announces nothing, drops the server's online table
      and stamps each of its players offline at `now`. */
  lemma DiffOfflineResult(p: Presence, groupId: int, result: CheckResult, now: int, n: string)
    requires PresenceOk(p) && !result.online
    ensures var (r, messages) := Diff(p, groupId, result, now);
            var key := (groupId, result.ip);
            messages == [] && key !in r.online &&
            (key in p.online && HasKey(p.online[key], n) ==>
               key in r.lastOffline && Get(r.lastOffline[key], n) == Some(now))
  {
    MarkOfflineMeaning(p, (groupId, result.ip), now, n);
  }

  /** The first observation of a server records exactly the sampled names,
      each online since `now`, and announces nothing. */
  lemma DiffFirstObservation(p: Presence, groupId: int, result: CheckResult, now: int, n: string)
    requires PresenceOk(p) && result.online && (groupId, result.ip) !in p.online
    ensures var (r, messages) := Diff(p, groupId, result, now);
            var key := (groupId, result.ip);
            messages == [] && key in r.online && key in r.lastOffline &&
            Get(r.online[key], n) == (if n in SampleNames(result.playerSample) then Some(now) else None) &&
            r.lastOffline[key] == OfflineOf(p, key)
  {
    StampAllGet([], SortStrings(SampleNames(result.playerSample)), now, n);
  }

  /** On a later observation a sampled player that was online keeps its
      time; one that was not comes online at `now`. */
  lemma DiffSampledPlayer(p: Presence, groupId: int, result: CheckResult, now: int, n: string)
    requires PresenceOk(p) && result.online && (groupId, result.ip) in p.online
    requires n in SampleNames(result.playerSample)
    ensures var (r, _) := Diff(p, groupId, result, now);
            var key := (groupId, result.ip);
            var previous := p.online[key];
            key in r.online &&
            Get(r.online[key], n) == if HasKey(previous, n) then Get(previous, n) else Some(now)
  {
    var key := (groupId, result.ip);
    var sample := SampleNames(result.playerSample);
    var start := Pass([], [], OfflineOf(p, key));
    var joined := JoinPass(SortStrings(sample), p.online[key], result.ip, now, start);
    JoinPassGet(SortStrings(sample), p.online[key], result.ip, now, start, n);
    LeavePassNext(p.online[key], sample, |sample| == result.playersOnline, result.ip, now, joined, n);
  }

  /** A player online before but missing from the sample stays online with
      its time and no new offline stamp when the sample is partial (fewer
      names than the reported player count); when the sample is full it
      leaves the table and is stamped offline at `now`. */
  lemma DiffMissingPlayer(p: Presence, groupId: int, result: CheckResult, now: int, n: string)
    requires PresenceOk(p) && result.online && (groupId, result.ip) in p.online
    requires n !in SampleNames(result.playerSample) && HasKey(p.online[(groupId, result.ip)], n)
    ensures var (r, _) := Diff(p, groupId, result, now);
            var key := (groupId, result.ip);
            var full := |SampleNames(result.playerSample)| == result.playersOnline;
            key in r.online && key in r.lastOffline &&
            (!full ==> Get(r.online[key], n) == Get(p.online[key], n) &&
                       Get(r.lastOffline[key], n) == Get(OfflineOf(p, key), n)) &&
            (full ==> !HasKey(r.online[key], n) && Get(r.lastOffline[key], n) == Some(now))
  {
    var key := (groupId, result.ip);
    var sample := SampleNames(result.playerSample);
    var full := |sample| == result.playersOnline;
    var start := Pass([], [], OfflineOf(p, key));
    var joined := JoinPass(SortStrings(sample), p.online[key], result.ip, now, start);
    JoinPassGet(SortStrings(sample), p.online[key], result.ip, now, start, n);
    JoinPassMessages(SortStrings(sample), p.online[key], result.ip, now, start);
    LeavePassNext(p.online[key], sample, full, result.ip, now, joined, n);
    LeavePassOffline(p.online[key], sample, full, result.ip, now, joined, n);
  }

  /** The messages of a later observation: one join message per sampled
      player not online before, then, only for a full sample, one leave
      message per previous player missing from it, in table order. */
  lemma ObserveMessages(previous: Dict<string, int>, offline: Dict<string, int>, sample: set<string>,
                        full: bool, ip: string, now: int)
    requires UniqueKeys(offline)
    ensures Observe(previous, offline, sample, full, ip, now).messages
            == JoinMessages(NewNames(SortStrings(sample), previous), ip, offline, now) +
               (if full then LeaveMessages(Absent(previous, sample), ip, now) else [])
  {
    var start := Pass([], [], offline);
    var joined := JoinPass(SortStrings(sample), previous, ip, now, start);
    JoinPassMessages(SortStrings(sample), previous, ip, now, start);
    var jm := JoinMessages(NewNames(SortStrings(sample), previous), ip, offline, now);
    assert joined.messages == jm by {
      assert [] + jm == jm;
    }
    LeavePassMessages(previous, sample, full, ip, now, joined);
  }

  /** The joining players are announced in sorted name order, and they are
      exactly the sampled players not online before. */
  lemma JoinOrder(sample: set<string>, previous: Dict<string, int>)
    ensures SortedBy(NewNames(SortStrings(sample), previous), StrLess)
    ensures forall n :: n in NewNames(SortStrings(sample), previous) <==> n in sample && !HasKey(previous, n)
  {
    NewNamesSorted(SortStrings(sample), previous);
  }

  /** Other servers' tables are never touched. */
  lemma DiffOtherServers(p: Presence, groupId: int, result: CheckResult, now: int, k: PresenceKey)
    requires PresenceOk(p) && k != (groupId, result.ip)
    ensures var r := Diff(p, groupId, result, now).0;
            (k in r.online <==> k in p.online) && (k in r.lastOffline <==> k in p.lastOffline) &&
            (k in r.online ==> r.online[k] == p.online[k]) &&
            (k in r.lastOffline ==> r.lastOffline[k] == p.lastOffline[k])
  {
  }

  // ---------------------------------------------------------------- a session

  /** A status sample of `players` with `count` players reported online. */
  function Sample(ip: string, players: seq<string>, count: int): CheckResult {
    CheckResult(ip, true, None, None, count, 0, players, None, None)
  }

  /** A name as a status sample lists it: already stripped and not empty. */
  predicate PlainName(n: string) {
    n != "" && Strip(n) == n
  }

  lemma SampleOfOne(a: string)
    requires PlainName(a)
    ensures SampleNames([a]) == {a}
  {
    assert [a][..0] == [];
  }

  lemma SampleOfTwo(a: string, b: string)
    requires PlainName(a) && PlainName(b)
    ensures SampleNames([a, b]) == {a, b}
  {
    assert [a, b][..1] == [a];
    SampleOfOne(a);
  }

  // The lemmas from here to `LeavePassTwo` unroll single steps (a sort of one
  // or two names, one or two passes of the join and leave loops) for the
  // worked examples below; they model nothing of their own.

  lemma SortOne(a: string)
    ensures SortStrings({a}) == [a]
  {
    StrLessTotal();
    SortedUnique(SortStrings({a}), [a], StrLess);
  }

  lemma SortTwo(a: string, b: string)
    requires StrLess(a, b)
    ensures SortStrings({a, b}) == [a, b]
  {
    StrLessTotal();
    assert SortedBy([a, b], StrLess);
    SortedUnique(SortStrings({a, b}), [a, b], StrLess);
  }

  lemma JoinPassOne(x: string, previous: Dict<string, int>, ip: string, now: int, acc: Pass)
    requires PassOk(acc)
    ensures JoinPass([x], previous, ip, now, acc) == JoinStep(acc, x, previous, ip, now)
  {
    assert [x][..0] == [];
  }

  lemma JoinPassTwo(x: string, y: string, previous: Dict<string, int>, ip: string, now: int, acc: Pass)
    requires PassOk(acc)
    ensures JoinPass([x, y], previous, ip, now, acc)
            == JoinStep(JoinStep(acc, x, previous, ip, now), y, previous, ip, now)
  {
    assert [x, y][..1] == [x];
    JoinPassOne(x, previous, ip, now, acc);
  }

  lemma LeavePassOne(x: (string, int), sample: set<string>, full: bool, ip: string, now: int, acc: Pass)
    requires PassOk(acc)
    ensures LeavePass([x], sample, full, ip, now, acc) == LeaveStep(acc, x, sample, full, ip, now)
  {
    assert [x][..0] == [];
  }

  lemma LeavePassTwo(x: (string, int), y: (string, int), sample: set<string>, full: bool, ip: string, now: int, acc: Pass)
    requires PassOk(acc)
    ensures LeavePass([x, y], sample, full, ip, now, acc)
            == LeaveStep(LeaveStep(acc, x, sample, full, ip, now), y, sample, full, ip, now)
  {
    assert [x, y][..1] == [x];
    LeavePassOne(x, sample, full, ip, now, acc);
  }

  lemma Overwrite<K, V>(k: K, v: V, w: V)
    ensures map[k := v][k := w] == map[k := w]
  {
  }

  /** First sample at `t1`: both players recorded, nothing announced. */
  lemma SessionFirst(groupId: int, ip: string, a: string, b: string, t1: int, t2: int, t3: int, t4: int)
    requires PlainName(a) && PlainName(b) && StrLess(a, b)
    ensures Diff(Presence(map[], map[]), groupId, Sample(ip, [a, b], 2), t1)
            == (Presence(map[(groupId, ip) := [(a, t1), (b, t1)]], map[(groupId, ip) := []]), [])
  {
    var r := Sample(ip, [a, b], 2);
    var key := (groupId, ip);
    var p := Presence(map[], map[]);
    SampleOfTwo(a, b);
    SortTwo(a, b);
    StrLessIrreflexive(a);
    assert [a, b][..1] == [a];
    assert StampAll([], [a], t1) == [(a, t1)];
    var first := StampAll([], SortStrings(SampleNames(r.playerSample)), t1);
    assert first == [(a, t1), (b, t1)];
    assert OfflineOf(p, key) == [];
    assert Diff(p, groupId, r, t1) == (Presence(p.online[key := first], p.lastOffline[key := OfflineOf(p, key)]), []);
    assert p.online[key := first] == map[key := first];
  }

  lemma ObservePartial(ip: string, a: string, b: string, t1: int, t2: int, t3: int, t4: int)
    requires a != b
    ensures Observe([(a, t1), (b, t1)], [], {a}, false, ip, t2) == Pass([(a, t1), (b, t1)], [], [])
  {
    SortOne(a);
    var prev := [(a, t1), (b, t1)];
    var start := Pass([], [], []);
    assert Get(prev, a) == Some(t1);
    JoinPassOne(a, prev, ip, t2, start);
    var joined := Pass([(a, t1)], [], []);
    assert JoinStep(start, a, prev, ip, t2) == joined;
    LeavePassTwo((a, t1), (b, t1), {a}, false, ip, t2, joined);
    assert LeaveStep(joined, (a, t1), {a}, false, ip, t2) == joined;
    assert Set([(a, t1)], b, t1) == prev;
  }

  /** Second sample lists only the first player while two are reported: a
      partial sample, so nothing is announced and nothing changes. */
  lemma SessionPartial(groupId: int, ip: string, a: string, b: string, t1: int, t2: int, t3: int, t4: int)
    requires PlainName(a) && PlainName(b) && a != b
    ensures var p := Presence(map[(groupId, ip) := [(a, t1), (b, t1)]], map[(groupId, ip) := []]);
            Diff(p, groupId, Sample(ip, [a], 2), t2) == (p, [])
  {
    var key := (groupId, ip);
    var p := Presence(map[key := [(a, t1), (b, t1)]], map[key := []]);
    var prev := [(a, t1), (b, t1)];
    SampleOfOne(a);
    SingleServer(groupId, ip, prev, []);
    ObservePartial(ip, a, b, t1, t2, t3, t4);
    DiffObserves(p, groupId, Sample(ip, [a], 2), t2);
    Overwrite(key, prev, prev);
    Overwrite<PresenceKey, Dict<string, int>>(key, [], []);
  }

  lemma ObserveLeave(ip: string, a: string, b: string, t1: int, t2: int, t3: int, t4: int)
    requires a != b
    ensures Observe([(a, t1), (b, t1)], [], {a}, true, ip, t3)
            == Pass([(a, t1)], [LeaveMessage(b, ip, t1, t3)], [(b, t3)])
  {
    SortOne(a);
    var prev := [(a, t1), (b, t1)];
    var start := Pass([], [], []);
    assert Get(prev, a) == Some(t1);
    JoinPassOne(a, prev, ip, t3, start);
    var joined := Pass([(a, t1)], [], []);
    assert JoinStep(start, a, prev, ip, t3) == joined;
    LeavePassTwo((a, t1), (b, t1), {a}, true, ip, t3, joined);
    assert LeaveStep(joined, (a, t1), {a}, true, ip, t3) == joined;
    assert Set([], b, t3) == [(b, t3)];
  }

  /** Third sample: one player reported and only the first listed, so the
      second has left; it is announced and stamped offline at t3. */
  lemma SessionLeave(groupId: int, ip: string, a: string, b: string, t1: int, t2: int, t3: int, t4: int)
    requires PlainName(a) && PlainName(b) && a != b
    ensures var p := Presence(map[(groupId, ip) := [(a, t1), (b, t1)]], map[(groupId, ip) := []]);
            Diff(p, groupId, Sample(ip, [a], 1), t3)
            == (Presence(map[(groupId, ip) := [(a, t1)]], map[(groupId, ip) := [(b, t3)]]),
                [LeaveMessage(b, ip, t1, t3)])
  {
    var key := (groupId, ip);
    var p := Presence(map[key := [(a, t1), (b, t1)]], map[key := []]);
    SampleOfOne(a);
    SingleServer(groupId, ip, [(a, t1), (b, t1)], []);
    ObserveLeave(ip, a, b, t1, t2, t3, t4);
    DiffObserves(p, groupId, Sample(ip, [a], 1), t3);
    Overwrite(key, [(a, t1), (b, t1)], [(a, t1)]);
    Overwrite<PresenceKey, Dict<string, int>>(key, [], [(b, t3)]);
  }

  lemma ObserveRejoin(ip: string, a: string, b: string, t1: int, t2: int, t3: int, t4: int)
    requires StrLess(a, b)
    ensures Observe([(a, t1)], [(b, t3)], {a, b}, true, ip, t4)
            == Pass([(a, t1), (b, t4)], [JoinMessage(b, ip, Some(t3), t4)], [(b, t3)])
  {
    SortTwo(a, b);
    StrLessIrreflexive(a);
    var prev := [(a, t1)];
    assert Get(prev, a) == Some(t1) && Get(prev, b) == None;
    assert Get([(b, t3)], b) == Some(t3);
    var start := Pass([], [], [(b, t3)]);
    JoinPassTwo(a, b, prev, ip, t4, start);
    var j1 := Pass([(a, t1)], [], [(b, t3)]);
    assert JoinStep(start, a, prev, ip, t4) == j1;
    var joined := Pass([(a, t1), (b, t4)], [JoinMessage(b, ip, Some(t3), t4)], [(b, t3)]);
    assert Set([(a, t1)], b, t4) == joined.next;
    assert JoinStep(j1, b, prev, ip, t4) == joined;
    LeavePassOne((a, t1), {a, b}, true, ip, t4, joined);
    assert LeaveStep(joined, (a, t1), {a, b}, true, ip, t4) == joined;
  }

  lemma SingleServer(groupId: int, ip: string, online: Dict<string, int>, offline: Dict<string, int>)
    requires UniqueKeys(online) && UniqueKeys(offline)
    ensures var p := Presence(map[(groupId, ip) := online], map[(groupId, ip) := offline]);
            PresenceOk(p) && OfflineOf(p, (groupId, ip)) == offline && p.online[(groupId, ip)] == online
  {
  }

  lemma PairSize<T>(a: T, b: T)
    requires a != b
    ensures |{a, b}| == 2
  {
  }

  /** Fourth sample lists both again: the second player rejoins and is
      announced with the time it was away. */
  lemma SessionRejoin(groupId: int, ip: string, a: string, b: string, t1: int, t2: int, t3: int, t4: int)
    requires PlainName(a) && PlainName(b) && StrLess(a, b)
    ensures var p := Presence(map[(groupId, ip) := [(a, t1)]], map[(groupId, ip) := [(b, t3)]]);
            Diff(p, groupId, Sample(ip, [a, b], 2), t4)
            == (Presence(map[(groupId, ip) := [(a, t1), (b, t4)]], map[(groupId, ip) := [(b, t3)]]),
                [JoinMessage(b, ip, Some(t3), t4)])
  {
    var key := (groupId, ip);
    var p := Presence(map[key := [(a, t1)]], map[key := [(b, t3)]]);
    var r := Sample(ip, [a, b], 2);
    StrLessIrreflexive(a);
    SingleServer(groupId, ip, [(a, t1)], [(b, t3)]);
    SampleOfTwo(a, b);
    PairSize(a, b);
    ObserveRejoin(ip, a, b, t1, t2, t3, t4);
    DiffObserves(p, groupId, r, t4);
    Overwrite(key, [(a, t1)], [(a, t1), (b, t4)]);
    Overwrite(key, [(b, t3)], [(b, t3)]);
  }

  lemma LeftAfterTenMinutes(name: string, ip: string, since: int, now: int)
    requires now - since == 600
    ensures LeaveMessage(name, ip, since, now) == "[-] " + name + " " + ip + " | online for: 10m"
  {
    FormatDurationExamples();
  }

  lemma BackAfterFiveMinutes(name: string, ip: string, offlineAt: int, now: int)
    requires now - offlineAt == 300
    ensures JoinMessage(name, ip, Some(offlineAt), now) == "[+] " + name + " " + ip + " | offline for: 5m"
  {
    FormatDurationExamples();
  }

  /** The session of four samples five minutes apart, starting at `t`: the
      messages are, in turn, none, none, `[-] b ip | online for: 10m` and
      `[+] b ip | offline for: 5m`. */
  lemma Session(groupId: int, ip: string, a: string, b: string, t: int)
    requires PlainName(a) && PlainName(b) && StrLess(a, b)
    ensures var (p1, m1) := Diff(Presence(map[], map[]), groupId, Sample(ip, [a, b], 2), t);
            var (p2, m2) := Diff(p1, groupId, Sample(ip, [a], 2), t + 300);
            var (p3, m3) := Diff(p2, groupId, Sample(ip, [a], 1), t + 600);
            var (p4, m4) := Diff(p3, groupId, Sample(ip, [a, b], 2), t + 900);
            m1 == [] && m2 == [] &&
            m3 == ["[-] " + b + " " + ip + " | online for: 10m"] &&
            m4 == ["[+] " + b + " " + ip + " | offline for: 5m"]
  {
    StrLessIrreflexive(a);
    SessionFirst(groupId, ip, a, b, t, t + 300, t + 600, t + 900);
    SessionPartial(groupId, ip, a, b, t, t + 300, t + 600, t + 900);
    SessionLeave(groupId, ip, a, b, t, t + 300, t + 600, t + 900);
    SessionRejoin(groupId, ip, a, b, t, t + 300, t + 600, t + 900);
    LeftAfterTenMinutes(b, ip, t, t + 600);
    BackAfterFiveMinutes(b, ip, t + 600, t + 900);
  }

  // ---------------------------------------------------------------- the loops

  /** Sets every name of `names` to `now` in `m`, in order. */
  method StampNames(m: Dict<string, int>, names: seq<string>, now: int) returns (r: Dict<string, int>)
    requires UniqueKeys(m)
    ensures r == StampAll(m, names, now)
  {
    r := m;
    for i := 0 to |names|
      invariant UniqueKeys(r) && r == StampAll(m, names[..i], now)
    {
      assert names[..i + 1][..i] == names[..i];
      r := Set(r, names[i], now);
    }
    assert names[..|names|] == names;
  }

  /** The loop over the sorted sample. */
  method JoinPlayers(names: seq<string>, previous: Dict<string, int>, ip: string, now: int,
                     offlineMap: Dict<string, int>) returns (next: Dict<string, int>, messages: seq<string>)
    requires UniqueKeys(offlineMap)
    ensures Pass(next, messages, offlineMap) == JoinPass(names, previous, ip, now, Pass([], [], offlineMap))
  {
    next, messages := [], [];
    for i := 0 to |names|
      invariant Pass(next, messages, offlineMap) == JoinPass(names[..i], previous, ip, now, Pass([], [], offlineMap))
    {
      assert names[..i + 1][..i] == names[..i];
      var name := names[i];
      var since := Get(previous, name);
      if since.Some? {
        next := Set(next, name, since.value);
      } else {
        next := Set(next, name, now);
        messages := messages + [JoinMessage(name, ip, Get(offlineMap, name), now)];
      }
    }
    assert names[..|names|] == names;
  }

  /** The loop over the previous online table. */
  method LeavePlayers(previous: Dict<string, int>, sample: set<string>, full: bool, ip: string, now: int,
                      acc: Pass) returns (next: Dict<string, int>, messages: seq<string>, offlineMap: Dict<string, int>)
    requires PassOk(acc)
    ensures Pass(next, messages, offlineMap) == LeavePass(previous, sample, full, ip, now, acc)
  {
    next, messages, offlineMap := acc.next, acc.messages, acc.offline;
    for i := 0 to |previous|
      invariant Pass(next, messages, offlineMap) == LeavePass(previous[..i], sample, full, ip, now, acc)
    {
      assert previous[..i + 1][..i] == previous[..i];
      var (name, onlineSince) := previous[i];
      if name in sample {
        continue;
      }
      if !full {
        next := Set(next, name, onlineSince);
        continue;
      }
      messages := messages + [LeaveMessage(name, ip, onlineSince, now)];
      offlineMap := Set(offlineMap, name, now);
    }
    assert previous[..|previous|] == previous;
  }

  // ---------------------------------------------------------------- the tables

  /** `_PLAYER_ONLINE_PLAYERS` and `_PLAYER_LAST_OFFLINE_AT`, updated in
      place. */
  class PlayerPresence {
    var online: map<PresenceKey, Dict<string, int>>
    var lastOffline: map<PresenceKey, Dict<string, int>>

    function State(): Presence
      reads this
    {
      Presence(online, lastOffline)
    }

    ghost predicate Valid()
      reads this
    {
      PresenceOk(State())
    }

    constructor ()
      ensures Valid() && online == map[] && lastOffline == map[]
    {
      online := map[];
      lastOffline := map[];
    }

    /** `_clear_player_presence`. */
    method Clear(groupId: int, ip: string)
      requires Valid()
      modifies this
      ensures Valid() && State() == ClearKey(old(State()), (groupId, ip))
    {
      var key := (groupId, ip);
      online := online - {key};
      lastOffline := lastOffline - {key};
    }

    /** `_mark_all_players_offline`. */
    method MarkAllOffline(groupId: int, ip: string, now: int)
      requires Valid()
      modifies this
      ensures Valid() && State() == MarkOffline(old(State()), (groupId, ip), now)
    {
      var key := (groupId, ip);
      if key !in online {
        return;
      }
      var previous := online[key];
      online := online - {key};
      if previous == [] {
        return;
      }
      var offlineMap := StampNames(if key in lastOffline then lastOffline[key] else [], Keys(previous), now);
      lastOffline := lastOffline[key := offlineMap];
    }

    /** `_build_player_diff_messages`. */
    method BuildPlayerDiff(groupId: int, result: CheckResult, now: int) returns (messages: seq<string>)
      requires Valid()
      modifies this
      ensures Valid() && (State(), messages) == Diff(old(State()), groupId, result, now)
    {
      DiffOk(State(), groupId, result, now);
      if !result.online {
        MarkAllOffline(groupId, result.ip, now);
        return [];
      }
      var key := (groupId, result.ip);
      var sample := SampleNames(result.playerSample);
      var names := SortStrings(sample);
      if key !in online {
        var first := StampNames([], names, now);
        online := online[key := first];
        lastOffline := lastOffline[key := if key in lastOffline then lastOffline[key] else []];
        return [];
      }
      var previous := online[key];
      var offlineMap := if key in lastOffline then lastOffline[key] else [];
      var next;
      next, messages := JoinPlayers(names, previous, result.ip, now, offlineMap);
      var full := |sample| == result.playersOnline;
      next, messages, offlineMap := LeavePlayers(previous, sample, full, result.ip, now, Pass(next, messages, offlineMap));
      online := online[key := next];
      lastOffline := lastOffline[key := offlineMap];
    }
  }
}
