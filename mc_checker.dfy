/** The per-server bookkeeping of the Minecraft server checker: how one
    check result updates the server's stored entry (and, when the server
    went down, the player tables), and which servers a check run polls. */
module McChecker {
  import opened Wrappers
  import opened Text
  import opened Dicts
  import opened McFormat
  import opened McStorage
  import opened McPresence

  // ---------------------------------------------------------------- status

  /** `server_state.get("last_status", "unknown") == "online"`. */
  predicate WasOnline(server: Obj) {
    Get(server, "last_status") == Some(JStr("online"))
  }

  /** `server_state.get(k) is None`: missing or null. */
  predicate Unset(server: Obj, k: string) {
    Get(server, k).None? || Get(server, k) == Some(JNull)
  }

  /** A stored timestamp as the change message reads it. */
  function TimeField(server: Obj, k: string): Option<int> {
    var v := Get(server, k);
    if v.Some? && v.value.JNum? then Some(v.value.n) else None
  }

  /** The change message can read the timestamp: it is missing or null
      (the message says "unknown") or a number (`float()` reads it). */
  predicate Readable(server: Obj, k: string) {
    Unset(server, k) || Get(server, k).value.JNum?
  }

  /** The timestamp the change message is about to read can be read. */
  predicate MessageReadable(server: Obj, result: CheckResult) {
    (result.online && !WasOnline(server) ==> Readable(server, "last_seen_online_at")) &&
    (!result.online && WasOnline(server) ==> Readable(server, "online_since"))
  }

  /** `result.error` as stored: null when there is none. */
  function ErrorJson(e: Option<string>): Json {
    match e
    case None => JNull
    case Some(s) => JStr(s)
  }

  /** The assignments one check result makes to the server's entry, in
      order: the ones that depend on the previous status, then the ones
      every result makes. */
  function StatusWrites(server: Obj, result: CheckResult, now: int): seq<(string, Json)> {
    StatusPrefix(server, result, now) + StatusSuffix(result, now)
  }

  /** A server that is up gets `online_since` when it just came up or never
      had one; a server that is down gets its last-seen time only when it
      just went down. */
  function StatusPrefix(server: Obj, result: CheckResult, now: int): seq<(string, Json)> {
    if result.online && (!WasOnline(server) || Unset(server, "online_since")) then [("online_since", JNum(now))]
    else if !result.online && WasOnline(server) then [("last_seen_online_at", JNum(now))]
    else []
  }

  /** Then the status and error, the last-seen time of a server that is up,
      and the check time. */
  function StatusSuffix(result: CheckResult, now: int): seq<(string, Json)> {
    if result.online then
      [("last_status", JStr("online")), ("last_seen_online_at", JNum(now)),
       ("last_error", JNull), ("last_check_at", JNum(now))]
    else
      [("last_status", JStr("offline")), ("last_error", ErrorJson(result.error)),
       ("last_check_at", JNum(now))]
  }

  /** The change message: only a change of status gives one. A server that
      came up reports the time since it was last seen online, one that went
      down the time since it came up. */
  function StatusMessage(server: Obj, result: CheckResult, now: int): Option<string> {
    if result.online && !WasOnline(server) then
      Some(FormatChangeMessage(result, TimeField(server, "last_seen_online_at"), Some(now), now))
    else if !result.online && WasOnline(server) then
      Some(FormatChangeMessage(result, Some(now), TimeField(server, "online_since"), now))
    else
      None
  }

  /** The entry after the update. */
  function UpdatedServer(server: Obj, result: CheckResult, now: int): Obj
    requires UniqueKeys(server)
  {
    WriteAll(server, StatusWrites(server, result, now))
  }

  /** `_apply_status_update`: `server` is the server's entry, handed back
      updated (the caller stores it back, as the source's alias does); the
      player tables lose the server's online players when it went down. */
  method ApplyStatusUpdate(groupId: int, server: Obj, result: CheckResult, now: int, presence: PlayerPresence)
    returns (server2: Obj, message: Option<string>)
    requires UniqueKeys(server) && MessageReadable(server, result) && presence.Valid()
    modifies presence
    ensures server2 == UpdatedServer(server, result, now)
    ensures message == StatusMessage(server, result, now)
    ensures presence.Valid()
    ensures presence.State() ==
              if !result.online && WasOnline(server) then MarkOffline(old(presence.State()), (groupId, result.ip), now)
              else old(presence.State())
  {
    var prevOnline := Get(server, "last_status") == Some(JStr("online"));
    server2 := server;
    message := None;
    if result.online {
      if !prevOnline {
        GetSet(server2, "online_since", JNum(now), "online_since");
        GetSet(server2, "online_since", JNum(now), "last_seen_online_at");
        SetUnique(server2, "online_since", JNum(now));
        server2 := Set(server2, "online_since", JNum(now));
        message := Some(FormatChangeMessage(result, TimeField(server2, "last_seen_online_at"),
                                            TimeField(server2, "online_since"), now));
        assert TimeField(server2, "online_since") == Some(now);
        assert message == StatusMessage(server, result, now);
      }
      if Get(server2, "online_since").None? || Get(server2, "online_since") == Some(JNull) {
        SetUnique(server2, "online_since", JNum(now));
        server2 := Set(server2, "online_since", JNum(now));
      }
      PrefixWritten(server, result, now, server2);
      ghost var mid := server2;
      SetUnique(server2, "last_status", JStr("online"));
      server2 := Set(server2, "last_status", JStr("online"));
      ghost var s1 := server2;
      SetUnique(server2, "last_seen_online_at", JNum(now));
      server2 := Set(server2, "last_seen_online_at", JNum(now));
      ghost var s2 := server2;
      SetUnique(server2, "last_error", JNull);
      server2 := Set(server2, "last_error", JNull);
      ghost var s3 := server2;
      SetUnique(server2, "last_check_at", JNum(now));
      server2 := Set(server2, "last_check_at", JNum(now));
      OnlineWritten(server, result, now, mid, s1, s2, s3, server2);
    } else {
      if prevOnline {
        GetSet(server2, "last_seen_online_at", JNum(now), "last_seen_online_at");
        GetSet(server2, "last_seen_online_at", JNum(now), "online_since");
        SetUnique(server2, "last_seen_online_at", JNum(now));
        server2 := Set(server2, "last_seen_online_at", JNum(now));
        message := Some(FormatChangeMessage(result, TimeField(server2, "last_seen_online_at"),
                                            TimeField(server2, "online_since"), now));
        assert TimeField(server2, "last_seen_online_at") == Some(now);
        assert message == StatusMessage(server, result, now);
        presence.MarkAllOffline(groupId, result.ip, now);
      }
      PrefixWritten(server, result, now, server2);
      ghost var mid := server2;
      SetUnique(server2, "last_status", JStr("offline"));
      server2 := Set(server2, "last_status", JStr("offline"));
      ghost var s1 := server2;
      SetUnique(server2, "last_error", ErrorJson(result.error));
      server2 := Set(server2, "last_error", ErrorJson(result.error));
      ghost var s2 := server2;
      SetUnique(server2, "last_check_at", JNum(now));
      server2 := Set(server2, "last_check_at", JNum(now));
      OfflineWritten(server, result, now, mid, s1, s2, server2);
    }
  }

  /** The state-dependent writes, done one at a time. */
  lemma PrefixWritten(server: Obj, result: CheckResult, now: int, server2: Obj)
    requires UniqueKeys(server)
    requires StatusPrefix(server, result, now) == [] ==> server2 == server
    requires StatusPrefix(server, result, now) != [] ==>
               server2 == Set(server, StatusPrefix(server, result, now)[0].0, StatusPrefix(server, result, now)[0].1)
    ensures server2 == WriteAll(server, StatusPrefix(server, result, now))
  {
    var p := StatusPrefix(server, result, now);
    if p != [] {
      WriteOne(server, p[0]);
      assert p == [p[0]];
    }
  }

  /** The four status fields a reachable server gets after the prefix,
      one assignment at a time. */
  lemma OnlineWritten(server: Obj, result: CheckResult, now: int, mid: Obj, s1: Obj, s2: Obj, s3: Obj, s4: Obj)
    requires UniqueKeys(server) && result.online && mid == WriteAll(server, StatusPrefix(server, result, now))
    requires s1 == Set(mid, "last_status", JStr("online")) && UniqueKeys(s1)
    requires s2 == Set(s1, "last_seen_online_at", JNum(now)) && UniqueKeys(s2)
    requires s3 == Set(s2, "last_error", JNull) && UniqueKeys(s3)
    requires s4 == Set(s3, "last_check_at", JNum(now))
    ensures s4 == UpdatedServer(server, result, now)
  {
    WriteAllAppend(server, StatusPrefix(server, result, now), StatusSuffix(result, now));
    WriteFour(mid, ("last_status", JStr("online")), ("last_seen_online_at", JNum(now)),
              ("last_error", JNull), ("last_check_at", JNum(now)));
    WriteThree(s1, ("last_seen_online_at", JNum(now)), ("last_error", JNull), ("last_check_at", JNum(now)));
  }

  /** The three status fields an unreachable server gets after the prefix. */
  lemma OfflineWritten(server: Obj, result: CheckResult, now: int, mid: Obj, s1: Obj, s2: Obj, s3: Obj)
    requires UniqueKeys(server) && !result.online && mid == WriteAll(server, StatusPrefix(server, result, now))
    requires s1 == Set(mid, "last_status", JStr("offline")) && UniqueKeys(s1)
    requires s2 == Set(s1, "last_error", ErrorJson(result.error)) && UniqueKeys(s2)
    requires s3 == Set(s2, "last_check_at", JNum(now))
    ensures s3 == UpdatedServer(server, result, now)
  {
    WriteAllAppend(server, StatusPrefix(server, result, now), StatusSuffix(result, now));
    WriteThree(mid, ("last_status", JStr("offline")), ("last_error", ErrorJson(result.error)),
               ("last_check_at", JNum(now)));
  }

  /** What a field of the entry holds after the update: the check time, the
      new status and error always; the last-seen time when the server is up
      or just went down; `online_since` when the server is up and just came
      up or had none. Every other field keeps its value. */
  function FieldAfter(server: Obj, result: CheckResult, now: int, k: string): Option<Json> {
    if k == "last_check_at" then Some(JNum(now))
    else if k == "last_status" then Some(JStr(if result.online then "online" else "offline"))
    else if k == "last_error" then Some(if result.online then JNull else ErrorJson(result.error))
    else if k == "last_seen_online_at" && (result.online || WasOnline(server)) then Some(JNum(now))
    else if k == "online_since" && result.online && (!WasOnline(server) || Unset(server, k)) then Some(JNum(now))
    else Get(server, k)
  }

  /** The updated entry, field by field. */
  lemma UpdatedServerFields(server: Obj, result: CheckResult, now: int, k: string)
    requires UniqueKeys(server)
    ensures UniqueKeys(UpdatedServer(server, result, now))
    ensures Get(UpdatedServer(server, result, now), k) == FieldAfter(server, result, now, k)
  {
    var pre := StatusPrefix(server, result, now);
    var suf := StatusSuffix(result, now);
    WriteAllGet(server, pre + suf, k);
    WrittenAppend(pre, suf, k);
    if pre != [] {
      assert pre == [pre[0]];
      WrittenOne(pre[0], k);
    }
    if result.online {
      WrittenFour(("last_status", JStr("online")), ("last_seen_online_at", JNum(now)),
                  ("last_error", JNull), ("last_check_at", JNum(now)), k);
      WrittenThree(("last_seen_online_at", JNum(now)), ("last_error", JNull), ("last_check_at", JNum(now)), k);
    } else {
      WrittenThree(("last_status", JStr("offline")), ("last_error", ErrorJson(result.error)),
                   ("last_check_at", JNum(now)), k);
    }
  }

  /** A change message comes exactly with a change of status; it names the
      server, starts with `[+]` or `[-]` for the direction, and reads only
      the timestamp that direction needs. */
  lemma StatusMessageMeaning(server: Obj, result: CheckResult, now: int)
    ensures StatusMessage(server, result, now).Some? <==> result.online != WasOnline(server)
    ensures StatusMessage(server, result, now).Some? ==>
              var m := StatusMessage(server, result, now).value;
              Contains(m, result.ip) && m[..4] == (if result.online then "[+] " else "[-] ")
    ensures result.online && !WasOnline(server) ==>
              StatusMessage(server, result, now) ==
              Some(FormatChangeMessage(result, TimeField(server, "last_seen_online_at"), None, now))
    ensures !result.online && WasOnline(server) ==>
              StatusMessage(server, result, now) ==
              Some(FormatChangeMessage(result, None, TimeField(server, "online_since"), now))
  {
    if result.online && !WasOnline(server) {
      ChangeMessageMeaning(result, TimeField(server, "last_seen_online_at"), Some(now), None, None, now);
    } else if !result.online && WasOnline(server) {
      ChangeMessageMeaning(result, Some(now), TimeField(server, "online_since"), None, None, now);
    }
  }

  /** After an update the stored status is the result's, so a second result
      with the same status gives no message. */
  lemma StatusSettles(server: Obj, result: CheckResult, now: int, result2: CheckResult, now2: int)
    requires UniqueKeys(server) && result2.online == result.online
    ensures WasOnline(UpdatedServer(server, result, now)) == result.online
    ensures IsOnlineEntry(JObj(UpdatedServer(server, result, now))) == result.online
    ensures StatusMessage(UpdatedServer(server, result, now), result2, now2) == None
  {
    UpdatedServerFields(server, result, now, "last_status");
  }

  // ---------------------------------------------------------------- polling

  /** A server entry whose last status is online. */
  predicate IsOnlineEntry(v: Json) {
    v.JObj? && Get(v.fields, "last_status") == Some(JStr("online"))
  }

  /** The addresses of a group that a run polls, in the group's order: all
      of them, or only those last seen online. */
  function PolledIps(servers: Obj, onlyOnline: bool): seq<string>
    decreases |servers|
  {
    if |servers| == 0 then []
    else
      var last := servers[|servers| - 1];
      PolledIps(servers[..|servers| - 1], onlyOnline) +
      (if !onlyOnline || IsOnlineEntry(last.1) then [last.0] else [])
  }

  /** What one group adds to the run: its id and its polled addresses, or
      nothing when the group or its servers is not an object, its key is not
      an integer, or no address is polled. */
  function GroupContribution(key: string, group: Json, onlyOnline: bool): (r: Option<(int, seq<string>)>)
    ensures r.Some? ==> ParseInt(key) == Some(r.value.0) && r.value.1 != []
  {
    if !group.JObj? then None
    else
      var servers := Get(group.fields, "servers");
      if servers.Some? && !servers.value.JObj? then None
      else
        var id := ParseInt(key);
        if id.None? then None
        else
          var ips := PolledIps(if servers.Some? then servers.value.fields else [], onlyOnline);
          if ips == [] then None else Some((id.value, ips))
  }

  /** The contributions of the groups, in the groups' order. */
  function Contributions(groups: Obj, onlyOnline: bool): seq<(int, seq<string>)>
    decreases |groups|
  {
    if |groups| == 0 then []
    else
      var last := groups[|groups| - 1];
      var c := GroupContribution(last.0, last.1, onlyOnline);
      Contributions(groups[..|groups| - 1], onlyOnline) + (if c.Some? then [c.value] else [])
  }

  /** `_collect_group_servers`' result: each contribution assigned in turn,
      so a later group whose key reads as the same id replaces an earlier
      one in place. */
  function CollectServers(groups: Obj, onlyOnline: bool): Dict<int, seq<string>> {
    WriteAll([], Contributions(groups, onlyOnline))
  }

  /** `groups` is read with `.items()`: it is missing or an object. */
  predicate GroupsReadable(state: Obj) {
    var g := Get(state, "groups");
    g.None? || g.value.JObj?
  }

  /** The inner loop of `_collect_group_servers`: the addresses of one
      group's servers to poll. */
  method PollGroup(entries: Obj, onlyOnline: bool) returns (ips: seq<string>)
    ensures ips == PolledIps(entries, onlyOnline)
  {
    ips := [];
    var j := 0;
    while j < |entries|
      invariant 0 <= j <= |entries|
      invariant ips == PolledIps(entries[..j], onlyOnline)
    {
      assert entries[..j + 1][..j] == entries[..j];
      var (ip, entry) := entries[j];
      if !onlyOnline {
        ips := ips + [ip];
      } else if entry.JObj? && Get(entry.fields, "last_status") == Some(JStr("online")) {
        ips := ips + [ip];
      }
      j := j + 1;
    }
    assert entries[..j] == entries;
  }

  /** `_collect_group_servers`. */
  method CollectGroupServers(state: Obj, onlyOnline: bool) returns (groupServers: Dict<int, seq<string>>)
    requires GroupsReadable(state)
    ensures groupServers == CollectServers(GroupsOf(state), onlyOnline)
  {
    var groups := GroupsOf(state);
    groupServers := [];
    var i := 0;
    while i < |groups|
      invariant 0 <= i <= |groups|
      invariant UniqueKeys(groupServers)
      invariant groupServers == WriteAll([], Contributions(groups[..i], onlyOnline))
    {
      var (key, group) := groups[i];
      ContributionsStep(groups, i, onlyOnline);
      if group.JObj? {
        var servers := Get(group.fields, "servers");
        if servers.None? || servers.value.JObj? {
          var id := ParseInt(key);
          if id.Some? {
            var entries := if servers.Some? then servers.value.fields else [];
            var ips := PollGroup(entries, onlyOnline);
            assert GroupContribution(key, group, onlyOnline) == if ips == [] then None else Some((id.value, ips));
            if ips != [] {
              WriteAllSnoc([], Contributions(groups[..i], onlyOnline), id.value, ips);
              groupServers := Set(groupServers, id.value, ips);
            }
          }
        }
      }
      i := i + 1;
    }
    assert groups[..i] == groups;
  }

  /** One more group adds its contribution, if any, at the end. */
  lemma ContributionsStep(groups: Obj, i: nat, onlyOnline: bool)
    requires i < |groups|
    ensures var c := GroupContribution(groups[i].0, groups[i].1, onlyOnline);
            Contributions(groups[..i + 1], onlyOnline) ==
            if c.Some? then Contributions(groups[..i], onlyOnline) + [c.value] else Contributions(groups[..i], onlyOnline)
  {
    assert groups[..i + 1][..i] == groups[..i];
    var c := GroupContribution(groups[i].0, groups[i].1, onlyOnline);
    if c.None? {
      assert Contributions(groups[..i], onlyOnline) + [] == Contributions(groups[..i], onlyOnline);
    }
  }

  /** An address is polled exactly when the group holds a server under it
      that qualifies: any server, or one last seen online. */
  lemma {:induction false} PolledIpsMeaning(servers: Obj, onlyOnline: bool, ip: string)
    ensures ip in PolledIps(servers, onlyOnline) <==>
            exists i :: 0 <= i < |servers| && servers[i].0 == ip && (!onlyOnline || IsOnlineEntry(servers[i].1))
    decreases |servers|
  {
    if |servers| > 0 {
      var init := servers[..|servers| - 1];
      PolledIpsMeaning(init, onlyOnline, ip);
      if exists i :: 0 <= i < |servers| && servers[i].0 == ip && (!onlyOnline || IsOnlineEntry(servers[i].1)) {
        var i :| 0 <= i < |servers| && servers[i].0 == ip && (!onlyOnline || IsOnlineEntry(servers[i].1));
        if i < |servers| - 1 {
          assert init[i] == servers[i];
        }
      }
      if exists i :: 0 <= i < |init| && init[i].0 == ip && (!onlyOnline || IsOnlineEntry(init[i].1)) {
        var i :| 0 <= i < |init| && init[i].0 == ip && (!onlyOnline || IsOnlineEntry(init[i].1));
        assert servers[i] == init[i];
      }
    }
  }

  /** Without the online filter every address is polled, in the group's
      order. */
  lemma {:induction false} PolledAll(servers: Obj)
    ensures PolledIps(servers, false) == Keys(servers)
    decreases |servers|
  {
    if |servers| > 0 {
      var init := servers[..|servers| - 1];
      PolledAll(init);
      var r := PolledIps(servers, false);
      assert r == Keys(init) + [servers[|servers| - 1].0];
      forall i | 0 <= i < |servers| ensures r[i] == Keys(servers)[i] {
        if i < |servers| - 1 {
          assert r[i] == Keys(init)[i] == init[i].0;
        }
      }
    }
  }

  /** The contributions are those of the groups. */
  lemma {:induction false} ContributionsMeaning(groups: Obj, onlyOnline: bool, c: (int, seq<string>))
    ensures c in Contributions(groups, onlyOnline) <==>
            exists i :: 0 <= i < |groups| && GroupContribution(groups[i].0, groups[i].1, onlyOnline) == Some(c)
    decreases |groups|
  {
    if |groups| > 0 {
      ContributionsMeaning(groups[..|groups| - 1], onlyOnline, c);
      ContributionsLast(groups, onlyOnline, c);
      ContributorsLast(groups, groups[..|groups| - 1], onlyOnline, c);
    }
  }

  lemma ContributionsLast(groups: Obj, onlyOnline: bool, c: (int, seq<string>))
    requires |groups| > 0
    ensures c in Contributions(groups, onlyOnline) <==>
            c in Contributions(groups[..|groups| - 1], onlyOnline) ||
            GroupContribution(groups[|groups| - 1].0, groups[|groups| - 1].1, onlyOnline) == Some(c)
  {
  }

  lemma ContributorsLast(groups: Obj, init: Obj, onlyOnline: bool, c: (int, seq<string>))
    requires |groups| > 0 && init == groups[..|groups| - 1]
    ensures (exists i :: 0 <= i < |groups| && GroupContribution(groups[i].0, groups[i].1, onlyOnline) == Some(c)) <==>
            (exists i :: 0 <= i < |init| && GroupContribution(init[i].0, init[i].1, onlyOnline) == Some(c)) ||
            GroupContribution(groups[|groups| - 1].0, groups[|groups| - 1].1, onlyOnline) == Some(c)
  {
    if exists i :: 0 <= i < |groups| && GroupContribution(groups[i].0, groups[i].1, onlyOnline) == Some(c) {
      var i :| 0 <= i < |groups| && GroupContribution(groups[i].0, groups[i].1, onlyOnline) == Some(c);
      if i < |groups| - 1 {
        assert init[i] == groups[i];
      }
    }
    if exists i :: 0 <= i < |init| && GroupContribution(init[i].0, init[i].1, onlyOnline) == Some(c) {
      var i :| 0 <= i < |init| && GroupContribution(init[i].0, init[i].1, onlyOnline) == Some(c);
      assert groups[i] == init[i];
    }
  }

  /** A group id is collected exactly when some group contributes under it,
      and what is collected is the non-empty address list of such a group. */
  lemma CollectServersMeaning(groups: Obj, onlyOnline: bool, id: int)
    ensures UniqueKeys(CollectServers(groups, onlyOnline))
    ensures Get(CollectServers(groups, onlyOnline), id).Some? <==>
            exists i :: 0 <= i < |groups| && GroupContribution(groups[i].0, groups[i].1, onlyOnline).Some? &&
                        GroupContribution(groups[i].0, groups[i].1, onlyOnline).value.0 == id
    ensures Get(CollectServers(groups, onlyOnline), id).Some? ==>
            var ips := Get(CollectServers(groups, onlyOnline), id).value;
            ips != [] &&
            exists i :: 0 <= i < |groups| && GroupContribution(groups[i].0, groups[i].1, onlyOnline) == Some((id, ips))
  {
    var cs := Contributions(groups, onlyOnline);
    WriteAllGet([], cs, id);
    var w := Written(cs, id);
    if w.Some? {
      var j :| 0 <= j < |cs| && cs[j] == (id, w.value);
      ContributionsMeaning(groups, onlyOnline, cs[j]);
    }
    if exists i :: 0 <= i < |groups| && GroupContribution(groups[i].0, groups[i].1, onlyOnline).Some? &&
                   GroupContribution(groups[i].0, groups[i].1, onlyOnline).value.0 == id {
      var i :| 0 <= i < |groups| && GroupContribution(groups[i].0, groups[i].1, onlyOnline).Some? &&
               GroupContribution(groups[i].0, groups[i].1, onlyOnline).value.0 == id;
      var c := GroupContribution(groups[i].0, groups[i].1, onlyOnline).value;
      ContributionsMeaning(groups, onlyOnline, c);
      assert c in cs;
    }
  }

  /** Later groups win: the list collected under an id is that of the last
      group contributing under it. */
  lemma CollectLastWins(groups: Obj, onlyOnline: bool, i: nat)
    requires i < |groups| && GroupContribution(groups[i].0, groups[i].1, onlyOnline).Some?
    requires forall j :: i < j < |groups| ==>
               GroupContribution(groups[j].0, groups[j].1, onlyOnline).None? ||
               GroupContribution(groups[j].0, groups[j].1, onlyOnline).value.0 !=
               GroupContribution(groups[i].0, groups[i].1, onlyOnline).value.0
    ensures var c := GroupContribution(groups[i].0, groups[i].1, onlyOnline).value;
            Get(CollectServers(groups, onlyOnline), c.0) == Some(c.1)
  {
    var c := GroupContribution(groups[i].0, groups[i].1, onlyOnline).value;
    var pre := Contributions(groups[..i], onlyOnline);
    var suf := groups[i + 1..];
    ContributionsStep(groups, i, onlyOnline);
    ContributionsAppend(groups[..i + 1], suf, onlyOnline);
    assert groups[..i + 1] + suf == groups;
    LaterNotWritten(groups, suf, i, onlyOnline, c.0);
    WrittenAppend(pre + [c], Contributions(suf, onlyOnline), c.0);
    WrittenAppend(pre, [c], c.0);
    WrittenOne(c, c.0);
    WriteAllGet([], Contributions(groups, onlyOnline), c.0);
  }

  /** No group after the `i`th contributes under `id`. */
  lemma LaterNotWritten(groups: Obj, suf: Obj, i: nat, onlyOnline: bool, id: int)
    requires i < |groups| && suf == groups[i + 1..]
    requires forall j :: i < j < |groups| ==>
               GroupContribution(groups[j].0, groups[j].1, onlyOnline).None? ||
               GroupContribution(groups[j].0, groups[j].1, onlyOnline).value.0 != id
    ensures Written(Contributions(suf, onlyOnline), id) == None
  {
    var cs := Contributions(suf, onlyOnline);
    var w := Written(cs, id);
    if w.Some? {
      var k :| 0 <= k < |cs| && cs[k] == (id, w.value);
      ContributionsMeaning(suf, onlyOnline, cs[k]);
      assert false;
    }
  }

  /** The contributions of two runs of groups, one after the other. */
  lemma {:induction false} ContributionsAppend(a: Obj, b: Obj, onlyOnline: bool)
    ensures Contributions(a + b, onlyOnline) == Contributions(a, onlyOnline) + Contributions(b, onlyOnline)
    decreases |b|
  {
    if |b| == 0 {
      assert a + b == a;
    } else {
      var n := |b| - 1;
      ContributionsAppend(a, b[..n], onlyOnline);
      assert (a + b)[..|a + b| - 1] == a + b[..n];
      assert (a + b)[|a + b| - 1] == b[n];
      var c := GroupContribution(b[n].0, b[n].1, onlyOnline);
      var extra := if c.Some? then [c.value] else [];
      Assoc(Contributions(a, onlyOnline), Contributions(b[..n], onlyOnline), extra);
    }
  }

  /** A group stored under its id's decimal key, as the storage layer names
      groups, is collected under that id with its polled addresses. */
  lemma StoredGroupContributes(id: int, group: Obj, onlyOnline: bool)
    requires Get(group, "servers").None? || Get(group, "servers").value.JObj?
    ensures var ips := PolledIps(ObjAt(group, "servers"), onlyOnline);
            GroupContribution(GroupKey(id), JObj(group), onlyOnline) == if ips == [] then None else Some((id, ips))
  {
    IntToStringRoundTrip(id);
  }
}
