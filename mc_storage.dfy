/** The servers.json state of the Minecraft server checker and the
    operations on it: the nested `groups -> <group id> -> servers -> <ip>`
    dictionaries, created on demand with `setdefault`. */
module McStorage {
  import opened Wrappers
  import opened Text
  import opened Dicts

  /** A decoded JSON value; numbers are whole (timestamps are seconds). */
  datatype Json =
    | JNull
    | JBool(b: bool)
    | JNum(n: int)
    | JStr(s: string)
    | JList(items: seq<Json>)
    | JObj(fields: Dict<string, Json>)

  type Obj = Dict<string, Json>

  /** Every object in the value has distinct keys, as a Python dict does. */
  predicate WellFormed(j: Json)
    decreases j
  {
    match j
    case JObj(fs) => UniqueKeys(fs) && forall i :: 0 <= i < |fs| ==> WellFormed(fs[i].1)
    case JList(xs) => forall i :: 0 <= i < |xs| ==> WellFormed(xs[i])
    case _ => true
  }

  lemma WellFormedGet(fs: Obj, k: string)
    requires WellFormed(JObj(fs)) && Get(fs, k).Some?
    ensures WellFormed(Get(fs, k).value)
  {
    var i :| 0 <= i < |fs| && fs[i] == (k, Get(fs, k).value);
  }

  lemma WellFormedSet(fs: Obj, k: string, v: Json)
    requires WellFormed(JObj(fs)) && WellFormed(v)
    ensures WellFormed(JObj(Set(fs, k, v)))
  {
    SetUnique(fs, k, v);
    var r := Set(fs, k, v);
    forall i | 0 <= i < |r| ensures WellFormed(r[i].1) {
      if i < |fs| {
        assert r[i] == (if fs[i].0 == k then (k, v) else fs[i]);
      }
    }
  }

  /** The object stored under `k`, or {} when there is none or it is not an
      object. */
  function ObjAt(fs: Obj, k: string): (r: Obj)
    ensures WellFormed(JObj(fs)) ==> WellFormed(JObj(r))
    ensures r != [] ==> Get(fs, k) == Some(JObj(r))
  {
    var v := Get(fs, k);
    if v.Some? && v.value.JObj? then
      assert WellFormed(JObj(fs)) ==> WellFormed(v.value) by {
        if WellFormed(JObj(fs)) {
          WellFormedGet(fs, k);
        }
      }
      v.value.fields
    else []
  }

  predicate IsObjAt(fs: Obj, k: string) {
    Get(fs, k).Some? && Get(fs, k).value.JObj?
  }

  lemma WellFormedObjAt(fs: Obj, k: string)
    requires WellFormed(JObj(fs))
    ensures WellFormed(JObj(ObjAt(fs, k)))
  {
    if IsObjAt(fs, k) {
      WellFormedGet(fs, k);
    }
  }

  /** Reading back an object written with `Set`. */
  lemma ObjAtSet(fs: Obj, k: string, o: Obj)
    requires UniqueKeys(fs)
    ensures IsObjAt(Set(fs, k, JObj(o)), k) && ObjAt(Set(fs, k, JObj(o)), k) == o
  {
    GetSet(fs, k, JObj(o), k);
  }

  // ---------------------------------------------------------------- loading

  /** The state `load_state` settles on: `groups` holds an object. */
  predicate StateOk(st: Obj) {
    WellFormed(JObj(st)) && IsObjAt(st, "groups")
  }

  /** `load_state`: `blob` is the decoded file, None when the file is missing
      or cannot be read or decoded. Anything but an object becomes
      `{"groups": {}}`; an object whose `groups` is not an object gets
      `groups` reset to {}; everything else is kept. */
  function LoadState(blob: Option<Json>): (st: Obj)
    requires blob.Some? ==> WellFormed(blob.value)
    ensures StateOk(st)
    ensures blob.Some? && blob.value.JObj? && IsObjAt(blob.value.fields, "groups") ==> st == blob.value.fields
    ensures blob.Some? && blob.value.JObj? ==>
              forall k :: k != "groups" ==> Get(st, k) == Get(blob.value.fields, k)
    ensures !(blob.Some? && blob.value.JObj?) ==> st == [("groups", JObj([]))]
  {
    match blob
    case Some(JObj(data)) =>
      if IsObjAt(data, "groups") then data
      else
        WellFormedSet(data, "groups", JObj([]));
        forall k ensures Get(Set(data, "groups", JObj([])), k) == if k == "groups" then Some(JObj([])) else Get(data, k) {
          GetSet(data, "groups", JObj([]), k);
        }
        Set(data, "groups", JObj([]))
    case _ =>
      assert Get([("groups", JObj([]))], "groups") == Some(JObj([])) by {
        GetAt([("groups", JObj([]))], 0);
      }
      [("groups", JObj([]))]
  }

  // ---------------------------------------------------------------- nested access

  function GroupKey(groupId: int): string {
    IntToString(groupId)
  }

  function GroupsOf(st: Obj): Obj {
    ObjAt(st, "groups")
  }

  /** The source calls `setdefault` on whatever the group entry holds, so the
      entry must be missing or an object. */
  predicate GroupUsable(st: Obj, groupId: int) {
    var g := Get(GroupsOf(st), GroupKey(groupId));
    g.None? || g.value.JObj?
  }

  /** A group object with `servers` made an object: kept when it is one,
      set to {} otherwise. */
  function WithServers(group: Obj): Obj
    requires UniqueKeys(group)
  {
    if IsObjAt(group, "servers") then group else Set(group, "servers", JObj([]))
  }

  /** `get_group_servers`'s effect on the state: `groups[key]` and its
      `servers` exist as objects afterwards. */
  function EnsureGroup(st: Obj, groupId: int): Obj
    requires StateOk(st)
  {
    var groups := GroupsOf(st);
    var key := GroupKey(groupId);
    WellFormedObjAt(st, "groups");
    WellFormedObjAt(groups, key);
    var group := WithServers(ObjAt(groups, key));
    Set(st, "groups", JObj(Set(groups, key, JObj(group))))
  }

  /** The servers object of a group, {} when it has none. */
  function ServersOf(st: Obj, groupId: int): Obj {
    ObjAt(ObjAt(GroupsOf(st), GroupKey(groupId)), "servers")
  }

  /** After `get_group_servers` the group and its servers are objects, the
      servers already there are kept, and every other group and every other
      top-level key is untouched; a state that already had them is not
      changed at all. */
  lemma EnsureGroupMeaning(st: Obj, groupId: int)
    requires StateOk(st) && GroupUsable(st, groupId)
    ensures StateOk(EnsureGroup(st, groupId))
    ensures IsObjAt(GroupsOf(EnsureGroup(st, groupId)), GroupKey(groupId))
    ensures IsObjAt(ObjAt(GroupsOf(EnsureGroup(st, groupId)), GroupKey(groupId)), "servers")
    ensures IsObjAt(ObjAt(GroupsOf(st), GroupKey(groupId)), "servers") ==>
              ServersOf(EnsureGroup(st, groupId), groupId) == ServersOf(st, groupId)
    ensures !IsObjAt(ObjAt(GroupsOf(st), GroupKey(groupId)), "servers") ==>
              ServersOf(EnsureGroup(st, groupId), groupId) == []
    ensures forall k :: k != GroupKey(groupId) ==> Get(GroupsOf(EnsureGroup(st, groupId)), k) == Get(GroupsOf(st), k)
    ensures forall k :: k != "groups" ==> Get(EnsureGroup(st, groupId), k) == Get(st, k)
  {
    var groups := GroupsOf(st);
    var key := GroupKey(groupId);
    WellFormedObjAt(st, "groups");
    WellFormedObjAt(groups, key);
    var group := ObjAt(groups, key);
    var fixed := WithServers(group);
    GetSet(group, "servers", JObj([]), "servers");
    WellFormedSet(group, "servers", JObj([]));
    WellFormedSet(groups, key, JObj(fixed));
    var groups2 := Set(groups, key, JObj(fixed));
    WellFormedSet(st, "groups", JObj(groups2));
    var st2 := Set(st, "groups", JObj(groups2));
    GetSet(st, "groups", JObj(groups2), "groups");
    GetSet(groups, key, JObj(fixed), key);
    forall k | k != key ensures Get(groups2, k) == Get(groups, k) {
      GetSet(groups, key, JObj(fixed), k);
    }
    forall k | k != "groups" ensures Get(st2, k) == Get(st, k) {
      GetSet(st, "groups", JObj(groups2), k);
    }
  }

  /** `get_server_state`'s effect on the state: the group is made ready and
      `servers[ip]` made an object (kept when it is one, {} otherwise). */
  function EnsureServer(st: Obj, groupId: int, ip: string): Obj
    requires StateOk(st) && GroupUsable(st, groupId)
  {
    EnsureServerReady(st, groupId, ip);
    var st1 := EnsureGroup(st, groupId);
    SetServer(st1, groupId, ip, JObj(ObjAt(ServersOf(st1, groupId), ip)))
  }

  lemma EnsureServerReady(st: Obj, groupId: int, ip: string)
    requires StateOk(st) && GroupUsable(st, groupId)
    ensures var st1 := EnsureGroup(st, groupId);
            StateOk(st1) && IsObjAt(GroupsOf(st1), GroupKey(groupId)) &&
            IsObjAt(ObjAt(GroupsOf(st1), GroupKey(groupId)), "servers") &&
            WellFormed(JObj(ObjAt(ServersOf(st1, groupId), ip)))
  {
    EnsureGroupMeaning(st, groupId);
    var st1 := EnsureGroup(st, groupId);
    WellFormedObjAt(st1, "groups");
    WellFormedObjAt(GroupsOf(st1), GroupKey(groupId));
    WellFormedObjAt(ObjAt(GroupsOf(st1), GroupKey(groupId)), "servers");
    WellFormedObjAt(ServersOf(st1, groupId), ip);
  }

  /** `servers[ip] = value` on a state whose group and servers exist. */
  function SetServer(st: Obj, groupId: int, ip: string, value: Json): Obj
    requires StateOk(st) && IsObjAt(GroupsOf(st), GroupKey(groupId))
    requires IsObjAt(ObjAt(GroupsOf(st), GroupKey(groupId)), "servers")
    requires WellFormed(value)
  {
    var groups := GroupsOf(st);
    var key := GroupKey(groupId);
    WellFormedObjAt(st, "groups");
    WellFormedObjAt(groups, key);
    var group := ObjAt(groups, key);
    WellFormedObjAt(group, "servers");
    var servers := ObjAt(group, "servers");
    WellFormedSet(servers, ip, value);
    WellFormedSet(group, "servers", JObj(Set(servers, ip, value)));
    var group2 := Set(group, "servers", JObj(Set(servers, ip, value)));
    Set(st, "groups", JObj(Set(groups, key, JObj(group2))))
  }

  /** `SetServer` writes `servers[ip]`: afterwards the state is still
      settled and the group's servers are the old ones with `ip` set. */
  lemma SetServerMeaning(st: Obj, groupId: int, ip: string, value: Json)
    requires StateOk(st) && IsObjAt(GroupsOf(st), GroupKey(groupId))
    requires IsObjAt(ObjAt(GroupsOf(st), GroupKey(groupId)), "servers")
    requires WellFormed(value)
    ensures var st2 := SetServer(st, groupId, ip, value);
            StateOk(st2) && IsObjAt(GroupsOf(st2), GroupKey(groupId)) &&
            IsObjAt(ObjAt(GroupsOf(st2), GroupKey(groupId)), "servers") &&
            ServersOf(st2, groupId) == Set(ServersOf(st, groupId), ip, value) &&
            Get(ServersOf(st2, groupId), ip) == Some(value)
  {
    var groups := GroupsOf(st);
    var key := GroupKey(groupId);
    var group := ObjAt(groups, key);
    var servers := ObjAt(group, "servers");
    WellFormedServers(st, groupId);
    WellFormedSet(servers, ip, value);
    GetSet(servers, ip, value, ip);
    var servers2 := Set(servers, ip, value);
    WellFormedObjAt(st, "groups");
    WellFormedObjAt(groups, key);
    NestedSet(group, "servers", servers2);
    var group2 := Set(group, "servers", JObj(servers2));
    NestedSet(groups, key, group2);
    NestedSet(st, "groups", Set(groups, key, JObj(group2)));
  }

  /** Writing an object under `k` keeps well-formedness and reads back. */
  lemma NestedSet(fs: Obj, k: string, inner: Obj)
    requires WellFormed(JObj(fs)) && WellFormed(JObj(inner))
    ensures WellFormed(JObj(Set(fs, k, JObj(inner))))
    ensures IsObjAt(Set(fs, k, JObj(inner)), k) && ObjAt(Set(fs, k, JObj(inner)), k) == inner
  {
    WellFormedSet(fs, k, JObj(inner));
    ObjAtSet(fs, k, inner);
  }

  /** ... and nothing else: the other keys of the group, the other groups
      and the other top-level keys keep their values. */
  lemma SetServerFrame(st: Obj, groupId: int, ip: string, value: Json, k: string)
    requires StateOk(st) && IsObjAt(GroupsOf(st), GroupKey(groupId))
    requires IsObjAt(ObjAt(GroupsOf(st), GroupKey(groupId)), "servers")
    requires WellFormed(value)
    ensures var st2 := SetServer(st, groupId, ip, value);
            (k != "servers" ==>
               Get(ObjAt(GroupsOf(st2), GroupKey(groupId)), k) == Get(ObjAt(GroupsOf(st), GroupKey(groupId)), k)) &&
            (k != GroupKey(groupId) ==> Get(GroupsOf(st2), k) == Get(GroupsOf(st), k)) &&
            (k != "groups" ==> Get(st2, k) == Get(st, k))
  {
    var groups := GroupsOf(st);
    var key := GroupKey(groupId);
    var group := ObjAt(groups, key);
    var servers2 := Set(ObjAt(group, "servers"), ip, value);
    var group2 := Set(group, "servers", JObj(servers2));
    var groups2 := Set(groups, key, JObj(group2));
    ObjAtSet(st, "groups", groups2);
    ObjAtSet(groups, key, group2);
    GetSet(group, "servers", JObj(servers2), k);
    GetSet(groups, key, JObj(group2), k);
    GetSet(st, "groups", JObj(groups2), k);
  }

  /** A group whose `servers` is already an object is left as it is. */
  lemma EnsureGroupNoop(st: Obj, groupId: int)
    requires StateOk(st) && IsObjAt(GroupsOf(st), GroupKey(groupId))
    requires IsObjAt(ObjAt(GroupsOf(st), GroupKey(groupId)), "servers")
    ensures EnsureGroup(st, groupId) == st
  {
    var groups := GroupsOf(st);
    var key := GroupKey(groupId);
    WellFormedObjAt(st, "groups");
    WellFormedObjAt(groups, key);
    var group := ObjAt(groups, key);
    assert WithServers(group) == group;
    SetSame(groups, key, JObj(group));
    SetSame(st, "groups", JObj(groups));
  }

  /** `add_server`: the new state and whether the server was added. */
  function AddServer(st: Obj, groupId: int, ip: string): (Obj, bool)
    requires StateOk(st) && GroupUsable(st, groupId)
  {
    EnsureGroupMeaning(st, groupId);
    var st1 := EnsureGroup(st, groupId);
    if HasKey(ServersOf(st1, groupId), ip) then (st1, false)
    else (SetServer(st1, groupId, ip, JObj([])), true)
  }

  /** An address already present is refused and nothing changes; a new one
      is added as {} with every other server kept. */
  lemma AddServerMeaning(st: Obj, groupId: int, ip: string)
    requires StateOk(st) && GroupUsable(st, groupId)
    ensures var (st2, added) := AddServer(st, groupId, ip);
            StateOk(st2) &&
            (added <==> !HasKey(ServersOf(st, groupId), ip)) &&
            (!added ==> st2 == st) &&
            (added ==> Get(ServersOf(st2, groupId), ip) == Some(JObj([]))) &&
            (added ==> forall k :: k != ip ==> Get(ServersOf(st2, groupId), k) == Get(ServersOf(st, groupId), k))
  {
    EnsureGroupMeaning(st, groupId);
    var st1 := EnsureGroup(st, groupId);
    var servers := ServersOf(st1, groupId);
    WellFormedObjAt(st1, "groups");
    WellFormedObjAt(GroupsOf(st1), GroupKey(groupId));
    WellFormedObjAt(ObjAt(GroupsOf(st1), GroupKey(groupId)), "servers");
    if HasKey(servers, ip) {
      assert IsObjAt(ObjAt(GroupsOf(st), GroupKey(groupId)), "servers");
      EnsureGroupNoop(st, groupId);
    } else {
      assert !HasKey(ServersOf(st, groupId), ip);
      SetServerMeaning(st1, groupId, ip, JObj([]));
      forall k ensures Get(Set(servers, ip, JObj([])), k) == if k == ip then Some(JObj([])) else Get(servers, k) {
        GetSet(servers, ip, JObj([]), k);
      }
    }
  }

  /** The group exists and holds `ip` among its servers. */
  predicate HoldsServer(st: Obj, groupId: int, ip: string) {
    IsObjAt(GroupsOf(st), GroupKey(groupId)) &&
    IsObjAt(ObjAt(GroupsOf(st), GroupKey(groupId)), "servers") &&
    HasKey(ServersOf(st, groupId), ip)
  }

  /** The groups object with the group under `key` given `servers` as its
      servers: the group goes as a whole when `servers` is empty. */
  function WithGroupServers(groups: Obj, key: string, servers: Obj): Obj
    requires WellFormed(JObj(groups))
  {
    if servers == [] then Remove(groups, key)
    else Set(groups, key, JObj(Set(ObjAt(groups, key), "servers", JObj(servers))))
  }

  /** The groups object after `ip` is dropped from a group holding it. */
  function GroupsWithout(st: Obj, groupId: int, ip: string): Obj
    requires StateOk(st)
  {
    WithGroupServers(GroupsOf(st), GroupKey(groupId), Remove(ServersOf(st, groupId), ip))
  }

  /** `remove_server`: the new state and whether a server was removed. */
  function RemoveServer(st: Obj, groupId: int, ip: string): (Obj, bool)
    requires StateOk(st)
  {
    if HoldsServer(st, groupId, ip) then
      (Set(st, "groups", JObj(GroupsWithout(st, groupId, ip))), true)
    else (st, false)
  }

  /** Dropping pairs keeps a well-formed object well formed. */
  lemma WellFormedRemove(fs: Obj, k: string)
    requires WellFormed(JObj(fs))
    ensures WellFormed(JObj(Remove(fs, k)))
  {
    var r := Remove(fs, k);
    GetRemove(fs, k, k);
    forall i | 0 <= i < |r| ensures WellFormed(r[i].1) {
      assert r[i] in fs;
    }
  }

  /** The group under `key` gets exactly `servers` (none when it is gone),
      other groups keep their values, and an emptied group is gone. */
  lemma WithGroupServersMeaning(groups: Obj, key: string, servers: Obj, k: string)
    requires WellFormed(JObj(groups)) && WellFormed(JObj(servers))
    ensures var g2 := WithGroupServers(groups, key, servers);
            WellFormed(JObj(g2)) &&
            ObjAt(ObjAt(g2, key), "servers") == servers &&
            (servers == [] ==> !HasKey(g2, key)) &&
            (k != key ==> Get(g2, k) == Get(groups, k))
  {
    if servers == [] {
      WellFormedRemove(groups, key);
      GetRemove(groups, key, key);
      GetRemove(groups, key, k);
    } else {
      var group := ObjAt(groups, key);
      var group2 := Set(group, "servers", JObj(servers));
      ObjAtSet(group, "servers", servers);
      WellFormedSet(group, "servers", JObj(servers));
      ObjAtSet(groups, key, group2);
      WellFormedSet(groups, key, JObj(group2));
      GetSet(groups, key, JObj(group2), k);
    }
  }

  /** Within the groups object the group's servers become the old ones
      without `ip`, a group left without servers is gone, and every other
      group keeps its value. */
  lemma GroupsWithoutMeaning(st: Obj, groupId: int, ip: string, k: string)
    requires StateOk(st)
    ensures var g2 := GroupsWithout(st, groupId, ip);
            WellFormed(JObj(g2)) &&
            ObjAt(ObjAt(g2, GroupKey(groupId)), "servers") == Remove(ServersOf(st, groupId), ip) &&
            (Remove(ServersOf(st, groupId), ip) == [] ==> !HasKey(g2, GroupKey(groupId))) &&
            (k != GroupKey(groupId) ==> Get(g2, k) == Get(GroupsOf(st), k))
  {
    WellFormedObjAt(st, "groups");
    WellFormedObjAt(GroupsOf(st), GroupKey(groupId));
    WellFormedObjAt(ObjAt(GroupsOf(st), GroupKey(groupId)), "servers");
    WellFormedRemove(ServersOf(st, groupId), ip);
    WithGroupServersMeaning(GroupsOf(st), GroupKey(groupId), Remove(ServersOf(st, groupId), ip), k);
  }

  /** Nothing changes unless the group holds the address; otherwise the
      address goes, the other servers stay, and a group left empty goes. */
  lemma RemoveServerMeaning(st: Obj, groupId: int, ip: string)
    requires StateOk(st)
    ensures RemoveServer(st, groupId, ip).1 <==> HoldsServer(st, groupId, ip)
    ensures !HoldsServer(st, groupId, ip) ==> RemoveServer(st, groupId, ip).0 == st
    ensures HoldsServer(st, groupId, ip) ==>
              var st2 := RemoveServer(st, groupId, ip).0;
              StateOk(st2) && !HasKey(ServersOf(st2, groupId), ip) &&
              (forall k :: k != ip ==> Get(ServersOf(st2, groupId), k) == Get(ServersOf(st, groupId), k)) &&
              (ServersOf(st2, groupId) == [] ==> !HasKey(GroupsOf(st2), GroupKey(groupId)))
  {
    if HoldsServer(st, groupId, ip) {
      RemovedServer(st, groupId, ip);
    }
  }

  lemma RemovedServer(st: Obj, groupId: int, ip: string)
    requires StateOk(st) && HoldsServer(st, groupId, ip)
    ensures var st2 := RemoveServer(st, groupId, ip).0;
            StateOk(st2) && !HasKey(ServersOf(st2, groupId), ip) &&
            (forall k :: k != ip ==> Get(ServersOf(st2, groupId), k) == Get(ServersOf(st, groupId), k)) &&
            (ServersOf(st2, groupId) == [] ==> !HasKey(GroupsOf(st2), GroupKey(groupId)))
  {
    RemovedServers(st, groupId, ip);
    WellFormedServers(st, groupId);
    RemovedKey(ServersOf(RemoveServer(st, groupId, ip).0, groupId), ServersOf(st, groupId), ip);
  }

  lemma WellFormedServers(st: Obj, groupId: int)
    requires StateOk(st)
    ensures WellFormed(JObj(ServersOf(st, groupId)))
  {
    WellFormedObjAt(st, "groups");
    WellFormedObjAt(GroupsOf(st), GroupKey(groupId));
    WellFormedObjAt(ObjAt(GroupsOf(st), GroupKey(groupId)), "servers");
  }

  /** An object equal to `b` without `k` lacks `k` and agrees with `b`
      everywhere else. */
  lemma RemovedKey(a: Obj, b: Obj, k: string)
    requires WellFormed(JObj(b)) && a == Remove(b, k)
    ensures !HasKey(a, k) && forall k2 :: k2 != k ==> Get(a, k2) == Get(b, k2)
  {
    RemoveFrame(b, k);
  }

  /** The state `remove_server` writes back holds the group's servers
      without `ip`, or no group at all when none is left. */
  lemma RemovedServers(st: Obj, groupId: int, ip: string)
    requires StateOk(st) && HoldsServer(st, groupId, ip)
    ensures var st2 := RemoveServer(st, groupId, ip).0;
            StateOk(st2) && ServersOf(st2, groupId) == Remove(ServersOf(st, groupId), ip) &&
            (ServersOf(st2, groupId) == [] ==> !HasKey(GroupsOf(st2), GroupKey(groupId)))
  {
    GroupsWithoutMeaning(st, groupId, ip, GroupKey(groupId));
    RemovedState(st, GroupsWithout(st, groupId, ip));
  }

  /** Writing a well-formed groups object back keeps the state settled. */
  lemma RemovedState(st: Obj, g2: Obj)
    requires StateOk(st) && WellFormed(JObj(g2))
    ensures StateOk(Set(st, "groups", JObj(g2))) && GroupsOf(Set(st, "groups", JObj(g2))) == g2
  {
    ObjAtSet(st, "groups", g2);
    WellFormedSet(st, "groups", JObj(g2));
  }

  /** Other top-level keys are never touched ... */
  lemma RemoveServerKeepsKeys(st: Obj, groupId: int, ip: string, k: string)
    requires StateOk(st) && k != "groups"
    ensures Get(RemoveServer(st, groupId, ip).0, k) == Get(st, k)
  {
    if HoldsServer(st, groupId, ip) {
      GetSet(st, "groups", JObj(GroupsWithout(st, groupId, ip)), k);
    }
  }

  /** ... and neither are other groups. */
  lemma RemoveServerKeepsGroups(st: Obj, groupId: int, ip: string, k: string)
    requires StateOk(st) && k != GroupKey(groupId)
    ensures Get(GroupsOf(RemoveServer(st, groupId, ip).0), k) == Get(GroupsOf(st), k)
  {
    if HoldsServer(st, groupId, ip) {
      GroupsWithoutMeaning(st, groupId, ip, k);
      RemovedState(st, GroupsWithout(st, groupId, ip));
    }
  }

  // ---------------------------------------------------------------- the store

  /** The state dictionary the checker loads, changes in place and saves.
      Methods that hand out a nested dictionary return its current value;
      the source's later writes through that alias are the explicit
      `SetServerState`. */
  class ServerStore {
    var state: Obj

    ghost predicate Valid()
      reads this
    {
      StateOk(state)
    }

    /** `load_state`. */
    constructor Load(blob: Option<Json>)
      requires blob.Some? ==> WellFormed(blob.value)
      ensures Valid() && state == LoadState(blob)
    {
      state := LoadState(blob);
    }

    /** `get_group_servers`. */
    method GetGroupServers(groupId: int) returns (servers: Obj)
      requires Valid() && GroupUsable(state, groupId)
      modifies this
      ensures Valid() && state == EnsureGroup(old(state), groupId)
      ensures servers == ServersOf(state, groupId)
      ensures IsObjAt(GroupsOf(state), GroupKey(groupId)) &&
              IsObjAt(ObjAt(GroupsOf(state), GroupKey(groupId)), "servers")
    {
      EnsureGroupMeaning(state, groupId);
      state := EnsureGroup(state, groupId);
      servers := ServersOf(state, groupId);
    }

    /** `get_server_state`. */
    method GetServerState(groupId: int, ip: string) returns (server: Obj)
      requires Valid() && GroupUsable(state, groupId)
      modifies this
      ensures Valid() && state == EnsureServer(old(state), groupId, ip)
      ensures IsObjAt(GroupsOf(state), GroupKey(groupId)) &&
              IsObjAt(ObjAt(GroupsOf(state), GroupKey(groupId)), "servers")
      ensures Get(ServersOf(state, groupId), ip) == Some(JObj(server))
      ensures WellFormed(JObj(server))
    {
      EnsureServerReady(state, groupId, ip);
      var st1 := EnsureGroup(state, groupId);
      server := ObjAt(ServersOf(st1, groupId), ip);
      SetServerMeaning(st1, groupId, ip, JObj(server));
      state := EnsureServer(state, groupId, ip);
    }

    /** The write-back of a server dictionary changed through the alias. */
    method SetServerState(groupId: int, ip: string, server: Obj)
      requires Valid() && IsObjAt(GroupsOf(state), GroupKey(groupId))
      requires IsObjAt(ObjAt(GroupsOf(state), GroupKey(groupId)), "servers")
      requires WellFormed(JObj(server))
      modifies this
      ensures Valid() && state == SetServer(old(state), groupId, ip, JObj(server))
      ensures Get(ServersOf(state, groupId), ip) == Some(JObj(server))
    {
      SetServerMeaning(state, groupId, ip, JObj(server));
      state := SetServer(state, groupId, ip, JObj(server));
    }

    /** `add_server`. */
    method Add(groupId: int, ip: string) returns (added: bool)
      requires Valid() && GroupUsable(state, groupId)
      modifies this
      ensures Valid() && (state, added) == AddServer(old(state), groupId, ip)
      ensures added <==> !HasKey(ServersOf(old(state), groupId), ip)
      ensures !added ==> state == old(state)
    {
      AddServerMeaning(state, groupId, ip);
      var r := AddServer(state, groupId, ip);
      state, added := r.0, r.1;
    }

    /** `remove_server`. */
    method Remove(groupId: int, ip: string) returns (removed: bool)
      requires Valid()
      modifies this
      ensures Valid() && (state, removed) == RemoveServer(old(state), groupId, ip)
      ensures !removed ==> state == old(state)
      ensures removed ==> !HasKey(ServersOf(state, groupId), ip)
    {
      RemoveServerMeaning(state, groupId, ip);
      var r := RemoveServer(state, groupId, ip);
      state, removed := r.0, r.1;
    }
  }
}
