/** The auto-react plugin's user store: a set of user ids kept in memory and
    written to a JSON file, as a sorted list, after every change. */
module UserStore {
  import opened Orders
  import opened McStorage

  /** What `_load` finds on disk: no file, a file that cannot be read or
      decoded, or a decoded JSON document. */
  datatype StoredFile = Missing | Unreadable | Content(data: Json)

  /** `_load`: the ids listed in a JSON list; an empty set for a missing or
      undecodable file and for any document that is not a list. */
  function Loaded(f: StoredFile): (r: set<string>)
    ensures r != {} ==> f.Content? && f.data.JList?
    ensures forall x :: x in r ==> JStr(x) in f.data.items
  {
    if f.Content? && f.data.JList? then
      set x | x in f.data.items && x.JStr? :: x.s
    else
      {}
  }

  /** `_save`: the ids in sorted order, as a JSON list of strings. */
  function Saved(users: set<string>): (j: Json)
    ensures j.JList? && |j.items| == |users|
  {
    var ids := SortStrings(users);
    JList(seq(|ids|, i requires 0 <= i < |ids| => JStr(ids[i])))
  }

  /** Loading falls back to the empty set on every path but a list. */
  lemma LoadedFallback(f: StoredFile)
    ensures !(f.Content? && f.data.JList?) ==> Loaded(f) == {}
    ensures f.Content? && f.data.JList? ==> forall u :: u in Loaded(f) <==> JStr(u) in f.data.items
  {
    if f.Content? && f.data.JList? {
      forall u ensures u in Loaded(f) <==> JStr(u) in f.data.items {
        if JStr(u) in f.data.items {
          var x := JStr(u);
          assert x in f.data.items && x.JStr? && x.s == u;
        }
      }
    }
  }

  /** What `_save` writes is sorted, and `_load` reads it back as the same set. */
  lemma SaveLoadRoundTrip(users: set<string>)
    ensures Loaded(Content(Saved(users))) == users
    ensures var j := Saved(users);
            forall i, k :: 0 <= i < k < |j.items| ==> j.items[i].JStr? && j.items[k].JStr? && StrLess(j.items[i].s, j.items[k].s)
  {
    var ids := SortStrings(users);
    var j := Saved(users);
    assert forall i :: 0 <= i < |ids| ==> j.items[i] == JStr(ids[i]);
    LoadedFallback(Content(j));
    forall u ensures u in Loaded(Content(j)) <==> u in users {
      if u in users {
        var i :| 0 <= i < |ids| && ids[i] == u;
        assert j.items[i] == JStr(u);
      }
      if JStr(u) in j.items {
        var i :| 0 <= i < |j.items| && j.items[i] == JStr(u);
        assert ids[i] == u;
      }
    }
  }

  class UserStorage {
    /** The ids in memory. */
    var users: set<string>
    /** The data file as last written or as found. */
    var file: StoredFile
    /** How many times `_save` has written the file. */
    var saves: nat

    /** The file on disk reloads as the set in memory. */
    predicate Valid()
      reads this
    {
      Loaded(file) == users
    }

    /** `__init__` and `_load`. */
    constructor(f: StoredFile)
      ensures Valid() && users == Loaded(f) && file == f && saves == 0
    {
      users := Loaded(f);
      file := f;
      saves := 0;
    }

    /** `_save`: write the sorted ids. */
    method Save()
      modifies this
      ensures Valid() && users == old(users)
      ensures file == Content(Saved(users)) && saves == old(saves) + 1
    {
      SaveLoadRoundTrip(users);
      file := Content(Saved(users));
      saves := saves + 1;
    }

    /** `add_user`: true, with a save, exactly when the id was new. */
    method AddUser(u: string) returns (added: bool)
      requires Valid()
      modifies this
      ensures Valid()
      ensures added <==> u !in old(users)
      ensures users == old(users) + {u}
      ensures saves == old(saves) + (if added then 1 else 0)
      ensures !added ==> file == old(file)
      ensures added ==> file == Content(Saved(users))
    {
      if u !in users {
        users := users + {u};
        Save();
        added := true;
      } else {
        added := false;
      }
    }

    /** `remove_user`: true, with a save, exactly when the id was present. */
    method RemoveUser(u: string) returns (removed: bool)
      requires Valid()
      modifies this
      ensures Valid()
      ensures removed <==> u in old(users)
      ensures users == old(users) - {u}
      ensures saves == old(saves) + (if removed then 1 else 0)
      ensures !removed ==> file == old(file)
      ensures removed ==> file == Content(Saved(users))
    {
      if u in users {
        users := users - {u};
        Save();
        removed := true;
      } else {
        removed := false;
      }
    }

    /** `has_user`. */
    function HasUser(u: string): (r: bool)
      reads this
      ensures r <==> u in users
    {
      u in users
    }

    /** `get_all_users`: a set is a value here, so later changes to the store
        and to the result cannot reach each other. */
    method GetAllUsers() returns (r: set<string>)
      ensures r == users
    {
      r := users;
    }

    /** `clear_all`: empty the set and save. */
    method ClearAll()
      requires Valid()
      modifies this
      ensures Valid() && users == {}
      ensures saves == old(saves) + 1 && file == Content(JList([]))
    {
      users := {};
      Save();
    }

    /** A run of operations, applied one after another: a proof harness for
        `ReplayMembership`, with no counterpart in the source. */
    method Run(ops: seq<Op>)
      requires Valid()
      modifies this
      ensures Valid() && users == Replay(old(users), ops)
    {
      for i := 0 to |ops|
        invariant Valid() && users == Replay(old(users), ops[..i])
      {
        ReplayStep(old(users), ops, i);
        match ops[i]
        case Add(u) =>
          var _ := AddUser(u);
        case Remove(u) =>
          var _ := RemoveUser(u);
        case Clear =>
          ClearAll();
      }
      assert ops[..|ops|] == ops;
    }
  }

  /** The three operations that change the store. */
  datatype Op = Add(id: string) | Remove(id: string) | Clear

  function Apply(users: set<string>, op: Op): set<string> {
    match op
    case Add(u) => users + {u}
    case Remove(u) => users - {u}
    case Clear => {}
  }

  /** The set after `ops`, applied from the left. */
  function Replay(users: set<string>, ops: seq<Op>): set<string>
    decreases |ops|
  {
    if |ops| == 0 then users else Apply(Replay(users, ops[..|ops| - 1]), ops[|ops| - 1])
  }

  lemma ReplayStep(users: set<string>, ops: seq<Op>, i: nat)
    requires i < |ops|
    ensures Replay(users, ops[..i + 1]) == Apply(Replay(users, ops[..i]), ops[i])
  {
    assert ops[..i + 1][..i] == ops[..i];
  }

  /** `ops[j]` takes `u` out of the store. */
  predicate Drops(op: Op, u: string) {
    op == Remove(u) || op == Clear
  }

  /** `ops[i]` adds `u`, and nothing after it takes `u` out again. */
  predicate LiveAdd(ops: seq<Op>, u: string, i: int) {
    0 <= i < |ops| && ops[i] == Add(u) && forall j :: i < j < |ops| ==> !Drops(ops[j], u)
  }

  /** No operation in `ops` takes `u` out. */
  predicate NeverDropped(ops: seq<Op>, u: string) {
    forall j :: 0 <= j < |ops| ==> !Drops(ops[j], u)
  }

  /** `has_user` after a run: the id is present exactly when it was added
      and not removed or cleared since, or was there from the start and was
      never removed or cleared. */
  lemma {:induction false} ReplayMembership(users: set<string>, ops: seq<Op>, u: string)
    ensures u in Replay(users, ops) <==> (exists i :: LiveAdd(ops, u, i)) || (u in users && NeverDropped(ops, u))
    decreases |ops|
  {
    if |ops| > 0 {
      var init := ops[..|ops| - 1];
      var last := ops[|ops| - 1];
      ReplayMembership(users, init, u);
      if last == Add(u) {
        assert LiveAdd(ops, u, |ops| - 1);
      } else if Drops(last, u) {
        assert !NeverDropped(ops, u);
        assert forall i :: !LiveAdd(ops, u, i);
      } else {
        forall i ensures LiveAdd(ops, u, i) <==> LiveAdd(init, u, i) {
          if 0 <= i < |init| {
            assert init[i] == ops[i];
            assert forall j :: i < j < |init| ==> init[j] == ops[j];
          }
        }
        assert NeverDropped(ops, u) <==> NeverDropped(init, u) by {
          assert forall j :: 0 <= j < |init| ==> init[j] == ops[j];
        }
      }
    }
  }
}
