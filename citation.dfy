/** The citation counter's reply detection: which group messages count as
    replies, which replied-to message the handler looks up, and when a
    citation is counted. */
module CitationCounter {
  import opened Wrappers
  import opened Text

  /** A message segment: its `type` and, for a reply, `data['id']`. */
  datatype Segment = Segment(kind: string, id: string)

  predicate IsReplySegment(seg: Segment) {
    seg.kind == "reply"
  }

  /** `is_reply`: the first reply segment decides, true unless its id reads
      as 0; no reply segment means false. `None` stands for the ValueError
      `int()` raises on an id that is not an integer. */
  function IsReply(segs: seq<Segment>): (r: Option<bool>)
    ensures r == Some(true) ==> exists i :: 0 <= i < |segs| && IsReplySegment(segs[i]) && Verdict(segs[i]) == Some(true)
    ensures r.None? ==> exists i :: 0 <= i < |segs| && IsReplySegment(segs[i]) && ParseInt(segs[i].id).None?
    decreases |segs|
  {
    if |segs| == 0 then Some(false)
    else if IsReplySegment(segs[0]) then Verdict(segs[0])
    else IsReply(segs[1..])
  }

  /** The verdict a reply segment gives: `int(id) != 0`. */
  function Verdict(seg: Segment): Option<bool> {
    match ParseInt(seg.id)
    case None => None
    case Some(v) => Some(v != 0)
  }

  /** The rule looks at the first reply segment only: whatever follows it is
      ignored, and with no reply segment at all the answer is false. */
  lemma {:induction false} IsReplyFirst(segs: seq<Segment>)
    ensures (forall i :: 0 <= i < |segs| ==> !IsReplySegment(segs[i])) ==> IsReply(segs) == Some(false)
    ensures forall i :: 0 <= i < |segs| && IsReplySegment(segs[i]) && (forall j :: 0 <= j < i ==> !IsReplySegment(segs[j])) ==>
                          IsReply(segs) == Verdict(segs[i])
    decreases |segs|
  {
    if |segs| > 0 {
      IsReplyFirst(segs[1..]);
      forall i | 0 <= i < |segs| && IsReplySegment(segs[i]) && (forall j :: 0 <= j < i ==> !IsReplySegment(segs[j]))
        ensures IsReply(segs) == Verdict(segs[i])
      {
        if i > 0 {
          assert segs[1..][i - 1] == segs[i];
          forall j | 0 <= j < i - 1 ensures !IsReplySegment(segs[1..][j]) {
            assert segs[1..][j] == segs[j + 1];
          }
        }
      }
      if forall i :: 0 <= i < |segs| ==> !IsReplySegment(segs[i]) {
        forall i | 0 <= i < |segs| - 1 ensures !IsReplySegment(segs[1..][i]) {
          assert segs[1..][i] == segs[i + 1];
        }
      }
    }
  }

  /** Changing what comes after the first reply segment never changes the
      rule's answer. */
  lemma IsReplyIgnoresRest(pre: seq<Segment>, seg: Segment, rest1: seq<Segment>, rest2: seq<Segment>)
    requires IsReplySegment(seg) && forall j :: 0 <= j < |pre| ==> !IsReplySegment(pre[j])
    ensures IsReply(pre + [seg] + rest1) == IsReply(pre + [seg] + rest2) == Verdict(seg)
  {
    var a := pre + [seg] + rest1;
    var b := pre + [seg] + rest2;
    IsReplyFirst(a);
    IsReplyFirst(b);
    assert a[|pre|] == seg && b[|pre|] == seg;
    assert forall j :: 0 <= j < |pre| ==> a[j] == pre[j] && b[j] == pre[j];
  }

  /** An id that reads as zero ("0", " 0", "-0", "+00") is not a reply. */
  lemma ZeroIdIsNotReply(seg: Segment)
    requires IsReplySegment(seg) && ParseInt(seg.id) == Some(0)
    ensures IsReply([seg]) == Some(false)
  {
  }

  /** The id the handler's loop keeps: that of the last reply segment. */
  function LastReplyId(segs: seq<Segment>): (r: Option<string>)
    ensures r.Some? ==> exists i :: 0 <= i < |segs| && IsReplySegment(segs[i]) && r.value == segs[i].id
    decreases |segs|
  {
    if |segs| == 0 then None
    else if IsReplySegment(segs[|segs| - 1]) then Some(segs[|segs| - 1].id)
    else LastReplyId(segs[..|segs| - 1])
  }

  /** The handler finds an id exactly when there is a reply segment, and it
      is the id of the last one. */
  lemma {:induction false} LastReplyIdMeaning(segs: seq<Segment>)
    ensures LastReplyId(segs).None? <==> forall i :: 0 <= i < |segs| ==> !IsReplySegment(segs[i])
    ensures LastReplyId(segs).Some? ==>
              exists i :: 0 <= i < |segs| && IsReplySegment(segs[i]) && LastReplyId(segs) == Some(segs[i].id) &&
                          forall j :: i < j < |segs| ==> !IsReplySegment(segs[j])
    decreases |segs|
  {
    if |segs| > 0 {
      var n := |segs| - 1;
      if IsReplySegment(segs[n]) {
        assert LastReplyId(segs) == Some(segs[n].id);
      } else {
        var init := segs[..n];
        LastReplyIdMeaning(init);
        assert forall i :: 0 <= i < |init| ==> init[i] == segs[i];
        assert LastReplyId(segs) == LastReplyId(init);
        if LastReplyId(init).Some? {
          var i :| 0 <= i < |init| && IsReplySegment(init[i]) && LastReplyId(init) == Some(init[i].id) &&
                   forall j :: i < j < |init| ==> !IsReplySegment(init[j]);
          assert forall j :: i < j < |segs| ==> !IsReplySegment(segs[j]);
        }
      }
    }
  }

  /** Whenever the rule lets a message through, the handler finds a reply
      id; with a single reply segment it is the id the rule checked. */
  lemma RuleThenHandler(segs: seq<Segment>)
    requires IsReply(segs) == Some(true)
    ensures LastReplyId(segs).Some?
    ensures (forall i, j :: 0 <= i < j < |segs| && IsReplySegment(segs[i]) ==> !IsReplySegment(segs[j])) ==>
              exists i :: 0 <= i < |segs| && IsReplySegment(segs[i]) && LastReplyId(segs) == Some(segs[i].id) &&
                          Verdict(segs[i]) == Some(true)
  {
    IsReplyFirst(segs);
    LastReplyIdMeaning(segs);
    if forall i, j :: 0 <= i < j < |segs| && IsReplySegment(segs[i]) ==> !IsReplySegment(segs[j]) {
      var i :| 0 <= i < |segs| && IsReplySegment(segs[i]) && LastReplyId(segs) == Some(segs[i].id) &&
               forall j :: i < j < |segs| ==> !IsReplySegment(segs[j]);
    }
  }

  /** What the reply handler does with a message. */
  datatype Outcome =
    | NoReplySegment            // the loop found no reply segment
    | UnknownAuthor             // the replied-to message has no recorded sender
    | Ignored                   // the sender is on the ignore list
    | Counted(groupId: int, userId: string)

  /** `get_user_id_from_message_id`: the last matching row, if any. */
  function Author(rows: seq<string>): Option<string> {
    if rows == [] then None else Some(rows[|rows| - 1])
  }

  /** The reply handler, where `rowsFor` gives the user ids the message
      database holds for a message id. */
  method HandleReply(groupId: int, userId: int, segs: seq<Segment>, rowsFor: string -> seq<string>,
                     ignoreUserIds: set<string>)
    returns (outcome: Outcome)
    ensures LastReplyId(segs).None? ==> outcome == NoReplySegment
    ensures LastReplyId(segs).Some? ==>
              var author := Author(rowsFor(LastReplyId(segs).value));
              if author.None? then outcome == UnknownAuthor
              else if IntToString(userId) in ignoreUserIds then outcome == Ignored
              else outcome == Counted(groupId, author.value)
    ensures outcome.Counted? ==> IntToString(userId) !in ignoreUserIds
  {
    var replyMessageId: Option<string> := None;
    for i := 0 to |segs|
      invariant replyMessageId == LastReplyId(segs[..i])
    {
      assert segs[..i + 1][..i] == segs[..i];
      if segs[i].kind == "reply" {
        replyMessageId := Some(segs[i].id);
      }
    }
    assert segs[..|segs|] == segs;
    if replyMessageId.None? {
      return NoReplySegment;
    }
    var author := Author(rowsFor(replyMessageId.value));
    if author.None? {
      return UnknownAuthor;
    }
    if IntToString(userId) in ignoreUserIds {
      return Ignored;
    }
    return Counted(groupId, author.value);
  }
}
