/** The front end of the chat-history query command: the `key=value`
    argument tokenizer, the construction of a query filter from the parsed
    arguments, the one-line summary of a filter, and the truncation of long
    message texts in the reply. */
module QueryArgs {
  import opened Wrappers
  import opened Text
  import opened CacheModel
  import opened QueryTime

  /** Cap on the number of messages one query may ask for (a stand-in value
      in the range the command's tests allow). */
  const MAX_LIMIT: int := 100

  /** The `max_len` a reply line is cut to when no other is given (a
      stand-in value). */
  const DEFAULT_TRUNCATE_LEN: nat := 100

  // ---------------------------------------------------------------- tokenizer

  /** The characters of a key: ASCII letters, digits and '_'. */
  predicate IsWordChar(c: char) {
    'a' <= c <= 'z' || 'A' <= c <= 'Z' || IsDigit(c) || c == '_'
  }

  predicate IsKey(k: string) {
    |k| > 0 && forall i :: 0 <= i < |k| ==> IsWordChar(k[i])
  }

  predicate IsQuote(c: char) {
    c == '"' || c == '\''
  }

  /** Length of the leading run of key characters. */
  function KeyLen(s: string): (n: nat)
    ensures n <= |s|
    ensures forall i :: 0 <= i < n ==> IsWordChar(s[i])
    ensures n < |s| ==> !IsWordChar(s[n])
    decreases |s|
  {
    if |s| == 0 || !IsWordChar(s[0]) then 0 else 1 + KeyLen(s[1..])
  }

  /** Position of the first `c` in `s`. */
  function IndexOf(s: string, c: char): (r: Option<nat>)
    ensures r.Some? ==> r.value < |s| && s[r.value] == c && c !in s[..r.value]
    ensures r.None? ==> c !in s
    decreases |s|
  {
    if |s| == 0 then None
    else if s[0] == c then Some(0)
    else
      match IndexOf(s[1..], c)
      case Some(i) =>
        assert s[..i + 1] == [s[0]] + s[1..][..i];
        Some(i + 1)
      case None =>
        assert s == [s[0]] + s[1..];
        None
  }

  /** One `key=value` match: the key, the value and the number of characters
      it spans. */
  datatype Token = Token(key: string, value: string, width: nat)

  /** The value after '=': the text between a quote and the next occurrence
      of the same quote, or, when there is no closing quote or no opening one,
      the run of non-whitespace characters. Returns the value and its width. */
  function ValueAt(s: string): (r: Option<(string, nat)>)
    ensures r.Some? ==> 0 < r.value.1 <= |s|
    ensures r.None? <==> |s| == 0 || IsSpace(s[0])
  {
    if |s| > 0 && IsQuote(s[0]) && IndexOf(s[1..], s[0]).Some? then
      var j := IndexOf(s[1..], s[0]).value;
      Some((s[1..j + 1], j + 2))
    else if |s| > 0 && !IsSpace(s[0]) then
      var w := WordLen(s);
      Some((s[..w], w))
    else
      None
  }

  /** A match starting at the first character of `s`, if there is one. */
  function TokenAt(s: string): (r: Option<Token>)
    ensures r.Some? ==> |r.value.key| < r.value.width <= |s| && IsKey(r.value.key)
    ensures r.Some? ==> s[..|r.value.key|] == r.value.key && s[|r.value.key|] == '='
  {
    var n := KeyLen(s);
    if n == 0 || n == |s| || s[n] != '=' then None
    else
      match ValueAt(s[n + 1..])
      case Some((v, w)) => Some(Token(s[..n], v, n + 1 + w))
      case None => None
  }

  /** Every match, scanning left to right; text between matches is skipped. */
  function Pairs(s: string): seq<(string, string)>
    decreases |s|
  {
    if |s| == 0 then []
    else
      match TokenAt(s)
      case Some(t) => [(t.key, t.value)] + Pairs(s[t.width..])
      case None => Pairs(s[1..])
  }

  /** Building a dict from pairs: a later pair overrides an earlier one with
      the same key. */
  function ToDict(ps: seq<(string, string)>): (m: map<string, string>)
    ensures forall k :: k in m <==> exists i :: 0 <= i < |ps| && ps[i].0 == k
    decreases |ps|
  {
    if |ps| == 0 then map[]
    else
      var init := ps[..|ps| - 1];
      var m := ToDict(init);
      assert forall i :: 0 <= i < |init| ==> init[i] == ps[i];
      m[ps[|ps| - 1].0 := ps[|ps| - 1].1]
  }

  /** The value kept for a key is the one of its last pair. */
  lemma {:induction false} ToDictLastWins(ps: seq<(string, string)>, i: nat)
    requires i < |ps|
    requires forall j :: i < j < |ps| ==> ps[j].0 != ps[i].0
    ensures ps[i].0 in ToDict(ps) && ToDict(ps)[ps[i].0] == ps[i].1
    decreases |ps|
  {
    if i < |ps| - 1 {
      var init := ps[..|ps| - 1];
      ToDictLastWins(init, i);
    }
  }

  /** `parse_query_args`. */
  function ParseQueryArgs(s: string): map<string, string> {
    ToDict(Pairs(s))
  }

  lemma {:induction false} KeyLenOf(k: string, tail: string)
    requires IsKey(k) && (|tail| == 0 || !IsWordChar(tail[0]))
    ensures KeyLen(k + tail) == |k|
    decreases |k|
  {
    if |k| > 1 {
      assert (k + tail)[1..] == k[1..] + tail;
      KeyLenOf(k[1..], tail);
    } else {
      assert (k + tail)[1..] == tail;
    }
  }

  lemma {:induction false} IndexOfFirst(v: string, c: char, tail: string)
    requires c !in v
    ensures IndexOf(v + [c] + tail, c) == Some(|v|)
    decreases |v|
  {
    if |v| > 0 {
      assert (v + [c] + tail)[1..] == v[1..] + [c] + tail;
      IndexOfFirst(v[1..], c, tail);
    }
  }

  /** A key and '=' followed by a value read the way `ValueAt` reads it. */
  lemma KeyThenValue(k: string, tail: string)
    requires IsKey(k) && ValueAt(tail).Some?
    ensures TokenAt(k + ("=" + tail)) == Some(Token(k, ValueAt(tail).value.0, |k| + 1 + ValueAt(tail).value.1))
  {
    var s := k + ("=" + tail);
    KeyLenOf(k, "=" + tail);
    assert s[..|k|] == k;
    assert s[|k| + 1..] == tail;
  }

  lemma QuotedValue(q: char, v: string, rest: string)
    requires IsQuote(q) && q !in v
    ensures ValueAt([q] + (v + ([q] + rest))) == Some((v, |v| + 2))
  {
    var t := [q] + (v + ([q] + rest));
    assert t[1..] == v + [q] + rest;
    IndexOfFirst(v, q, rest);
    assert t[1..|v| + 1] == v;
  }

  lemma UnquotedValue(v: string, rest: string)
    requires |v| > 0 && NoSpace(v) && !IsQuote(v[0])
    requires |rest| == 0 || IsSpace(rest[0])
    ensures ValueAt(v + rest) == Some((v, |v|))
  {
    WordLenOf(v, rest);
    assert (v + rest)[..|v|] == v;
  }

  /** A quoted value: everything between the quotes, spaces included,
      without the quotes. */
  lemma QuotedToken(k: string, q: char, v: string, rest: string)
    requires IsKey(k) && IsQuote(q) && q !in v
    ensures TokenAt(k + "=" + [q] + v + [q] + rest) == Some(Token(k, v, |k| + |v| + 3))
  {
    Assoc(k + "=" + [q] + v, [q], rest);
    Assoc(k + "=" + [q], v, [q] + rest);
    Assoc(k + "=", [q], v + ([q] + rest));
    Assoc(k, "=", [q] + (v + ([q] + rest)));
    QuotedValue(q, v, rest);
    KeyThenValue(k, [q] + (v + ([q] + rest)));
  }

  /** An unquoted value runs to the next whitespace. */
  lemma UnquotedToken(k: string, v: string, rest: string)
    requires IsKey(k) && |v| > 0 && NoSpace(v) && !IsQuote(v[0])
    requires |rest| == 0 || IsSpace(rest[0])
    ensures TokenAt(k + "=" + v + rest) == Some(Token(k, v, |k| + 1 + |v|))
  {
    Assoc(k + "=", v, rest);
    Assoc(k, "=", v + rest);
    UnquotedValue(v, rest);
    KeyThenValue(k, v + rest);
  }

  /** Text starting with whitespace holds no match at its first character. */
  lemma PairsSkipSpace(c: char, s: string)
    requires IsSpace(c)
    ensures Pairs([c] + s) == Pairs(s)
  {
    assert ([c] + s)[1..] == s;
  }

  // ---------------------------------------------------------------- rendering

  function RenderPair(p: (string, string)): string {
    p.0 + "=" + "\"" + p.1 + "\""
  }

  /** Arguments written back as `key="value"`, separated by single spaces. */
  function RenderArgs(ps: seq<(string, string)>): string
    decreases |ps|
  {
    if |ps| == 0 then ""
    else if |ps| == 1 then RenderPair(ps[0])
    else RenderPair(ps[0]) + " " + RenderArgs(ps[1..])
  }

  predicate Renderable(ps: seq<(string, string)>) {
    forall i :: 0 <= i < |ps| ==> IsKey(ps[i].0) && '"' !in ps[i].1
  }

  /** Tokenizing rendered arguments gives back the same pairs, in order. */
  lemma {:induction false} PairsOfRendered(ps: seq<(string, string)>)
    requires Renderable(ps)
    ensures Pairs(RenderArgs(ps)) == ps
    decreases |ps|
  {
    if |ps| > 0 {
      var rest := if |ps| == 1 then "" else " " + RenderArgs(ps[1..]);
      if |ps| > 1 {
        PairsOfRendered(ps[1..]);
        PairsSkipSpace(' ', RenderArgs(ps[1..]));
      }
      RenderedFirst(ps, rest);
    }
  }

  /** The first rendered pair is read back, then the rest. */
  lemma RenderedFirst(ps: seq<(string, string)>, rest: string)
    requires Renderable(ps) && |ps| > 0
    requires rest == if |ps| == 1 then "" else " " + RenderArgs(ps[1..])
    requires Pairs(rest) == ps[1..]
    ensures Pairs(RenderArgs(ps)) == ps
  {
    var p := ps[0];
    RenderedPairToken(p, rest);
    PairsCons(RenderPair(p) + rest, Token(p.0, p.1, |p.0| + |p.1| + 3), rest, ps[1..]);
    RenderArgsCons(ps, rest);
    HeadTail(ps);
  }

  lemma PairsCons(s: string, t: Token, rest: string, tail: seq<(string, string)>)
    requires TokenAt(s) == Some(t) && s[t.width..] == rest && Pairs(rest) == tail
    ensures Pairs(s) == [(t.key, t.value)] + tail
  {
    PairsAfterToken(s, t);
  }

  lemma RenderArgsCons(ps: seq<(string, string)>, rest: string)
    requires |ps| > 0 && rest == if |ps| == 1 then "" else " " + RenderArgs(ps[1..])
    ensures RenderArgs(ps) == RenderPair(ps[0]) + rest
  {
    if |ps| == 1 {
      assert RenderPair(ps[0]) + "" == RenderPair(ps[0]);
    } else {
      Assoc(RenderPair(ps[0]), " ", RenderArgs(ps[1..]));
    }
  }

  /** One rendered pair is one match, and the scan resumes right after it. */
  lemma RenderedPairToken(p: (string, string), rest: string)
    requires IsKey(p.0) && '"' !in p.1
    ensures TokenAt(RenderPair(p) + rest) == Some(Token(p.0, p.1, |p.0| + |p.1| + 3))
    ensures (RenderPair(p) + rest)[|p.0| + |p.1| + 3..] == rest
  {
    assert RenderPair(p) == p.0 + "=" + ['"'] + p.1 + ['"'];
    QuotedToken(p.0, '"', p.1, rest);
  }

  /** `parse_query_args` inverts rendering: the dict of the rendered pairs. */
  lemma ParseRenderedArgs(ps: seq<(string, string)>)
    requires Renderable(ps)
    ensures ParseQueryArgs(RenderArgs(ps)) == ToDict(ps)
  {
    PairsOfRendered(ps);
  }

  /** A match at the start is kept and the scan resumes after it. */
  lemma PairsAfterToken(s: string, t: Token)
    requires TokenAt(s) == Some(t)
    ensures Pairs(s) == [(t.key, t.value)] + Pairs(s[t.width..])
  {
  }

  /** A match followed by a space and a last match. */
  lemma PairsOfTwo(s: string, t: Token, second: string, u: Token)
    requires TokenAt(s) == Some(t) && s[t.width..] == [' '] + second
    requires TokenAt(second) == Some(u) && u.width == |second|
    ensures Pairs(s) == [(t.key, t.value), (u.key, u.value)]
  {
    PairsAfterToken(s, t);
    PairsSkipSpace(' ', second);
    PairsAfterToken(second, u);
    assert second[u.width..] == "";
  }

  lemma ToDictOfTwo(k1: string, v1: string, k2: string, v2: string)
    requires k1 != k2
    ensures ToDict([(k1, v1), (k2, v2)]) == map[k1 := v1, k2 := v2]
  {
    var ps := [(k1, v1), (k2, v2)];
    ToDictLastWins(ps, 0);
    ToDictLastWins(ps, 1);
  }

  /** A quoted value followed by a bare one, as in `content="hello world"
      limit=50`: the quoted value keeps its space, the bare one ends at the
      end of the text. */
  lemma ParseQuotedThenBare(k1: string, q: char, v1: string, k2: string, v2: string)
    requires IsKey(k1) && IsKey(k2) && k1 != k2
    requires IsQuote(q) && q !in v1
    requires |v2| > 0 && NoSpace(v2) && !IsQuote(v2[0])
    ensures ParseQueryArgs(k1 + "=" + [q] + v1 + [q] + " " + k2 + "=" + v2) == map[k1 := v1, k2 := v2]
  {
    var second := k2 + "=" + v2;
    var s := k1 + "=" + [q] + v1 + [q] + (" " + second);
    assert k1 + "=" + [q] + v1 + [q] + " " + k2 + "=" + v2 == s;
    QuotedToken(k1, q, v1, " " + second);
    assert s[|k1| + |v1| + 3..] == [' '] + second;
    assert TokenAt(second) == Some(Token(k2, v2, |k2| + 1 + |v2|)) by {
      assert second == k2 + "=" + v2 + "";
      UnquotedToken(k2, v2, "");
    }
    PairsOfTwo(s, Token(k1, v1, |k1| + |v1| + 3), second, Token(k2, v2, |k2| + 1 + |v2|));
    ToDictOfTwo(k1, v1, k2, v2);
  }

  /** Two quoted values, as in `content='test message' regex='.*'`: single
      quotes work like double quotes. */
  lemma ParseTwoQuoted(k1: string, q1: char, v1: string, k2: string, q2: char, v2: string)
    requires IsKey(k1) && IsKey(k2) && k1 != k2
    requires IsQuote(q1) && q1 !in v1 && IsQuote(q2) && q2 !in v2
    ensures ParseQueryArgs(k1 + "=" + [q1] + v1 + [q1] + " " + k2 + "=" + [q2] + v2 + [q2]) == map[k1 := v1, k2 := v2]
  {
    var second := k2 + "=" + [q2] + v2 + [q2];
    var s := k1 + "=" + [q1] + v1 + [q1] + (" " + second);
    assert k1 + "=" + [q1] + v1 + [q1] + " " + k2 + "=" + [q2] + v2 + [q2] == s;
    QuotedToken(k1, q1, v1, " " + second);
    assert s[|k1| + |v1| + 3..] == [' '] + second;
    assert TokenAt(second) == Some(Token(k2, v2, |k2| + |v2| + 3)) by {
      assert second == k2 + "=" + [q2] + v2 + [q2] + "";
      QuotedToken(k2, q2, v2, "");
    }
    PairsOfTwo(s, Token(k1, v1, |k1| + |v1| + 3), second, Token(k2, v2, |k2| + |v2| + 3));
    ToDictOfTwo(k1, v1, k2, v2);
  }

  // ---------------------------------------------------------------- the filter

  /** `args.get(key)`. */
  function Lookup(args: map<string, string>, key: string): (r: Option<string>)
    ensures r.Some? <==> key in args
    ensures r.Some? ==> r.value == args[key]
  {
    if key in args then Some(args[key]) else None
  }

  /** An integer argument: absent, or `int(text)`, or an error. */
  function IntArg(args: map<string, string>, key: string): Result<Option<int>, string> {
    if key !in args then Success(None)
    else
      match ParseInt(args[key])
      case Some(v) => Success(Some(v))
      case None => Failure("Invalid " + key + ": " + args[key])
  }

  /** A time argument: absent, or `parse_time(text)`, or an error. */
  function TimeArg(args: map<string, string>, key: string, now: int): Result<Option<int>, string> {
    if key !in args then Success(None)
    else
      match ParseTime(args[key], now)
      case Some(t) => Success(Some(t))
      case None => Failure("Invalid time: " + args[key])
  }

  /** Whether every given argument is well formed. */
  predicate ArgsOk(args: map<string, string>, now: int, regexOk: string -> bool) {
    ("regex" in args ==> regexOk(args["regex"])) &&
    IntArg(args, "user").Success? && IntArg(args, "group").Success? &&
    IntArg(args, "limit").Success? &&
    TimeArg(args, "after", now).Success? && TimeArg(args, "before", now).Success?
  }

  function ClampLimit(requested: Option<int>): (l: int)
    ensures l <= MAX_LIMIT
    ensures requested.None? ==> l == DefaultQueryFilter.limit
    ensures requested.Some? && requested.value <= MAX_LIMIT ==> l == requested.value
  {
    match requested
    case None => DefaultQueryFilter.limit
    case Some(v) => if v > MAX_LIMIT then MAX_LIMIT else v
  }

  /** `QueryFilter.from_args`: `content` and `regex` are copied, `user`,
      `group` and `limit` are read as integers, `after` and `before` as
      times; the limit is capped at MAX_LIMIT; the filter records whether
      either time was absolute. Whether a regex compiles is the predicate
      `regexOk`. */
  function FromArgs(args: map<string, string>, now: int, regexOk: string -> bool): (r: Result<QueryFilter, string>)
    ensures r.Success? <==> ArgsOk(args, now, regexOk)
    ensures "regex" in args && !regexOk(args["regex"]) ==> r == Failure("Invalid regex: " + args["regex"])
    ensures r.Success? ==> r.value.content == Lookup(args, "content") && r.value.regex == Lookup(args, "regex")
    ensures r.Success? ==> r.value.userId == IntArg(args, "user").value
    ensures r.Success? ==> r.value.groupId == IntArg(args, "group").value
    ensures r.Success? ==> r.value.limit <= MAX_LIMIT
    ensures r.Success? && "limit" !in args ==> r.value.limit == DefaultQueryFilter.limit
    ensures r.Success? ==> r.value.timeAfter == TimeArg(args, "after", now).value
    ensures r.Success? ==> r.value.timeBefore == TimeArg(args, "before", now).value
    ensures r.Success? ==> (r.value.hasAbsoluteTime <==>
              ("after" in args && IsAbsolute(args["after"])) || ("before" in args && IsAbsolute(args["before"])))
  {
    if "regex" in args && !regexOk(args["regex"]) then
      Failure("Invalid regex: " + args["regex"])
    else
      match (IntArg(args, "user"), IntArg(args, "group"), IntArg(args, "limit"))
      case (Failure(e), _, _) => Failure(e)
      case (_, Failure(e), _) => Failure(e)
      case (_, _, Failure(e)) => Failure(e)
      case (Success(user), Success(group), Success(limit)) =>
        match (TimeArg(args, "after", now), TimeArg(args, "before", now))
        case (Failure(e), _) => Failure(e)
        case (_, Failure(e)) => Failure(e)
        case (Success(after), Success(before)) =>
          var absolute := ("after" in args && IsAbsolute(args["after"])) ||
                          ("before" in args && IsAbsolute(args["before"]));
          Success(QueryFilter(group, user, Lookup(args, "content"), Lookup(args, "regex"),
                              after, before, ClampLimit(limit), absolute))
  }

  /** A requested limit above MAX_LIMIT is lowered to MAX_LIMIT. */
  lemma LimitClamped(args: map<string, string>, now: int, regexOk: string -> bool)
    requires FromArgs(args, now, regexOk).Success?
    requires "limit" in args && ParseInt(args["limit"]).Some? && ParseInt(args["limit"]).value >= MAX_LIMIT
    ensures FromArgs(args, now, regexOk).value.limit == MAX_LIMIT
  {
  }

  /** `has_message_filter`: a non-empty content or regex. */
  predicate HasMessageFilter(q: QueryFilter) {
    (q.content.Some? && q.content.value != "") || (q.regex.Some? && q.regex.value != "")
  }

  /** A filter built from arguments has a message filter exactly when a
      non-empty content or regex argument was given. */
  lemma MessageFilterFromArgs(args: map<string, string>, now: int, regexOk: string -> bool)
    requires FromArgs(args, now, regexOk).Success?
    ensures HasMessageFilter(FromArgs(args, now, regexOk).value) <==>
            ("content" in args && args["content"] != "") || ("regex" in args && args["regex"] != "")
  {
  }

  /** A digit string given for `user` or `limit` is read as its decimal
      value (a limit still capped at MAX_LIMIT). */
  lemma FromArgsReadsDigits(args: map<string, string>, now: int, regexOk: string -> bool)
    requires FromArgs(args, now, regexOk).Success?
    ensures "user" in args && IsDigits(args["user"]) ==>
              FromArgs(args, now, regexOk).value.userId == Some(DigitsValue(args["user"]))
    ensures "limit" in args && IsDigits(args["limit"]) && DigitsValue(args["limit"]) <= MAX_LIMIT ==>
              FromArgs(args, now, regexOk).value.limit == DigitsValue(args["limit"])
  {
    if "user" in args && IsDigits(args["user"]) {
      ParseIntDigits(args["user"]);
    }
    if "limit" in args && IsDigits(args["limit"]) {
      ParseIntDigits(args["limit"]);
    }
  }

  // ---------------------------------------------------------------- output

  /** The summary pieces of a filter, in order: content, regex, user, group,
      limit. */
  function ConditionParts(q: QueryFilter): (parts: seq<string>)
    ensures |parts| > 0 && parts[|parts| - 1] == "limit=" + IntToString(q.limit)
  {
    (if q.content.Some? then ["content=\"" + q.content.value + "\""] else []) +
    (if q.regex.Some? then ["regex=\"" + q.regex.value + "\""] else []) +
    (if q.userId.Some? then ["user=" + IntToString(q.userId.value)] else []) +
    (if q.groupId.Some? then ["group=" + IntToString(q.groupId.value)] else []) +
    ["limit=" + IntToString(q.limit)]
  }

  /** `format_conditions`: the pieces joined by " | ". */
  function FormatConditions(q: QueryFilter): string {
    Join(ConditionParts(q), " | ")
  }

  /** The decimal rendering of the group id in the group-query example. */
  lemma GroupIdNumeral()
    ensures IntToString(1076794521) == "1076794521"
  {
    assert NatToString(10) == "10";
    assert NatToString(107) == "107";
    assert NatToString(1076) == "1076";
    assert NatToString(10767) == "10767";
    assert NatToString(107679) == "107679";
    assert NatToString(1076794) == "1076794";
    assert NatToString(10767945) == "10767945";
    assert NatToString(107679452) == "107679452";
  }

  /** The pieces of the group-query example's summary. */
  lemma ExampleConditionParts()
    ensures ConditionParts(QueryFilter(Some(1076794521), None, Some("xyznonexistent"), None, None, None, 5, false))
            == ["content=\"xyznonexistent\"", "group=1076794521", "limit=5"]
  {
    var c, g, l := "content=\"xyznonexistent\"", "group=1076794521", "limit=5";
    GroupIdNumeral();
    assert IntToString(5) == "5";
    assert "content=\"" + "xyznonexistent" + "\"" == c;
    assert "group=" + IntToString(1076794521) == g;
    assert "limit=" + IntToString(5) == l;
    assert [c] + [] + [] + [g] + [l] == [c, g, l];
  }

  /** The summary the group query replies with: content, then group, then
      limit, joined by " | ". */
  lemma FormatConditionsExample()
    ensures FormatConditions(QueryFilter(Some(1076794521), None, Some("xyznonexistent"), None, None, None, 5, false))
            == "content=\"xyznonexistent\" | group=1076794521 | limit=5"
  {
    ExampleConditionParts();
    var c, g, l := "content=\"xyznonexistent\"", "group=1076794521", "limit=5";
    assert [c, g, l][1..] == [g, l];
    assert [g, l][1..] == [l];
    assert Join([g, l], " | ") == g + (" | " + l);
    assert Join([c, g, l], " | ") == c + (" | " + (g + (" | " + l)));
  }

  /** The summary names the content, the user and the limit whenever they
      are set. */
  lemma FormatConditionsMentions(q: QueryFilter)
    ensures q.content.Some? ==> Contains(FormatConditions(q), "content=\"" + q.content.value + "\"")
    ensures q.userId.Some? ==> Contains(FormatConditions(q), "user=" + IntToString(q.userId.value))
    ensures q.groupId.Some? ==> Contains(FormatConditions(q), "group=" + IntToString(q.groupId.value))
    ensures Contains(FormatConditions(q), "limit=" + IntToString(q.limit))
  {
    var parts := ConditionParts(q);
    JoinContains(parts, " | ", |parts| - 1);
    if q.content.Some? {
      JoinContains(parts, " | ", 0);
    }
    var u := (if q.content.Some? then 1 else 0) + (if q.regex.Some? then 1 else 0);
    if q.userId.Some? {
      assert parts[u] == "user=" + IntToString(q.userId.value);
      JoinContains(parts, " | ", u);
    }
    if q.groupId.Some? {
      var g := u + (if q.userId.Some? then 1 else 0);
      assert parts[g] == "group=" + IntToString(q.groupId.value);
      JoinContains(parts, " | ", g);
    }
  }

  /** Python's `s[:k]`, a negative `k` counting from the end. */
  function SliceTo(s: string, k: int): (r: string)
    ensures 0 <= k <= |s| ==> r == s[..k]
  {
    if k < 0 then (if |s| + k < 0 then "" else s[..|s| + k])
    else if k > |s| then s
    else s[..k]
  }

  /** `truncate_message`: text longer than `maxLen` is cut so that, with a
      trailing "...", it is exactly `maxLen` long. */
  function TruncateMessage(s: string, maxLen: nat): (r: string)
    ensures |s| <= maxLen ==> r == s
    ensures |s| > maxLen >= 3 ==> |r| == maxLen && r[maxLen - 3..] == "..." && r[..maxLen - 3] == s[..maxLen - 3]
  {
    if |s| <= maxLen then s else SliceTo(s, maxLen - 3) + "..."
  }

  /** Truncation is idempotent once the limit leaves room for the dots. */
  lemma TruncateIdempotent(s: string, maxLen: nat)
    requires maxLen >= 3
    ensures TruncateMessage(TruncateMessage(s, maxLen), maxLen) == TruncateMessage(s, maxLen)
  {
  }
}
