/** The release-note plugin's local logic: recognising a GitHub
    authentication failure, alerting the primary superuser at most once per
    key, choosing that superuser from the configuration, and the text of the
    release note. */
module ReleaseNote {
  import opened Wrappers
  import opened Text
  import opened Orders

  // ---------------------------------------------------------------- auth failures

  /** `GITHUB_AUTH_FAILURE_HINTS`. */
  const AUTH_FAILURE_HINTS: seq<string> :=
    ["bad credentials", "expired", "requires authentication", "resource not accessible by personal access token"]

  /** `_is_github_auth_failure`: a 401 or 403 whose lowered body names one of
      the hints. */
  function IsGithubAuthFailure(statusCode: int, bodyText: string): (r: bool)
    ensures statusCode != 401 && statusCode != 403 ==> !r
    ensures r ==> exists i :: 0 <= i < |AUTH_FAILURE_HINTS| && Contains(Lower(bodyText), AUTH_FAILURE_HINTS[i])
    ensures ((statusCode == 401 || statusCode == 403) &&
             exists i :: 0 <= i < |AUTH_FAILURE_HINTS| && Contains(Lower(bodyText), AUTH_FAILURE_HINTS[i])) ==> r
  {
    if statusCode != 401 && statusCode != 403 then
      false
    else
      var normalized := Lower(bodyText);
      exists i :: 0 <= i < |AUTH_FAILURE_HINTS| && Contains(normalized, AUTH_FAILURE_HINTS[i])
  }

  /** A 401 or 403 body that carries a hint, in any ASCII case and anywhere
      in the text, is an auth failure. */
  lemma AuthFailureHint(statusCode: int, pre: string, hint: string, post: string, i: nat)
    requires statusCode == 401 || statusCode == 403
    requires i < |AUTH_FAILURE_HINTS| && Lower(hint) == AUTH_FAILURE_HINTS[i]
    ensures IsGithubAuthFailure(statusCode, pre + hint + post)
  {
    LowerAppend(pre + hint, post);
    LowerAppend(pre, hint);
    ContainsInfix(Lower(pre), Lower(hint), Lower(post));
  }

  /** The case of the body never matters. */
  lemma AuthFailureIgnoresCase(statusCode: int, bodyText: string)
    ensures IsGithubAuthFailure(statusCode, Lower(bodyText)) == IsGithubAuthFailure(statusCode, bodyText)
  {
    LowerIdempotent(bodyText);
  }

  /** The alert text of `_notify_github_auth_failure`. */
  function AuthFailureMessage(statusCode: int, operation: string): (m: string)
    ensures Contains(m, "GitHub token/auth failure (" + IntToString(statusCode) + ")")
  {
    var mid := "GitHub token/auth failure (" + IntToString(statusCode) + ")";
    var post := " during " + operation + ". Check GITHUB_TOKEN and repo tag permissions.";
    ContainsInfix("[release-note] ", mid, post);
    "[release-note] " + mid + post
  }

  /** `_ALERT_KEYS_SENT` together with the alerts handed on for sending. */
  class AlertLog {
    /** The keys recorded so far. */
    var sent: set<string>
    /** Each alert passed to `_send_private_alert`, as (key, message). */
    var attempts: seq<(string, string)>

    /** Every recorded key was tried exactly once. */
    ghost predicate Valid()
      reads this
    {
      (forall i, j :: 0 <= i < j < |attempts| ==> attempts[i].0 != attempts[j].0) &&
      (forall k :: k in sent <==> exists i :: 0 <= i < |attempts| && attempts[i].0 == k)
    }

    constructor()
      ensures Valid() && sent == {} && attempts == []
    {
      sent := {};
      attempts := [];
    }

    /** `_send_private_alert_once`, where `delivered` is what
        `_send_private_alert` reports (a superuser was found, a bot was
        online and the API call succeeded). The key is recorded before the
        attempt, so a failed attempt is not repeated either. */
    method SendOnce(key: string, message: string, delivered: bool) returns (r: bool)
      requires Valid()
      modifies this
      ensures Valid()
      ensures key in old(sent) ==> !r && sent == old(sent) && attempts == old(attempts)
      ensures key !in old(sent) ==>
                r == delivered && sent == old(sent) + {key} && attempts == old(attempts) + [(key, message)]
    {
      if key in sent {
        return false;
      }
      ghost var before := attempts;
      sent := sent + {key};
      attempts := attempts + [(key, message)];
      forall k ensures k in sent <==> exists i :: 0 <= i < |attempts| && attempts[i].0 == k {
        if k == key {
          assert attempts[|before|].0 == k;
        } else {
          if i :| 0 <= i < |attempts| && attempts[i].0 == k {
            assert i < |before| && before[i].0 == k;
          }
          if i :| 0 <= i < |before| && before[i].0 == k {
            assert attempts[i] == before[i];
          }
        }
      }
      r := delivered;
    }

    /** `_notify_github_auth_failure`: alert once, and only for an auth
        failure. */
    method NotifyAuthFailure(operation: string, statusCode: int, bodyText: string, delivered: bool)
      returns (r: bool)
      requires Valid()
      modifies this
      ensures Valid()
      ensures !IsGithubAuthFailure(statusCode, bodyText) ==> !r && sent == old(sent) && attempts == old(attempts)
      ensures IsGithubAuthFailure(statusCode, bodyText) && "github-auth-invalid" !in old(sent) ==>
                r == delivered && attempts == old(attempts) + [("github-auth-invalid", AuthFailureMessage(statusCode, operation))]
      ensures "github-auth-invalid" in old(sent) ==> !r && attempts == old(attempts)
    {
      if !IsGithubAuthFailure(statusCode, bodyText) {
        return false;
      }
      r := SendOnce("github-auth-invalid", AuthFailureMessage(statusCode, operation), delivered);
    }
  }

  // ---------------------------------------------------------------- superusers

  /** What `json.loads`, or failing that `ast.literal_eval`, makes of the
      stripped SUPERUSERS text: nothing, a list, tuple or set (each item
      rendered by `str()`), a string, or some other value. */
  datatype Decoded = NotDecoded | DecodedItems(items: seq<string>) | DecodedStr(s: string) | DecodedOther

  const QUOTES: set<char> := {'"', '\''}

  /** `.strip().strip('"\'')`. */
  function Unquote(s: string): (r: string)
    ensures |r| > 0 ==> r[0] !in QUOTES && r[|r| - 1] !in QUOTES
  {
    StripChars(Strip(s), QUOTES)
  }

  /** The list-comprehension branch: non-blank items, unquoted. */
  function KeepItems(items: seq<string>): (r: seq<string>)
    ensures |r| <= |items|
    decreases |items|
  {
    if |items| == 0 then []
    else
      var init := KeepItems(items[..|items| - 1]);
      var x := items[|items| - 1];
      if Strip(x) != "" then init + [Unquote(x)] else init
  }

  /** `s.replace(a, b)` for single characters. */
  function ReplaceChar(s: string, a: char, b: char): (r: string)
    ensures |r| == |s| && forall i :: 0 <= i < |s| ==> r[i] == (if s[i] == a then b else s[i])
  {
    seq(|s|, i requires 0 <= i < |s| => if s[i] == a then b else s[i])
  }

  /** The final fallback of `_parse_superusers`: commas count as spaces, the
      text is split on whitespace, and each token loses its quotes. */
  function FallbackTokens(raw: string): (r: seq<string>)
    ensures forall k :: 0 <= k < |r| && |r[k]| > 0 ==> r[k][0] !in QUOTES && r[k][|r[k]| - 1] !in QUOTES
  {
    var ws := Words(ReplaceChar(raw, ',', ' '));
    seq(|ws|, i requires 0 <= i < |ws| => Unquote(ws[i]))
  }

  /** `_parse_superusers`. */
  function ParseSuperusers(value: string, decoded: Decoded): (r: seq<string>)
    ensures Strip(value) == "" ==> r == []
  {
    var raw := Strip(value);
    if raw == "" then []
    else
      match decoded
      case DecodedItems(items) => KeepItems(items)
      case DecodedStr(s) => if Strip(s) != "" then [Unquote(s)] else FallbackTokens(raw)
      case _ => FallbackTokens(raw)
  }

  /** A plain token is free of whitespace, commas and quotes. */
  predicate Plain(w: string) {
    |w| > 0 && NoSpace(w) && ',' !in w && '"' !in w && '\'' !in w
  }

  lemma {:induction false} ReplaceJoin(ws: seq<string>, c: char)
    requires forall k :: 0 <= k < |ws| ==> ',' !in ws[k]
    requires c == ',' || c == ' '
    ensures ReplaceChar(Join(ws, [c]), ',', ' ') == Join(ws, " ")
    decreases |ws|
  {
    if |ws| > 1 {
      ReplaceJoin(ws[1..], c);
      var tail := Join(ws[1..], [c]);
      assert Join(ws, [c]) == ws[0] + ([c] + tail);
      assert ReplaceChar(ws[0] + ([c] + tail), ',', ' ') == ws[0] + (" " + ReplaceChar(tail, ',', ' '));
    } else if |ws| == 1 {
      assert ReplaceChar(ws[0], ',', ' ') == ws[0];
    }
  }

  lemma UnquotePlain(w: string)
    requires Plain(w)
    ensures Unquote(w) == w
  {
    assert w[0] in w && w[|w| - 1] in w;
    StripUntouched(w);
    assert w[0] !in QUOTES && w[|w| - 1] !in QUOTES;
    assert TrimLeft(w, QUOTES) == w;
    assert TrimRight(w, QUOTES) == w;
  }

  /** Plain ids separated by commas or by spaces come back one by one. */
  lemma FallbackRoundTrip(ws: seq<string>, c: char)
    requires forall k :: 0 <= k < |ws| ==> Plain(ws[k])
    requires c == ',' || c == ' '
    ensures FallbackTokens(Join(ws, [c])) == ws
  {
    ReplaceJoin(ws, c);
    assert WordList(ws) by {
      forall k | 0 <= k < |ws| ensures |ws[k]| > 0 && NoSpace(ws[k]) {
        assert Plain(ws[k]);
      }
    }
    WordsOfJoin(ws);
    assert Words(ReplaceChar(Join(ws, [c]), ',', ' ')) == ws;
    var r := FallbackTokens(Join(ws, [c]));
    forall k | 0 <= k < |ws| ensures r[k] == ws[k] {
      UnquotePlain(ws[k]);
    }
  }

  /** Python's sort key `(not item.isdigit(), int(item) if item.isdigit() else item)`,
      numeric ids first and ascending by value. Ids of equal value ("01",
      "1") are ordered by their text. */
  predicate KeyLess(a: string, b: string) {
    if IsDigits(a) != IsDigits(b) then IsDigits(a)
    else if IsDigits(a) then
      DigitsValue(a) < DigitsValue(b) || (DigitsValue(a) == DigitsValue(b) && StrLess(a, b))
    else StrLess(a, b)
  }

  lemma KeyLessTotal()
    ensures StrictTotal(KeyLess)
  {
    StrLessTotal();
    forall a, b, c | KeyLess(a, b) && KeyLess(b, c) ensures KeyLess(a, c) {
      if IsDigits(a) && IsDigits(b) && IsDigits(c) {
        assert DigitsValue(a) <= DigitsValue(b) <= DigitsValue(c);
      }
    }
  }

  /** The stripped, non-blank ids of the driver's `superusers` set. */
  function Normalized(superusers: set<string>): set<string> {
    set x | x in superusers && Strip(x) != "" :: Strip(x)
  }

  /** `sorted(normalized, key=...)`. */
  function SortedFallback(superusers: set<string>): (r: seq<string>)
    ensures forall x :: x in r <==> x in Normalized(superusers)
    ensures SortedBy(r, KeyLess)
  {
    KeyLessTotal();
    SortSet(Normalized(superusers), KeyLess)
  }

  /** The candidates `_resolve_primary_superuser` walks: the parsed
      SUPERUSERS text, or the sorted driver set when that is empty. */
  function Candidates(envValue: string, decoded: Decoded, superusers: set<string>): seq<string> {
    var parsed := ParseSuperusers(envValue, decoded);
    if parsed == [] && superusers != {} then SortedFallback(superusers) else parsed
  }

  /** The value of the first all-digit candidate. */
  function FirstNumeric(cs: seq<string>): (r: Option<int>)
    ensures r.Some? ==> r.value >= 0 && exists i :: 0 <= i < |cs| && IsDigits(cs[i]) && r.value == DigitsValue(cs[i])
    decreases |cs|
  {
    if |cs| == 0 then None
    else if IsDigits(cs[0]) then Some(DigitsValue(cs[0]))
    else FirstNumeric(cs[1..])
  }

  /** `FirstNumeric` finds the earliest all-digit candidate, and nothing
      when there is none. */
  lemma {:induction false} FirstNumericMeaning(cs: seq<string>)
    ensures FirstNumeric(cs).None? <==> forall i :: 0 <= i < |cs| ==> !IsDigits(cs[i])
    ensures FirstNumeric(cs).Some? ==>
              exists i :: 0 <= i < |cs| && IsDigits(cs[i]) && FirstNumeric(cs) == Some(DigitsValue(cs[i])) &&
                          forall j :: 0 <= j < i ==> !IsDigits(cs[j])
    decreases |cs|
  {
    if |cs| > 0 && !IsDigits(cs[0]) {
      FirstNumericMeaning(cs[1..]);
      if FirstNumeric(cs).Some? {
        var i :| 0 <= i < |cs| - 1 && IsDigits(cs[1..][i]) && FirstNumeric(cs[1..]) == Some(DigitsValue(cs[1..][i])) &&
                 forall j :: 0 <= j < i ==> !IsDigits(cs[1..][j]);
        assert cs[i + 1] == cs[1..][i];
        forall j | 0 <= j < i + 1 ensures !IsDigits(cs[j]) {
          if j > 0 {
            assert cs[j] == cs[1..][j - 1];
          }
        }
      }
      if forall i :: 0 <= i < |cs| - 1 ==> !IsDigits(cs[1..][i]) {
        forall i | 0 <= i < |cs| ensures !IsDigits(cs[i]) {
          if i > 0 {
            assert cs[i] == cs[1..][i - 1];
          }
        }
      }
    }
  }

  /** Taken from the driver's set, the primary superuser is the smallest
      numeric id, and there is none when no id is numeric. */
  lemma FallbackPicksSmallest(superusers: set<string>)
    ensures var r := FirstNumeric(SortedFallback(superusers));
            (r.None? <==> forall x :: x in Normalized(superusers) ==> !IsDigits(x)) &&
            (r.Some? ==> exists x :: x in Normalized(superusers) && IsDigits(x) && r.value == DigitsValue(x) &&
                                     forall y :: y in Normalized(superusers) && IsDigits(y) ==> DigitsValue(x) <= DigitsValue(y))
  {
    var cs := SortedFallback(superusers);
    FirstNumericMeaning(cs);
    if d :| d in Normalized(superusers) && IsDigits(d) {
      var j :| 0 <= j < |cs| && cs[j] == d;
      assert IsDigits(cs[0]) by {
        if j > 0 {
          assert KeyLess(cs[0], cs[j]);
        }
      }
      forall y | y in Normalized(superusers) && IsDigits(y) ensures DigitsValue(cs[0]) <= DigitsValue(y) {
        var k :| 0 <= k < |cs| && cs[k] == y;
        if k > 0 {
          assert KeyLess(cs[0], cs[k]);
        }
      }
    }
  }

  /** `_resolve_primary_superuser`: the first all-digit candidate, as an
      integer. */
  method ResolvePrimarySuperuser(envValue: string, decoded: Decoded, superusers: set<string>)
    returns (r: Option<int>)
    ensures r == FirstNumeric(Candidates(envValue, decoded, superusers))
  {
    var candidates := ParseSuperusers(envValue, decoded);
    if candidates == [] && superusers != {} {
      candidates := SortedFallback(superusers);
    }
    for i := 0 to |candidates|
      invariant FirstNumeric(candidates) == FirstNumeric(candidates[i..])
    {
      assert candidates[i..][1..] == candidates[i + 1..];
      if IsDigits(candidates[i]) {
        return Some(DigitsValue(candidates[i]));
      }
    }
    return None;
  }

  // ---------------------------------------------------------------- the note

  /** `message.split("\n")[0]`. */
  function FirstLine(message: string): string {
    SplitOn(message, '\n')[0]
  }

  /** The first line holds no line break, and is the whole message when the
      message has none. */
  lemma {:induction false} FirstLineMeaning(message: string)
    ensures '\n' !in FirstLine(message)
    ensures '\n' !in message ==> FirstLine(message) == message
    decreases |message|
  {
    if |message| > 0 {
      FirstLineMeaning(message[1..]);
      assert message == [message[0]] + message[1..];
    }
  }

  /** The first line of the note. */
  function Header(oldVersion: Option<string>, newVersion: string): string {
    if oldVersion.Some? && oldVersion.value != "" then
      "🚀 版本更新: " + oldVersion.value + " → " + newVersion
    else
      "🚀 版本 " + newVersion + " 已部署"
  }

  /** One bullet per commit, its message's first line. */
  function Bullets(messages: seq<string>): (r: seq<string>)
    ensures |r| == |messages|
    decreases |messages|
  {
    if |messages| == 0 then [] else Bullets(messages[..|messages| - 1]) + ["  • " + FirstLine(messages[|messages| - 1])]
  }

  lemma {:induction false} BulletsAt(messages: seq<string>, i: nat)
    requires i < |messages|
    ensures Bullets(messages)[i] == "  • " + FirstLine(messages[i])
    decreases |messages|
  {
    if i < |messages| - 1 {
      BulletsAt(messages[..|messages| - 1], i);
    }
  }

  /** The lines joined by `format_release_note` when there are commits. */
  function NoteLines(messages: seq<string>, oldVersion: Option<string>, newVersion: string): seq<string> {
    [Header(oldVersion, newVersion), "", "📝 更新内容:"] + Bullets(messages)
  }

  /** `format_release_note`, with each commit given by its message. */
  method FormatReleaseNote(messages: seq<string>, oldVersion: Option<string>, newVersion: string)
    returns (note: string)
    ensures messages == [] ==> note == "版本 " + newVersion + " 已部署，无新提交"
    ensures messages != [] ==> note == Join(NoteLines(messages, oldVersion, newVersion), "\n")
  {
    if messages == [] {
      return "版本 " + newVersion + " 已部署，无新提交";
    }
    var lines: seq<string> := [];
    if oldVersion.Some? && oldVersion.value != "" {
      lines := lines + ["🚀 版本更新: " + oldVersion.value + " → " + newVersion];
    } else {
      lines := lines + ["🚀 版本 " + newVersion + " 已部署"];
    }
    lines := lines + [""];
    lines := lines + ["📝 更新内容:"];
    for i := 0 to |messages|
      invariant lines == [Header(oldVersion, newVersion), "", "📝 更新内容:"] + Bullets(messages[..i])
    {
      assert messages[..i + 1][..i] == messages[..i];
      lines := lines + ["  • " + FirstLine(messages[i])];
    }
    assert messages[..|messages|] == messages;
    note := Join(lines, "\n");
  }

  /** Read back line by line, a note with commits is the header, a blank
      line, the "更新内容" title and one bullet per commit in order, as long
      as the version strings hold no line break. */
  lemma NoteLinesRoundTrip(messages: seq<string>, oldVersion: Option<string>, newVersion: string)
    requires '\n' !in newVersion && (oldVersion.Some? ==> '\n' !in oldVersion.value)
    ensures var ls := SplitOn(Join(NoteLines(messages, oldVersion, newVersion), "\n"), '\n');
            |ls| == 3 + |messages| && ls[0] == Header(oldVersion, newVersion) && ls[1] == "" && ls[2] == "📝 更新内容:" &&
            forall i :: 0 <= i < |messages| ==> ls[3 + i] == "  • " + FirstLine(messages[i])
  {
    var ls := NoteLines(messages, oldVersion, newVersion);
    forall k | 0 <= k < |ls| ensures '\n' !in ls[k] {
      if k >= 3 {
        BulletsAt(messages, k - 3);
        FirstLineMeaning(messages[k - 3]);
      }
    }
    SplitJoin(ls, '\n');
    forall i | 0 <= i < |messages| ensures ls[3 + i] == "  • " + FirstLine(messages[i]) {
      BulletsAt(messages, i);
    }
  }
}
