/** The text helpers of the Minecraft server checker: durations such as
    `1d2h5s`, whitespace compaction, removal of Minecraft formatting codes,
    and the one-line server change messages. Times are whole seconds. */
module McFormat {
  import opened Wrappers
  import opened Text

  const MINUTE: nat := 60
  const HOUR: nat := 3600
  const DAY: nat := 86400

  // ---------------------------------------------------------------- durations

  /** One `<count><unit>` piece of a printed duration. */
  datatype Part = Part(count: nat, unit: char)

  predicate IsUnit(c: char) {
    c == 'd' || c == 'h' || c == 'm' || c == 's'
  }

  function UnitSeconds(u: char): nat {
    if u == 'd' then DAY else if u == 'h' then HOUR else if u == 'm' then MINUTE else 1
  }

  /** Position of a unit in the printed order d, h, m, s. */
  function UnitRank(u: char): nat {
    if u == 'd' then 0 else if u == 'h' then 1 else if u == 'm' then 2 else 3
  }

  /** The number of seconds the pieces add up to. */
  function Total(ps: seq<Part>): nat {
    if |ps| == 0 then 0 else ps[0].count * UnitSeconds(ps[0].unit) + Total(ps[1..])
  }

  /** Hours stay below 24, minutes and seconds below 60. */
  predicate InBounds(p: Part) {
    (p.unit == 'h' ==> p.count < 24) && (p.unit == 'm' || p.unit == 's' ==> p.count < 60)
  }

  predicate Ascending(ps: seq<Part>) {
    forall i, j :: 0 <= i < j < |ps| ==> UnitRank(ps[i].unit) < UnitRank(ps[j].unit)
  }

  /** Non-zero pieces within their bounds, in the order d, h, m, s, each unit
      ranking below `r`. */
  predicate PiecesBelow(ps: seq<Part>, r: nat) {
    Ascending(ps) &&
    forall i :: 0 <= i < |ps| ==>
      IsUnit(ps[i].unit) && ps[i].count > 0 && InBounds(ps[i]) && UnitRank(ps[i].unit) < r
  }

  /** What a printed duration looks like: the lone `0s` of a zero duration,
      or non-zero pieces within their bounds, each unit at most once and in
      the order d, h, m, s. */
  predicate Canonical(ps: seq<Part>) {
    ps == [Part(0, 's')] || (|ps| > 0 && PiecesBelow(ps, 4))
  }

  /** The pieces `_format_duration` prints for a clamped number of seconds:
      `divmod` by a day, an hour and a minute, then the printed pieces. */
  function DurationParts(total: nat): seq<Part> {
    var days, rem := total / DAY, total % DAY;
    var hours, rem2 := rem / HOUR, rem % HOUR;
    PartsOf(days, hours, rem2 / MINUTE, rem2 % MINUTE)
  }

  /** `[p]` when its count is non-zero, else nothing. */
  function Optional(p: Part): seq<Part> {
    if p.count > 0 then [p] else []
  }

  /** Zero days, hours and minutes are dropped; the seconds are kept when
      they are non-zero or nothing else was printed. */
  function PartsOf(days: nat, hours: nat, minutes: nat, secs: nat): seq<Part> {
    var ps := Optional(Part(days, 'd')) + Optional(Part(hours, 'h')) + Optional(Part(minutes, 'm'));
    if secs > 0 || |ps| == 0 then ps + [Part(secs, 's')] else ps
  }

  lemma {:induction false} TotalAppend(a: seq<Part>, b: seq<Part>)
    ensures Total(a + b) == Total(a) + Total(b)
    decreases |a|
  {
    if |a| > 0 {
      assert (a + b)[1..] == a[1..] + b;
      TotalAppend(a[1..], b);
    } else {
      assert a + b == b;
    }
  }

  lemma TotalOptional(p: Part)
    ensures Total(Optional(p)) == p.count * UnitSeconds(p.unit)
  {
    if p.count > 0 {
      assert [p][1..] == [];
    }
  }

  /** Appending a piece that ranks above everything so far. */
  lemma PiecesSnoc(ps: seq<Part>, p: Part, r: nat)
    requires PiecesBelow(ps, UnitRank(p.unit))
    requires IsUnit(p.unit) && InBounds(p) && UnitRank(p.unit) < r
    ensures PiecesBelow(ps + Optional(p), r)
  {
    if p.count > 0 {
      var qs := ps + [p];
      forall i, j | 0 <= i < j < |qs| ensures UnitRank(qs[i].unit) < UnitRank(qs[j].unit) {
        assert qs[i] == ps[i];
      }
    } else {
      assert ps + [] == ps;
    }
  }

  /** `divmod` by a day, an hour and a minute loses nothing. */
  lemma DivmodSplit(total: nat)
    ensures var rem := total % DAY;
            var rem2 := rem % HOUR;
            total == (total / DAY) * DAY + (rem / HOUR) * HOUR + (rem2 / MINUTE) * MINUTE + rem2 % MINUTE &&
            rem / HOUR < 24 && rem2 / MINUTE < 60 && rem2 % MINUTE < 60
  {
    var rem := total % 86400;
    var rem2 := rem % 3600;
    assert total == (total / 86400) * 86400 + rem;
    assert rem == (rem / 3600) * 3600 + rem2;
    assert rem2 == (rem2 / 60) * 60 + rem2 % 60;
  }

  lemma PartsOfTotal(days: nat, hours: nat, minutes: nat, secs: nat)
    ensures Total(PartsOf(days, hours, minutes, secs)) == days * DAY + hours * HOUR + minutes * MINUTE + secs
  {
    var d, h, m, sc := Part(days, 'd'), Part(hours, 'h'), Part(minutes, 'm'), Part(secs, 's');
    TotalOptional(d);
    TotalOptional(h);
    TotalOptional(m);
    TotalOptional(sc);
    TotalAppend(Optional(d), Optional(h));
    TotalAppend(Optional(d) + Optional(h), Optional(m));
    var ps := Optional(d) + Optional(h) + Optional(m);
    TotalAppend(ps, [sc]);
    assert Total([sc]) == secs by {
      assert [sc][1..] == [];
    }
  }

  lemma PartsOfCanonical(days: nat, hours: nat, minutes: nat, secs: nat)
    requires hours < 24 && minutes < 60 && secs < 60
    ensures Canonical(PartsOf(days, hours, minutes, secs))
  {
    var d, h, m := Part(days, 'd'), Part(hours, 'h'), Part(minutes, 'm');
    PiecesFirst(d);
    PiecesSnoc(Optional(d), h, 2);
    PiecesSnoc(Optional(d) + Optional(h), m, 3);
    SecondsLast(Optional(d) + Optional(h) + Optional(m), secs);
  }

  lemma PiecesFirst(p: Part)
    requires p.unit == 'd'
    ensures PiecesBelow(Optional(p), 1)
  {
  }

  /** The seconds close the pieces: kept when non-zero or alone. */
  lemma SecondsLast(ps: seq<Part>, secs: nat)
    requires PiecesBelow(ps, 3) && secs < 60
    ensures Canonical(if secs > 0 || |ps| == 0 then ps + [Part(secs, 's')] else ps)
  {
    if secs > 0 {
      PiecesSnoc(ps, Part(secs, 's'), 4);
    } else if |ps| == 0 {
      assert ps + [Part(secs, 's')] == [Part(0, 's')];
    }
  }

  /** The printed pieces are canonical and add up to the clamped seconds. */
  lemma DurationPartsMeaning(total: nat)
    ensures Canonical(DurationParts(total))
    ensures Total(DurationParts(total)) == total
  {
    var rem := total % DAY;
    var rem2 := rem % HOUR;
    DivmodSplit(total);
    PartsOfTotal(total / DAY, rem / HOUR, rem2 / MINUTE, rem2 % MINUTE);
    PartsOfCanonical(total / DAY, rem / HOUR, rem2 / MINUTE, rem2 % MINUTE);
  }

  /** The text of the pieces, one after the other. */
  function Render(ps: seq<Part>): string {
    if |ps| == 0 then "" else NatToString(ps[0].count) + [ps[0].unit] + Render(ps[1..])
  }

  /** `_format_duration`: "unknown" without a value; otherwise the value is
      clamped at 0 and printed as days, hours, minutes and seconds. */
  function FormatDuration(seconds: Option<int>): (r: string)
    ensures seconds.None? <==> r == "unknown"
  {
    match seconds
    case None => "unknown"
    case Some(s) =>
      var ps := DurationParts(if s < 0 then 0 else s);
      assert |Render(ps)| > 0 && IsUnit(Render(ps)[|Render(ps)| - 1]) by {
        DurationPartsMeaning(if s < 0 then 0 else s);
        RenderEndsInUnit(ps);
      }
      Render(ps)
  }

  lemma {:induction false} RenderEndsInUnit(ps: seq<Part>)
    requires |ps| > 0 && forall i :: 0 <= i < |ps| ==> IsUnit(ps[i].unit)
    ensures |Render(ps)| > 0 && IsUnit(Render(ps)[|Render(ps)| - 1])
    decreases |ps|
  {
    if |ps| > 1 {
      RenderEndsInUnit(ps[1..]);
    }
  }

  /** Length of the leading run of digits. */
  function DigitRun(s: string): (n: nat)
    ensures n <= |s| && forall i :: 0 <= i < n ==> IsDigit(s[i])
    decreases |s|
  {
    if |s| == 0 || !IsDigit(s[0]) then 0 else 1 + DigitRun(s[1..])
  }

  /** Reads a printed duration back into its pieces. */
  function ParseDuration(s: string): Option<seq<Part>>
    decreases |s|
  {
    if |s| == 0 then Some([])
    else
      var n := DigitRun(s);
      if n == 0 || n == |s| || !IsUnit(s[n]) then None
      else
        match ParseDuration(s[n + 1..])
        case None => None
        case Some(rest) => Some([Part(DigitsValue(s[..n]), s[n])] + rest)
  }

  lemma {:induction false} DigitRunOf(w: string, rest: string)
    requires forall i :: 0 <= i < |w| ==> IsDigit(w[i])
    requires |rest| == 0 || !IsDigit(rest[0])
    ensures DigitRun(w + rest) == |w|
    decreases |w|
  {
    if |w| > 0 {
      assert (w + rest)[1..] == w[1..] + rest;
      DigitRunOf(w[1..], rest);
    }
  }

  /** Reading the text of any pieces gives the same pieces back. */
  lemma {:induction false} ParseRender(ps: seq<Part>)
    requires forall i :: 0 <= i < |ps| ==> IsUnit(ps[i].unit)
    ensures ParseDuration(Render(ps)) == Some(ps)
    decreases |ps|
  {
    if |ps| > 0 {
      var w := NatToString(ps[0].count);
      var tail := Render(ps[1..]);
      var s := Render(ps);
      NatToStringRoundTrip(ps[0].count);
      assert s == w + ([ps[0].unit] + tail);
      DigitRunOf(w, [ps[0].unit] + tail);
      assert s[..|w|] == w;
      assert s[|w|] == ps[0].unit;
      assert s[|w| + 1..] == tail;
      ParseRender(ps[1..]);
      assert ps == [ps[0]] + ps[1..];
    }
  }

  /** A printed duration reads back as canonical pieces adding up to the
      clamped number of seconds: every whole number of seconds has exactly
      the text `_format_duration` gives it. */
  lemma FormatDurationReadsBack(t: int)
    ensures var ps := ParseDuration(FormatDuration(Some(t)));
            ps.Some? && Canonical(ps.value) && Total(ps.value) == (if t < 0 then 0 else t)
  {
    var total := if t < 0 then 0 else t;
    DurationPartsMeaning(total);
    ParseRender(DurationParts(total));
  }

  /** Whole minutes print as minutes alone: 300 s is `5m`, 600 s `10m` and
      900 s `15m`. */
  lemma FormatDurationExamples()
    ensures FormatDuration(Some(300)) == "5m"
    ensures FormatDuration(Some(600)) == "10m"
    ensures FormatDuration(Some(900)) == "15m"
    ensures FormatDuration(Some(-5)) == "0s"
  {
    WholeMinutes(5);
    WholeMinutes(10);
    WholeMinutes(15);
    TwoDigits(1, 0);
    TwoDigits(1, 5);
    assert DurationParts(0) == [Part(0, 's')];
    RenderOne(Part(0, 's'));
  }

  lemma TwoDigits(a: nat, b: nat)
    requires 0 < a < 10 && b < 10
    ensures NatToString(a * 10 + b) == [DigitChar(a), DigitChar(b)]
  {
    assert (a * 10 + b) / 10 == a && (a * 10 + b) % 10 == b;
  }

  lemma RenderOne(p: Part)
    ensures Render([p]) == NatToString(p.count) + [p.unit]
  {
    assert [p][1..] == [];
  }

  lemma WholeMinutes(n: nat)
    requires 0 < n < 60
    ensures FormatDuration(Some(n * MINUTE)) == NatToString(n) + "m"
  {
    var total := n * 60;
    assert total / 86400 == 0 && total % 86400 == total;
    assert total / 3600 == 0 && total % 3600 == total;
    assert total / 60 == n && total % 60 == 0;
    assert DurationParts(total) == [Part(n, 'm')];
    RenderOne(Part(n, 'm'));
  }

  // ---------------------------------------------------------------- text

  /** `_compact_text`: None becomes "", otherwise the words joined by single
      spaces (carriage returns and newlines count as whitespace). */
  function CompactText(text: Option<string>): string {
    match text
    case None => ""
    case Some(t) => Join(Words(t), " ")
  }

  /** Compacting keeps the words, leaves no line breaks and is idempotent. */
  lemma CompactTextMeaning(t: string)
    ensures Words(CompactText(Some(t))) == Words(t)
    ensures '\n' !in CompactText(Some(t)) && '\r' !in CompactText(Some(t))
    ensures CompactText(Some(CompactText(Some(t)))) == CompactText(Some(t))
  {
    var ws := Words(t);
    WordsOfJoin(ws);
    forall k | 0 <= k < |ws| ensures '\n' !in ws[k] && '\r' !in ws[k] {
      assert forall i :: 0 <= i < |ws[k]| ==> !IsSpace(ws[k][i]);
    }
    JoinAvoids(ws, " ", '\n');
    JoinAvoids(ws, " ", '\r');
  }

  const SECTION: char := '§'

  predicate IsHexDigit(c: char) {
    '0' <= c <= '9' || 'a' <= c <= 'f' || 'A' <= c <= 'F'
  }

  /** The characters that may follow the section sign in a formatting code:
      colours 0-9, a-f and styles k-o, r, in either case. */
  predicate IsCodeChar(c: char) {
    '0' <= c <= '9' || 'a' <= c <= 'f' || 'A' <= c <= 'F' || 'k' <= c <= 'o' ||
    'K' <= c <= 'O' || c == 'r' || c == 'R'
  }

  /** A hex colour `§x§r§r§g§g§b§b` starts at the front of `s`. */
  predicate HexCodeAt(s: string) {
    |s| >= 14 && s[0] == SECTION && s[1] == 'x' &&
    forall k :: 0 <= k < 6 ==> s[2 + 2 * k] == SECTION && IsHexDigit(s[3 + 2 * k])
  }

  /** A two-character formatting code starts at the front of `s`. */
  predicate CodeAt(s: string) {
    |s| >= 2 && s[0] == SECTION && IsCodeChar(s[1])
  }

  /** `re.sub` of the hex colour pattern: matches are found left to right and
      do not overlap. */
  function RemoveHexCodes(s: string): (r: string)
    ensures |r| <= |s|
    decreases |s|
  {
    if |s| == 0 then ""
    else if HexCodeAt(s) then RemoveHexCodes(s[14..])
    else [s[0]] + RemoveHexCodes(s[1..])
  }

  /** `re.sub` of the two-character code pattern. */
  function RemoveCodes(s: string): (r: string)
    ensures |r| <= |s|
    decreases |s|
  {
    if |s| == 0 then ""
    else if CodeAt(s) then RemoveCodes(s[2..])
    else [s[0]] + RemoveCodes(s[1..])
  }

  /** `str.replace(c, "")`. */
  function RemoveChar(s: string, c: char): (r: string)
    ensures c !in r
    ensures |r| <= |s|
    decreases |s|
  {
    if |s| == 0 then ""
    else if s[0] == c then RemoveChar(s[1..], c)
    else [s[0]] + RemoveChar(s[1..], c)
  }

  /** `_strip_minecraft_formatting`. */
  function StripFormatting(text: string): string {
    if text == "" then "" else RemoveChar(RemoveCodes(RemoveHexCodes(text)), SECTION)
  }

  lemma {:induction false} RemoveHexCodesPlain(s: string)
    requires SECTION !in s
    ensures RemoveHexCodes(s) == s
    decreases |s|
  {
    if |s| > 0 {
      assert !HexCodeAt(s) by {
        assert s[0] in s;
      }
      RemoveHexCodesPlain(s[1..]);
      assert s == [s[0]] + s[1..];
    }
  }

  lemma {:induction false} RemoveCodesPlain(s: string)
    requires SECTION !in s
    ensures RemoveCodes(s) == s
    decreases |s|
  {
    if |s| > 0 {
      assert !CodeAt(s) by {
        assert s[0] in s;
      }
      RemoveCodesPlain(s[1..]);
      assert s == [s[0]] + s[1..];
    }
  }

  lemma {:induction false} RemoveCharAbsent(s: string, c: char)
    requires c !in s
    ensures RemoveChar(s, c) == s
    decreases |s|
  {
    if |s| > 0 {
      assert s[0] in s;
      RemoveCharAbsent(s[1..], c);
      assert s == [s[0]] + s[1..];
    }
  }

  /** No section sign survives; text without one is left alone, so
      stripping twice is stripping once. */
  lemma StripFormattingMeaning(text: string)
    ensures SECTION !in StripFormatting(text)
    ensures SECTION !in text ==> StripFormatting(text) == text
    ensures StripFormatting(StripFormatting(text)) == StripFormatting(text)
  {
    if SECTION !in text && text != "" {
      RemoveHexCodesPlain(text);
      RemoveCodesPlain(text);
      RemoveCharAbsent(text, SECTION);
    }
    var once := StripFormatting(text);
    if once != "" {
      RemoveHexCodesPlain(once);
      RemoveCodesPlain(once);
      RemoveCharAbsent(once, SECTION);
    }
  }

  // ---------------------------------------------------------------- messages

  /** `ServerCheckResult`: the outcome of one status query. */
  datatype CheckResult = CheckResult(
    ip: string,
    online: bool,
    version: Option<string>,
    motd: Option<string>,
    playersOnline: int,
    playersMax: int,
    playerSample: seq<string>,
    pingMs: Option<int>,
    error: Option<string>)

  /** The time since `since`, or "unknown" when it was never recorded. */
  function Elapsed(since: Option<int>, now: int): string {
    match since
    case None => "unknown"
    case Some(t) => FormatDuration(Some(now - t))
  }

  /** `_format_change_message`: a server that came up reports how long it was
      offline, one that went down how long it was up. */
  function FormatChangeMessage(result: CheckResult, lastSeenOnlineAt: Option<int>,
                               onlineSince: Option<int>, now: int): string
  {
    if result.online then ChangeLine("[+] server ", result.ip, " | offline for: " + Elapsed(lastSeenOnlineAt, now))
    else ChangeLine("[-] server ", result.ip, " | online for: " + Elapsed(onlineSince, now))
  }

  function ChangeLine(head: string, ip: string, tail: string): string {
    head + ip + tail
  }

  /** The message names the server and only depends on the timestamp that
      matters for the direction of the change. */
  lemma ChangeMessageMeaning(result: CheckResult, lastSeen: Option<int>, since: Option<int>,
                             lastSeen2: Option<int>, since2: Option<int>, now: int)
    ensures Contains(FormatChangeMessage(result, lastSeen, since, now), result.ip)
    ensures FormatChangeMessage(result, lastSeen, since, now)[..4] == if result.online then "[+] " else "[-] "
    ensures result.online ==>
              FormatChangeMessage(result, lastSeen, since, now) == FormatChangeMessage(result, lastSeen, since2, now)
    ensures !result.online ==>
              FormatChangeMessage(result, lastSeen, since, now) == FormatChangeMessage(result, lastSeen2, since, now)
  {
    if result.online {
      MessageShape("[+] server ", result.ip, " | offline for: " + Elapsed(lastSeen, now));
    } else {
      MessageShape("[-] server ", result.ip, " | online for: " + Elapsed(since, now));
    }
  }

  /** A message made of a head, the server address and a tail names the
      server and starts like its head. */
  lemma MessageShape(head: string, ip: string, tail: string)
    requires |head| >= 4
    ensures Contains(ChangeLine(head, ip, tail), ip) && ChangeLine(head, ip, tail)[..4] == head[..4]
  {
    ContainsInfix(head, ip, tail);
  }

  /** A server last seen 300 s before `now` reports `offline for: 5m`; one
      up for 900 s reports `online for: 15m`. */
  lemma ChangeMessageExamples(ip: string, now: int)
    ensures FormatChangeMessage(CheckResult(ip, true, None, None, 0, 0, [], None, None), Some(now - 300), None, now)
            == "[+] server " + ip + " | offline for: 5m"
    ensures FormatChangeMessage(CheckResult(ip, false, None, None, 0, 0, [], None, None), None, Some(now - 900), now)
            == "[-] server " + ip + " | online for: 15m"
  {
    FormatDurationExamples();
    assert now - (now - 300) == 300 && now - (now - 900) == 900;
  }
}
