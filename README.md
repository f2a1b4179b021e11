# ttd-bot core, modelled in Dafny

This project models the logic of ttd-bot, a group-chat bot built as a set of
plugins. It covers the plugins' own logic and leaves out the chat framework
they run in. The modules follow the plugins:

- `cache_model.dfy` and `hot_cold_cache.dfy` model the chat-query result cache:
  - `CacheEntry.make_key`;
  - the weak-match predicate and the time-coverage classification (exact, fuzzy, incremental or none), driven by the overlap ratio;
  - the two LRU tiers of `HotColdCache`, as a class: `get`, `put`, `update_entry`, `clear`, `stats`, and reloading from a snapshot.

  The cache's own source is not part of this model. Its behaviour is taken
  from the cache tests, which fix its key format, its match kinds and the
  main cases of its matching and eviction; the remaining choices are listed
  under "Left out".
- `query_args.dfy` and `query_time.dfy` model the query-chat command's argument handling:
  - `parse_query_args` (`key=value` tokens with quoting);
  - `QueryFilter.from_args` with its limit clamp and `has_message_filter`;
  - `format_conditions` and `truncate_message`;
  - `parse_time`: absolute dates and date-times read as UTC+8, and relative day or hour counts before the current time.

  The query-chat plugin's source is not part of this model either. Its
  behaviour comes from its tests where they fix it; the remaining choices are
  listed under "Left out".
- `mc_format.dfy`, `mc_storage.dfy`, `mc_presence.dfy` and `mc_checker.dfy` model the Minecraft server checker:
  - the duration and change-message texts and the formatting-code stripping;
  - the nested JSON store of watched servers (`storage.py`), as a class over a JSON value;
  - the per-player join/leave diff, as a class over the presence tables;
  - the online/offline transition of a server entry;
  - the collection of a group's servers to poll.
- `chat_stats.dfy` models `ChatStatistics` and `ActiveStatistics`, each a class:
  - hourly counters per UTC+8 local hour;
  - distinct active dates per hour;
  - their percentages and text;
  - the per-user and per-group statistics loops.
- `user_storage.dfy` models the auto-react plugin's `UserStorage`: a set of ids, saved as a sorted JSON list after each change.
- `auto_ping.dfy` models:
  - the alias table and alias matching;
  - the one-hour member-list cache;
  - the mentions sent.
- `release_note.dfy` models:
  - the GitHub auth-failure predicate;
  - the once-per-key alert log;
  - superuser candidate parsing and selection;
  - the release-note text.
- `citation.dfy` models the citation counter's reply rule and its reply handler.
- `wrappers.dfy`, `text.dfy`, `orders.dfy` and `dicts.dfy` are shared helpers:
  - `Option`;
  - strings, including `split`, `join`, `strip`, ASCII `lower` and `casefold`, and integer parsing and printing;
  - string and integer orders with set sorting;
  - Python dictionaries as ordered association lists.

Time is integer seconds. The clock, the network, files and the chat API are
parameters: a file's content, the API's answer, whether a message was
delivered. Floating-point values are kept as exact ratios.

## Model

| member | source | states |
|---|---|---|
| CacheModel.MatchType.Value | tests/test_cache.py:111-118 | NO_MATCH is 0, EXACT_MATCH 1, FUZZY_TIME 2 and PARTIAL_OVERLAP 3, each value naming exactly one kind |
| CacheModel.MakeKey | tests/test_cache.py:37-65 | `make_key`: the six filter fields rendered and joined with ':'; its meaning and injectivity are stated by `MakeKeyIsJoin` and `MakeKeyInjective` |
| CacheModel.MakeKeyIsJoin | tests/test_cache.py:37-65 | the key is the six rendered filter fields joined with ':' (missing values as "None") |
| CacheModel.MakeKeyExamples | tests/test_cache.py:37-65 | the two pinned layouts: "123:456:hello:test.*:1000:2000" and "123:None:None:None:None:None" |
| CacheModel.ExampleLiterals | tests/test_cache.py:50 | the literal concatenations behind the pinned key layouts |
| CacheModel.ExampleNumerals | tests/test_cache.py:41-48 | the decimal renderings of the pinned field values |
| CacheModel.RenderIntAvoidsColon | tests/test_cache.py:37-65 | a rendered integer field never contains the ':' separator |
| CacheModel.KeySplitsIntoFields | tests/test_cache.py:37-65 | splitting a key on ':' gives back the six fields when content and regex hold no ':' |
| CacheModel.RenderIntInjective | tests/test_cache.py:52-65 | distinct optional integers render to distinct key fields |
| CacheModel.RenderStrInjective | tests/test_cache.py:52-65 | distinct optional texts render distinctly unless a text is "None" or holds ':' |
| CacheModel.MakeKeyInjective | tests/test_cache.py:37-65 | for key-safe entries, equal keys exactly when the six filter fields are equal |
| CacheModel.MakeKeyCollisions | tests/test_cache.py:37-65 | content "None" collides with no content, and a ':' moved between content and regex collides |
| CacheModel.CopyFilterOnly | tests/test_cache.py:67-88 | the copy keeps the filter and the key, has no messages and a zero count |
| CacheModel.Truncated | tests/test_cache.py:948-983 | `put` keeps the first MAX_MESSAGES_PER_ENTRY messages, the filter and the key |
| CacheModel.WeakMatch | tests/test_cache.py:240-300 | same group, same regex, a stored user equal to the query's, stored content contained in the query's; the refusals are stated by `WeakMatchRefusals` |
| CacheModel.WeakMatchRefusals | tests/test_cache.py:240-300 | no match when the groups differ, the regexes differ, a stored user differs, or stored content is not a substring of the query's |
| CacheModel.BroaderEntryMatches | tests/test_cache.py:302-338 | an entry with no user and a content inside the query's content serves the query |
| CacheModel.WeakMatchSelf | tests/test_cache.py:124-163 | an entry matches the query with its own filter fields |
| CacheModel.OverlapRatio | tests/test_cache.py:701-787 | the ratio is the intersection over the query duration, within [0, 1]: 1 when the stored window covers the query, 0 for disjoint windows or an empty query window |
| CacheModel.OverlapRatioExamples | tests/test_cache.py:704-787 | the pinned ratios 1, 1/2 and 0 |
| CacheModel.Uncovered | tests/test_cache.py:574-618 | the uncovered recent stretch of the query window is never negative |
| CacheModel.Classify | tests/test_cache.py:445-698 | exact on coverage, then fuzzy, then incremental by the overlap ratio; each case, in both directions, is stated by `ClassifyCases` |
| CacheModel.ClassifyCases | tests/test_cache.py:445-698 | exact iff the stored window covers the query; fuzzy iff not covered, no absolute time, ratio > 0.9 and less than 600 s uncovered; incremental iff neither of those and ratio > 0.4 |
| CacheModel.ThresholdExamples | tests/test_cache.py:485-618 | for any current time: 3480 of 3600 s covered with 120 s uncovered gives a fuzzy answer; the same query with an absolute time needs an incremental fetch; 900 s uncovered needs an incremental fetch |
| CacheModel.NoOverlapNoMatch | tests/test_cache.py:662-698 | disjoint windows, or an empty uncovered query window, give no match |
| CacheModel.MissingRanges | tests/test_cache.py:620-660 | at most two missing ranges, before and after the stored window |
| CacheModel.MissingRangesComplete | tests/test_cache.py:620-660 | every instant of the query window is stored or in a missing range, and no missing range touches the stored window |
| CacheModel.MissingRangesExample | tests/test_cache.py:620-660 | stored [1000, 2000] against query [1500, 2500] misses exactly (2001, 2500) |
| CacheModel.KeptPositions | tests/test_cache.py:302-410 | the positions of the stored messages that pass the filter, strictly increasing, with a position listed exactly when its message passes |
| CacheModel.FilterMessages | tests/test_cache.py:302-410 | a message is returned exactly when it is stored and passes the query's user, content and time filter; the result lists the kept messages in stored order, each as often as it is stored (`ListsKept`) |
| CacheModel.TryEntry | tests/test_cache.py:124-698 | a result exactly on a weak match with a time class other than none; fuzzy and incremental flags and missing ranges follow the class; messages are the stored ones inside both windows that pass the filter |
| CacheModel.TryEntryKeepsOrder | tests/test_cache.py:302-410 | an answer lists the kept messages in stored order, each as often as it is stored (`ListsKept`) |
| CacheModel.ExactResultInQueryWindow | tests/test_cache.py:445-483 | on an exact match every returned message lies inside the query window |
| HotColdCacheModel.RemoveKeyProps | tests/test_cache.py:989-1039 | deleting a key leaves exactly the other keys, changes nothing when the key is absent, and keeps keys distinct |
| HotColdCacheModel.MoveToEndDistinct | tests/test_cache.py:855-891 | moving an entry to the most-recent end keeps the tier free of repeated keys |
| HotColdCacheModel.Rebalance | tests/test_cache.py:793-853 | after an insert the tiers are back within capacity; across both tiers the most recent hotSize + coldSize entries survive, in order, and the hot tier loses at most its oldest entry |
| HotColdCacheModel.RebalanceKeepsDistinct | tests/test_cache.py:793-853 | demotion and eviction keep both tiers within capacity and free of repeated keys |
| HotColdCacheModel.RebalanceAddsNoKey | tests/test_cache.py:793-853 | demotion and eviction never bring a key into either tier |
| HotColdCacheModel.PutCombined | tests/test_cache.py:793-853 | across both tiers a put is: remove the key, append the entry, keep the most recent hotSize + coldSize (least-recently-used replacement) |
| HotColdCacheModel.PutKeepsTiersOk | tests/test_cache.py:209-234 | a put keeps both tiers within capacity and free of repeated keys |
| HotColdCacheModel.PutStoresInHot | tests/test_cache.py:948-983 | the new entry is the hot tier's newest, under `make_key`, with at most MAX_MESSAGES_PER_ENTRY messages |
| HotColdCacheModel.PutFresh | tests/test_cache.py:793-823 | a new key is appended across the tiers and the hot tier grows by one up to its capacity |
| HotColdCacheModel.PutItems | tests/test_cache.py:209-234 | a run of inserts keeps both tiers within capacity |
| HotColdCacheModel.PutAll | tests/test_cache.py:209-234 | a run of `put` calls keeps both tiers within capacity |
| HotColdCacheModel.PutAllIsPutItems | tests/test_cache.py:948-983 | a run of `put` calls inserts each entry under its key with its truncated messages |
| HotColdCacheModel.StoredKeysDistinct | tests/test_cache.py:793-853 | entries with distinct filters get distinct keys |
| HotColdCacheModel.PutItemsKeepMostRecent | tests/test_cache.py:793-853 | from empty tiers, inserting distinct keys keeps exactly the most recent hotSize + coldSize, with min(n, hotSize) in the hot tier |
| HotColdCacheModel.PutsKeepMostRecent | tests/test_cache.py:793-853 | after n puts of distinct filters the tiers hold the most recent hotSize + coldSize entries, min(n, hotSize) of them hot, so with hot=2, cold=3 and 6 puts the first entry is gone |
| HotColdCacheModel.FindInTier | tests/test_cache.py:855-891 | the result is the most recently used entry of the tier that can answer the query, with its position; none when no entry can |
| HotColdCacheModel.FindInTierStep | tests/test_cache.py:855-891 | the search looks at the newest entry first and moves on to older ones |
| HotColdCacheModel.PromoteColdShape | tests/test_cache.py:855-891 | a promotion appends the cold entry to the hot tier and demotes at most the hot tier's oldest entry, never evicting |
| HotColdCacheModel.GetAnswersIffUsable | tests/test_cache.py:124-178 | `get` answers exactly when some cached entry can answer, and its answer is that of a cached entry |
| HotColdCacheModel.GetMissUnchanged | tests/test_cache.py:165-178 | a miss leaves both tiers unchanged |
| HotColdCacheModel.TouchHotKeepsTiersOk | tests/test_cache.py:855-891 | a hot hit keeps the tiers within capacity and free of repeated keys |
| HotColdCacheModel.PromoteColdKeepsTiersOk | tests/test_cache.py:855-891 | a cold hit keeps the tiers within capacity and free of repeated keys |
| HotColdCacheModel.PromoteColdMovesKey | tests/test_cache.py:855-891 | a promoted entry is in the hot tier and no longer in the cold tier |
| HotColdCacheModel.PromotedIsNewest | tests/test_cache.py:855-891 | a promoted entry becomes the hot tier's newest |
| HotColdCacheModel.GetKeepsTiersOk | tests/test_cache.py:855-891 | `get` keeps both tiers within capacity and free of repeated keys |
| HotColdCacheModel.HotHitBecomesMostRecent | tests/test_cache.py:855-891 | a hot hit moves the entry to the hot tier's newest end and leaves the cold tier alone |
| HotColdCacheModel.ColdHitPromotes | tests/test_cache.py:855-891 | after a cold hit the entry's key is in the hot tier and not in the cold tier |
| HotColdCacheModel.PutThenGetIsExact | tests/test_cache.py:124-163 | putting an entry and querying exactly its filter gives an exact, non-fuzzy, non-incremental hit whose messages are the stored ones that pass the query's filter, in stored order |
| HotColdCacheModel.PutThenGetExample | tests/test_cache.py:124-163 | the test's put of one message "hello" at 1500 in [1000, 2000] followed by the same query returns exactly that one message, neither fuzzy nor incremental |
| HotColdCacheModel.UpdateReplaces | tests/test_cache.py:989-1039 | after `update_entry` the old key is in neither tier and the new entry is the hot tier's newest, with its messages |
| HotColdCacheModel.LoadItems | tests/test_cache.py:894-927 | a reloaded snapshot fits the cold tier and holds no repeated key |
| HotColdCacheModel.LoadCold | tests/test_cache.py:894-943 | the reloaded cold tier fits and has no repeated key; no snapshot (missing or corrupt file) gives an empty tier |
| HotColdCacheModel.LoadItemsRestores | tests/test_cache.py:894-927 | a snapshot without repeated keys that fits is restored whole and in order |
| HotColdCacheModel.ReloadKeepsEverything | tests/test_cache.py:894-927 | reloading what a cache persisted (both tiers) puts every entry into the new cold tier when they fit |
| HotColdCacheModel.ClearedCacheMisses | tests/test_cache.py:179-207 | an emptied cache answers nothing |
| HotColdCacheModel.HotColdCache.constructor | tests/test_cache.py:894-943 | an empty hot tier and the reloaded snapshot in the cold tier |
| HotColdCacheModel.HotColdCache.Put | tests/test_cache.py:793-853 | the tiers become the specified put of the old tiers, within capacity and without repeated keys; the persisted snapshot follows |
| HotColdCacheModel.HotColdCache.FindIn | tests/test_cache.py:855-891 | the newest-first scan of a tier returns the specified search result |
| HotColdCacheModel.HotColdCache.Promote | tests/test_cache.py:855-891 | the tiers become the specified promotion of the old tiers |
| HotColdCacheModel.HotColdCache.Get | tests/test_cache.py:124-178 | result and new tiers are the specified lookup of the old tiers |
| HotColdCacheModel.HotColdCache.UpdateEntry | tests/test_cache.py:989-1039 | the tiers become the specified removal of the old key followed by a put |
| HotColdCacheModel.HotColdCache.Clear | tests/test_cache.py:179-207 | both tiers and the persisted snapshot are empty |
| HotColdCacheModel.HotColdCache.Stats | tests/test_cache.py:209-234 | the counts are the tier sizes and never exceed the capacities |
| QueryArgs.KeyLen | tests/test_query_chat.py:74-105 | the key is the longest leading run of word characters |
| QueryArgs.IndexOf | tests/test_query_chat.py:82-105 | the position found is that of the first occurrence, and none means the character is absent |
| QueryArgs.ValueAt | tests/test_query_chat.py:74-105 | a value is read exactly when the text after '=' is non-empty and does not start with whitespace |
| QueryArgs.TokenAt | tests/test_query_chat.py:74-105 | a match starts with a word-character key followed by '=' and lies inside the text |
| QueryArgs.ToDict | tests/test_query_chat.py:74-105 | the dict has exactly the keys of the pairs |
| QueryArgs.ToDictLastWins | tests/test_query_chat.py:74-105 | a key maps to the value of its last pair |
| QueryArgs.QuotedValue | tests/test_query_chat.py:82-105 | a quoted value is everything between the quotes, without them |
| QueryArgs.UnquotedValue | tests/test_query_chat.py:90-97 | an unquoted value stops at the first whitespace |
| QueryArgs.KeyThenValue | tests/test_query_chat.py:74-105 | a key, '=' and a readable value form one match |
| QueryArgs.QuotedToken | tests/test_query_chat.py:82-105 | a quoted value keeps its inner spaces and loses its quotes |
| QueryArgs.UnquotedToken | tests/test_query_chat.py:90-97 | an unquoted value runs to the next whitespace |
| QueryArgs.PairsSkipSpace | tests/test_query_chat.py:74-105 | leading whitespace produces no match |
| QueryArgs.PairsOfRendered | tests/test_query_chat.py:74-105 | tokenizing rendered `key="value"` arguments gives the same pairs back, in order |
| QueryArgs.ParseQueryArgs | tests/test_query_chat.py:74-105 | the dict of the `key=value` pairs, later keys winning; its round trip with rendering is stated by `ParseRenderedArgs` |
| QueryArgs.ParseRenderedArgs | tests/test_query_chat.py:74-105 | `parse_query_args` of rendered arguments is the dict of the pairs (round trip) |
| QueryArgs.PairsAfterToken | tests/test_query_chat.py:74-105 | a match at the start is kept and the scan resumes after it |
| QueryArgs.PairsOfTwo | tests/test_query_chat.py:74-105 | two matches separated by a space give two pairs |
| QueryArgs.ParseQuotedThenBare | tests/test_query_chat.py:82-97 | `k1="v 1" k2=v2` parses to {k1: "v 1", k2: "v2"} |
| QueryArgs.ParseTwoQuoted | tests/test_query_chat.py:99-105 | two single- or double-quoted values parse without their quotes |
| QueryArgs.Lookup | tests/test_query_chat.py:160-172 | `args.get(key)`: present exactly when the key is, with its value |
| QueryArgs.ClampLimit | tests/test_query_chat.py:197-202 | the limit never exceeds MAX_LIMIT, defaults to 20, and a smaller request is kept |
| QueryArgs.FromArgs | tests/test_query_chat.py:160-202 | success exactly on well-formed arguments; an invalid regex fails with "Invalid regex: …"; content, regex, user, group, limit and time bounds are taken from the arguments; absolute time flagged exactly for absolute bounds |
| QueryArgs.LimitClamped | tests/test_query_chat.py:197-202 | a limit at or above MAX_LIMIT becomes MAX_LIMIT |
| QueryArgs.HasMessageFilter | tests/test_query_chat.py:174-188 | a non-empty content or regex is set; stated for filters built from arguments by `MessageFilterFromArgs` |
| QueryArgs.MessageFilterFromArgs | tests/test_query_chat.py:174-188 | the filter has a message filter exactly when a non-empty content or regex was given |
| QueryArgs.FromArgsReadsDigits | tests/test_query_chat.py:160-172 | digit strings for `user` and `limit` become their decimal values |
| QueryArgs.ConditionParts | tests/test_query_chat.py:309-321 | the summary always ends with `limit=N` |
| QueryArgs.FormatConditions | tests/test_query_chat.py:263-281 | the set conditions in the order content, regex, user, group, limit, joined by a vertical bar between spaces; the group query's exact summary is stated by `FormatConditionsExample`, and which conditions it mentions by `FormatConditionsMentions` |
| QueryArgs.ExampleConditionParts | tests/test_query_chat.py:263-281 | that query's summary pieces are exactly the content, group and limit pieces, in that order |
| QueryArgs.FormatConditionsExample | tests/test_query_chat.py:263-281 | the group query with content "xyznonexistent", group 1076794521 and limit 5 is summarised exactly as `content="xyznonexistent"`, `group=1076794521`, `limit=5` joined by a vertical bar between spaces |
| QueryArgs.FormatConditionsMentions | tests/test_query_chat.py:309-321 | the summary contains `content="…"`, `user=…`, `group=…` when set, and `limit=…` |
| QueryArgs.SliceTo | tests/test_query_chat.py:287-297 | Python slicing `s[:k]` for a non-negative k |
| QueryArgs.TruncateMessage | tests/test_query_chat.py:287-297 | short text is unchanged; longer text becomes exactly maxLen characters when maxLen >= 3, its prefix followed by "..." |
| QueryArgs.TruncateIdempotent | tests/test_query_chat.py:287-297 | truncating twice is truncating once |
| QueryTime.DaysInMonth | tests/test_query_chat.py:130-147 | months have 28 to 31 days, and February has 29 exactly in leap years |
| QueryTime.DaysBeforeMonth | tests/test_query_chat.py:130-147 | no days precede January |
| QueryTime.DaysBeforeNextMonth | tests/test_query_chat.py:130-147 | each month starts where the previous one ends |
| QueryTime.DaysBeforeYearEnd | tests/test_query_chat.py:130-147 | December ends where the year ends |
| QueryTime.DaysFromEpochCounts | tests/test_query_chat.py:130-147 | day numbers start at 1970-01-01 and grow by exactly one from each valid date to the next |
| QueryTime.ParseDate | tests/test_query_chat.py:130-138 | an accepted "YYYY-MM-DD" is a valid calendar date |
| QueryTime.ParseClock | tests/test_query_chat.py:140-147 | an accepted "HH:MM" is a valid time of day |
| QueryTime.ParseAbsolute | tests/test_query_chat.py:130-147 | reads only a 10-character date or a 16-character date-time with a space and a colon; its instants are stated by `ParseTimeOfDate` and `ParseTimeOfDateTime` |
| QueryTime.ParseRelative | tests/test_query_chat.py:111-128 | a count of days or hours before now: any result is at or before now by whole hours, and only text ending in `d` or `h` reads |
| QueryTime.ParseTime | tests/test_query_chat.py:111-154 | the empty string gives None; an absolute date or date-time gives its instant; any other text falls through to the relative form, and None comes back exactly when neither form reads it |
| QueryTime.Padded | tests/test_query_chat.py:130-147 | zero padding has exactly the requested width |
| QueryTime.PaddedRoundTrip | tests/test_query_chat.py:130-147 | padded digits read back as the number |
| QueryTime.FormatDate | tests/test_query_chat.py:130-138 | a written date is 10 characters long |
| QueryTime.FormatClock | tests/test_query_chat.py:140-147 | a written time of day is 5 characters long |
| QueryTime.FieldOfPadded | tests/test_query_chat.py:130-147 | a padded field reads back as its number |
| QueryTime.ParseFormattedDate | tests/test_query_chat.py:130-138 | parsing a written date gives the date back |
| QueryTime.ParseFormattedClock | tests/test_query_chat.py:140-147 | parsing a written time of day gives it back |
| QueryTime.ParseTimeOfDate | tests/test_query_chat.py:130-138 | any written date reads as midnight of that day in UTC+8 |
| QueryTime.ParseTimeOfDateTime | tests/test_query_chat.py:140-147 | any written date and time reads as that minute in UTC+8 |
| QueryTime.ParseTimeRejects | tests/test_query_chat.py:149-154 | "" and "invalid" are not times |
| QueryTime.FormatNewYear2025 | tests/test_query_chat.py:130-138 | 2025-01-01 is written "2025-01-01" |
| QueryTime.FormatHalfPastTwelve | tests/test_query_chat.py:140-147 | 12:30 on 2025-01-01 is written "2025-01-01 12:30" |
| QueryTime.EpochOfNewYear2025 | tests/test_query_chat.py:130-147 | 2025-01-01 00:00 and 12:30 in UTC+8 are 1735660800 and 1735705800 |
| QueryTime.ParseDateExample | tests/test_query_chat.py:130-138 | "2025-01-01" parses to 1735660800 |
| QueryTime.ParseDateTimeExample | tests/test_query_chat.py:140-147 | "2025-01-01 12:30" parses to 1735705800 |
| QueryTime.ParseRelativeExamples | tests/test_query_chat.py:111-128 | "7d" and "24h" count back seven days and 24 hours from now |
| McFormat.TotalAppend | src/plugins/mc_server_checker/__init__.py:115-131 | the seconds of joined pieces add up |
| McFormat.TotalOptional | src/plugins/mc_server_checker/__init__.py:121-128 | an omitted zero piece counts for nothing |
| McFormat.PiecesSnoc | src/plugins/mc_server_checker/__init__.py:121-128 | appending a larger-ranked, in-bounds piece keeps the pieces ordered d, h, m |
| McFormat.DivmodSplit | src/plugins/mc_server_checker/__init__.py:118-121 | the three `divmod` steps lose nothing and leave hours < 24, minutes < 60, seconds < 60 |
| McFormat.PartsOfTotal | src/plugins/mc_server_checker/__init__.py:121-130 | the printed pieces add up to days, hours, minutes and seconds |
| McFormat.PartsOfCanonical | src/plugins/mc_server_checker/__init__.py:121-130 | the printed pieces are ordered d, h, m, s, without zero pieces except a lone "0s" |
| McFormat.PiecesFirst | src/plugins/mc_server_checker/__init__.py:122-123 | a days piece opens the pieces |
| McFormat.SecondsLast | src/plugins/mc_server_checker/__init__.py:128-129 | seconds are printed when non-zero or when nothing else was printed |
| McFormat.DurationPartsMeaning | src/plugins/mc_server_checker/__init__.py:115-131 | the printed pieces are canonical and add up to the clamped number of seconds |
| McFormat.FormatDuration | src/plugins/mc_server_checker/__init__.py:115-117 | the text is "unknown" exactly when there is no value |
| McFormat.RenderEndsInUnit | src/plugins/mc_server_checker/__init__.py:130 | printed pieces end in a unit letter |
| McFormat.DigitRun | src/plugins/mc_server_checker/__init__.py:121-130 | the leading run of digits of a printed piece |
| McFormat.DigitRunOf | src/plugins/mc_server_checker/__init__.py:121-130 | a number followed by a unit letter reads back as that number |
| McFormat.ParseRender | src/plugins/mc_server_checker/__init__.py:121-130 | reading printed pieces gives the same pieces back |
| McFormat.FormatDurationReadsBack | src/plugins/mc_server_checker/__init__.py:115-131 | the text of any duration reads back as canonical pieces totalling the value clamped at 0 |
| McFormat.FormatDurationExamples | src/plugins/mc_server_checker/__init__.py:115-131 | 300, 600 and 900 seconds print as "5m", "10m" and "15m"; a negative value prints "0s" |
| McFormat.TwoDigits | src/plugins/mc_server_checker/__init__.py:121-128 | two-digit counts print as their two digits |
| McFormat.RenderOne | src/plugins/mc_server_checker/__init__.py:121-128 | one piece prints as its count and unit |
| McFormat.WholeMinutes | src/plugins/mc_server_checker/__init__.py:126-129 | a whole number of minutes under an hour prints as minutes alone |
| McFormat.CompactText | src/plugins/mc_server_checker/__init__.py:89-92 | the words joined by single spaces, "" for None; stated by `CompactTextMeaning` |
| McFormat.CompactTextMeaning | src/plugins/mc_server_checker/__init__.py:89-92 | compacting keeps the words, leaves no CR or LF, and is idempotent |
| McFormat.RemoveHexCodes | src/plugins/mc_server_checker/__init__.py:63 | removing hex colour codes never lengthens the text |
| McFormat.RemoveCodes | src/plugins/mc_server_checker/__init__.py:64 | removing formatting codes never lengthens the text |
| McFormat.RemoveChar | src/plugins/mc_server_checker/__init__.py:100 | after `replace(c, "")` no `c` remains |
| McFormat.RemoveHexCodesPlain | src/plugins/mc_server_checker/__init__.py:63 | text without a section sign has no hex code to remove |
| McFormat.RemoveCodesPlain | src/plugins/mc_server_checker/__init__.py:64 | text without a section sign has no code to remove |
| McFormat.RemoveCharAbsent | src/plugins/mc_server_checker/__init__.py:100 | removing an absent character changes nothing |
| McFormat.StripFormatting | src/plugins/mc_server_checker/__init__.py:95-100 | hex-colour codes, then two-character codes, then stray section signs removed; stated by `StripFormattingMeaning` |
| McFormat.StripFormattingMeaning | src/plugins/mc_server_checker/__init__.py:95-100 | no section sign survives, text without one is unchanged, and stripping is idempotent |
| McFormat.FormatChangeMessage | src/plugins/mc_server_checker/__init__.py:171-187 | the "[+]"/"[-]" server line with its offline-for or online-for duration; stated by `ChangeMessageMeaning` |
| McFormat.ChangeMessageMeaning | src/plugins/mc_server_checker/__init__.py:171-187 | the message names the server, starts "[+] " or "[-] " by direction, and reads only the timestamp that direction needs |
| McFormat.MessageShape | src/plugins/mc_server_checker/__init__.py:171-187 | a message built from a head, the address and a tail names the server and starts like its head |
| McFormat.ChangeMessageExamples | src/plugins/mc_server_checker/__init__.py:171-187 | last seen 300 s ago gives "… offline for: 5m"; up for 900 s gives "… online for: 15m" |
| McStorage.WellFormedGet | src/plugins/mc_server_checker/storage.py:38-55 | a value read from a well-formed object is well formed |
| McStorage.WellFormedSet | src/plugins/mc_server_checker/storage.py:38-63 | writing a well-formed value keeps an object well formed |
| McStorage.ObjAt | src/plugins/mc_server_checker/storage.py:41-46 | the nested object under a key, or {} when it is missing or not an object |
| McStorage.WellFormedObjAt | src/plugins/mc_server_checker/storage.py:41-46 | a nested object of a well-formed object is well formed |
| McStorage.ObjAtSet | src/plugins/mc_server_checker/storage.py:44-45 | an object written under a key reads back |
| McStorage.LoadState | src/plugins/mc_server_checker/storage.py:16-29 | a missing, unreadable or non-object blob gives {"groups": {}}; otherwise every key is kept and a non-object "groups" becomes {} |
| McStorage.EnsureGroup | src/plugins/mc_server_checker/storage.py:38-46 | the store with the group and its servers made objects; stated by `EnsureGroupMeaning` |
| McStorage.EnsureGroupMeaning | src/plugins/mc_server_checker/storage.py:38-46 | afterwards the group and its servers are objects, existing servers are kept, a non-object servers value becomes {}, and every other group and top-level key is unchanged |
| McStorage.EnsureServerReady | src/plugins/mc_server_checker/storage.py:49-55 | after the group step the server entry can be read as a well-formed object |
| McStorage.SetServerMeaning | src/plugins/mc_server_checker/storage.py:51-54 | writing `servers[ip]` leaves the group's servers as before with `ip` set |
| McStorage.NestedSet | src/plugins/mc_server_checker/storage.py:41-45 | writing a nested object keeps well-formedness and reads back |
| McStorage.SetServerFrame | src/plugins/mc_server_checker/storage.py:51-54 | writing `servers[ip]` changes no other key of the group, no other group and no other top-level key |
| McStorage.EnsureGroupNoop | src/plugins/mc_server_checker/storage.py:38-46 | a group whose servers are already an object is left as it is |
| McStorage.AddServer | src/plugins/mc_server_checker/storage.py:58-63 | the store with the address added when absent; stated by `AddServerMeaning` |
| McStorage.AddServerMeaning | src/plugins/mc_server_checker/storage.py:58-63 | added exactly when the address was absent; a refusal changes nothing; an addition stores {} and keeps every other server |
| McStorage.WellFormedRemove | src/plugins/mc_server_checker/storage.py:75-77 | removing a key keeps an object well formed |
| McStorage.WithGroupServersMeaning | src/plugins/mc_server_checker/storage.py:75-77 | the group gets exactly the new servers, other groups keep their values, and an emptied group is gone |
| McStorage.GroupsWithoutMeaning | src/plugins/mc_server_checker/storage.py:75-77 | the group's servers lose the address, an emptied group is gone, other groups keep their values |
| McStorage.RemoveServer | src/plugins/mc_server_checker/storage.py:66-78 | the store without the address when present; stated by `RemoveServerMeaning` |
| McStorage.RemoveServerMeaning | src/plugins/mc_server_checker/storage.py:66-78 | removed exactly when the group is an object whose servers hold the address; otherwise nothing changes; on removal the address goes, other servers stay, and an emptied group goes |
| McStorage.RemovedServer | src/plugins/mc_server_checker/storage.py:75-78 | after a removal the address is gone, other servers stay, and an emptied group is gone |
| McStorage.WellFormedServers | src/plugins/mc_server_checker/storage.py:72 | a group's servers object is well formed |
| McStorage.RemovedKey | src/plugins/mc_server_checker/storage.py:75 | `pop(ip)` drops that key and keeps every other |
| McStorage.RemovedServers | src/plugins/mc_server_checker/storage.py:75-77 | the written-back state holds the servers without the address, or no group when none is left |
| McStorage.RemovedState | src/plugins/mc_server_checker/storage.py:75-77 | writing the groups object back keeps the state settled |
| McStorage.RemoveServerKeepsKeys | src/plugins/mc_server_checker/storage.py:66-78 | top-level keys other than "groups" are never touched |
| McStorage.RemoveServerKeepsGroups | src/plugins/mc_server_checker/storage.py:66-78 | other groups are never touched |
| McStorage.ServerStore.Load | src/plugins/mc_server_checker/storage.py:16-29 | the store starts from the loaded, settled state |
| McStorage.ServerStore.GetGroupServers | src/plugins/mc_server_checker/storage.py:38-46 | the state becomes the group-ensured state and the result is the group's servers object |
| McStorage.ServerStore.GetServerState | src/plugins/mc_server_checker/storage.py:49-55 | the server entry exists as an object afterwards and is the one returned |
| McStorage.ServerStore.SetServerState | src/plugins/mc_server_checker/storage.py:51-54 | the server entry written through the alias is stored under its address |
| McStorage.ServerStore.Add | src/plugins/mc_server_checker/storage.py:58-63 | added exactly when the address was absent, and nothing changes otherwise |
| McStorage.ServerStore.Remove | src/plugins/mc_server_checker/storage.py:66-78 | keeps the store well formed; a failed removal changes nothing, and a successful one leaves the address absent |
| McPresence.OfflineOf | src/plugins/mc_server_checker/__init__.py:227 | the last-offline table of a server, {} when it has none, without repeated names |
| McPresence.StampAll | src/plugins/mc_server_checker/__init__.py:207-208 | stamping names keeps the table free of repeated names |
| McPresence.StampAllGet | src/plugins/mc_server_checker/__init__.py:207-208 | every stamped name reads now, every other name keeps its value |
| McPresence.ClearKey | src/plugins/mc_server_checker/__init__.py:195-198 | both tables forget the server and every other server's entries are unchanged |
| McPresence.MarkOffline | src/plugins/mc_server_checker/__init__.py:201-208 | marking a server offline keeps both tables well formed |
| McPresence.MarkOfflineMeaning | src/plugins/mc_server_checker/__init__.py:201-208 | the server's online table is dropped; each player it listed is stamped offline at now; other names and other servers are unchanged |
| McPresence.SampleNames | src/plugins/mc_server_checker/__init__.py:219-223 | never holds the empty name and has at most as many names as the sample has entries; membership is stated by `SampleNamesMeaning` |
| McPresence.SampleNamesMeaning | src/plugins/mc_server_checker/__init__.py:219-223 | a name is sampled exactly when it is non-empty and some listed name strips to it |
| McPresence.JoinStep | src/plugins/mc_server_checker/__init__.py:232-248 | one step of the join loop keeps the pass well formed |
| McPresence.JoinPass | src/plugins/mc_server_checker/__init__.py:232-248 | the join loop keeps the pass well formed |
| McPresence.LeaveStep | src/plugins/mc_server_checker/__init__.py:250-260 | one step of the leave loop keeps the pass well formed |
| McPresence.LeavePass | src/plugins/mc_server_checker/__init__.py:250-260 | the leave loop keeps the pass well formed |
| McPresence.Observe | src/plugins/mc_server_checker/__init__.py:227-263 | a later observation yields well-formed tables |
| McPresence.DiffObserves | src/plugins/mc_server_checker/__init__.py:227-263 | a later observation of an online server stores the passes' new online and offline tables and returns their messages |
| McPresence.Diff | src/plugins/mc_server_checker/__init__.py:211-264 | the join/leave diff of one check; its messages and tables are stated by `DiffOk` and `DiffObserves` |
| McPresence.DiffOk | src/plugins/mc_server_checker/__init__.py:211-263 | the diff keeps both tables well formed |
| McPresence.NewNames | src/plugins/mc_server_checker/__init__.py:232-235 | the names not online before, exactly |
| McPresence.JoinMessages | src/plugins/mc_server_checker/__init__.py:237-248 | one join message per joining name |
| McPresence.JoinMessagesAt | src/plugins/mc_server_checker/__init__.py:237-248 | the i-th join message is about the i-th joining name and its last-offline time |
| McPresence.NewNamesSorted | src/plugins/mc_server_checker/__init__.py:232 | filtering keeps the sorted sample sorted |
| McPresence.JoinPassMessages | src/plugins/mc_server_checker/__init__.py:232-248 | the join loop leaves the offline table alone and appends one message per sampled name not online before |
| McPresence.JoinMessagesSnoc | src/plugins/mc_server_checker/__init__.py:237-248 | join messages of a longer list extend those of the shorter |
| McPresence.JoinPassGet | src/plugins/mc_server_checker/__init__.py:232-237 | after the join loop a sampled name keeps its old time if it was online, and is online since now otherwise |
| McPresence.Absent | src/plugins/mc_server_checker/__init__.py:251-253 | the previous players not in the sample, exactly |
| McPresence.LeaveMessages | src/plugins/mc_server_checker/__init__.py:258-259 | one leave message per absent player |
| McPresence.LeaveMessagesAt | src/plugins/mc_server_checker/__init__.py:258-259 | the i-th leave message is about the i-th absent player and the time it came online |
| McPresence.LeavePassMessages | src/plugins/mc_server_checker/__init__.py:250-260 | a partial sample announces no departures; a full one announces every previous player missing from it, in table order |
| McPresence.LeaveMessagesSnoc | src/plugins/mc_server_checker/__init__.py:258-259 | leave messages of a longer table extend those of the shorter |
| McPresence.LeavePassNext | src/plugins/mc_server_checker/__init__.py:250-256 | a missing player of a partial sample stays online since its old time; nothing else in the new table changes |
| McPresence.LeavePassOffline | src/plugins/mc_server_checker/__init__.py:250-260 | a missing player of a full sample is stamped offline at now |
| McPresence.DiffOfflineResult | src/plugins/mc_server_checker/__init__.py:214-216 | an offline result announces nothing, drops the server's online table and stamps its players offline at now |
| McPresence.DiffFirstObservation | src/plugins/mc_server_checker/__init__.py:224-228 | the first observation records exactly the sampled names, online since now, and announces nothing |
| McPresence.DiffSampledPlayer | src/plugins/mc_server_checker/__init__.py:232-237 | a sampled player that was online keeps its time; one that was not comes online at now |
| McPresence.DiffMissingPlayer | src/plugins/mc_server_checker/__init__.py:250-260 | a missing player stays unchanged when the sample is partial, and leaves and is stamped offline at now when it is full |
| McPresence.ObserveMessages | src/plugins/mc_server_checker/__init__.py:232-263 | the messages are the join messages of the sorted new names followed, for a full sample, by the leave messages of the absent players |
| McPresence.JoinOrder | src/plugins/mc_server_checker/__init__.py:232 | joiners are announced in sorted name order and are exactly the sampled players not online before |
| McPresence.DiffOtherServers | src/plugins/mc_server_checker/__init__.py:211-263 | other servers' tables are never touched |
| McPresence.SampleOfOne | src/plugins/mc_server_checker/__init__.py:217-221 | a one-name sample of a plain name is that name |
| McPresence.SampleOfTwo | src/plugins/mc_server_checker/__init__.py:217-221 | a two-name sample of plain names is those names |
| McPresence.SortOne | src/plugins/mc_server_checker/__init__.py:232 | sorting one name gives it alone |
| McPresence.SortTwo | src/plugins/mc_server_checker/__init__.py:232 | sorting two names gives them in order |
| McPresence.JoinPassOne | src/plugins/mc_server_checker/__init__.py:232-248 | the join loop over one name is one step |
| McPresence.JoinPassTwo | src/plugins/mc_server_checker/__init__.py:232-248 | the join loop over two names is two steps |
| McPresence.LeavePassOne | src/plugins/mc_server_checker/__init__.py:250-260 | the leave loop over one entry is one step |
| McPresence.LeavePassTwo | src/plugins/mc_server_checker/__init__.py:250-260 | the leave loop over two entries is two steps |
| McPresence.SessionFirst | tests/test_mc_server_checker_presence.py:63-77 | the first sample of two players records both at t1 and announces nothing |
| McPresence.ObservePartial | tests/test_mc_server_checker_presence.py:79-86 | a partial sample missing a player changes nothing |
| McPresence.SessionPartial | tests/test_mc_server_checker_presence.py:79-86 | the second, partial sample announces nothing and changes nothing |
| McPresence.ObserveLeave | tests/test_mc_server_checker_presence.py:88-95 | a full sample missing a player announces and stamps its departure |
| McPresence.SessionLeave | tests/test_mc_server_checker_presence.py:88-95 | the third, full sample announces the missing player and stamps it offline at t3 |
| McPresence.ObserveRejoin | tests/test_mc_server_checker_presence.py:97-104 | a returning player is announced with its offline time |
| McPresence.SingleServer | tests/test_mc_server_checker_presence.py:63-104 | one server's tables are well formed and read back |
| McPresence.SessionRejoin | tests/test_mc_server_checker_presence.py:97-104 | the fourth sample announces the returning player with the time it was away |
| McPresence.LeftAfterTenMinutes | tests/test_mc_server_checker_presence.py:88-95 | a player online for 600 s leaves with "… online for: 10m" |
| McPresence.BackAfterFiveMinutes | tests/test_mc_server_checker_presence.py:97-104 | a player away for 300 s returns with "… offline for: 5m" |
| McPresence.Session | tests/test_mc_server_checker_presence.py:63-104 | the four-sample session announces nothing twice, then only b leaving after "online for: 10m", then only b returning after "offline for: 5m" |
| McPresence.StampNames | src/plugins/mc_server_checker/__init__.py:207-208 | the loop stamps every name with now, as the specification function does |
| McPresence.JoinPlayers | src/plugins/mc_server_checker/__init__.py:232-248 | the join loop computes the specified join pass |
| McPresence.LeavePlayers | src/plugins/mc_server_checker/__init__.py:250-260 | the leave loop computes the specified leave pass |
| McPresence.PlayerPresence.constructor | src/plugins/mc_server_checker/__init__.py:195-208 | both presence tables start empty |
| McPresence.PlayerPresence.Clear | src/plugins/mc_server_checker/__init__.py:195-198 | the tables become the specified clearing of the server |
| McPresence.PlayerPresence.MarkAllOffline | src/plugins/mc_server_checker/__init__.py:201-208 | the tables become the specified offline marking of the server |
| McPresence.PlayerPresence.BuildPlayerDiff | src/plugins/mc_server_checker/__init__.py:211-263 | the tables and messages are the specified diff of the old tables |
| McChecker.ApplyStatusUpdate | src/plugins/mc_server_checker/__init__.py:303-328 | the entry becomes the specified update of the old entry, the message is the specified change message, and the player tables are marked offline exactly when an online server went down |
| McChecker.PrefixWritten | src/plugins/mc_server_checker/__init__.py:311-322 | the status-dependent write (online_since on coming up or when unset, last_seen_online_at on going down) is done one assignment at a time |
| McChecker.OnlineWritten | src/plugins/mc_server_checker/__init__.py:316-327 | the four field writes of a reachable server complete the specified update |
| McChecker.OfflineWritten | src/plugins/mc_server_checker/__init__.py:324-327 | the three field writes of an unreachable server complete the specified update |
| McChecker.UpdatedServer | src/plugins/mc_server_checker/__init__.py:303-328 | the server object after the status writes; its fields are stated by `UpdatedServerFields` |
| McChecker.UpdatedServerFields | src/plugins/mc_server_checker/__init__.py:303-328 | after the update last_check_at is now, the status and error are the result's, last_seen_online_at is now when the server is up or just went down, online_since is now when it came up or had none, and every other field is kept |
| McChecker.StatusMessage | src/plugins/mc_server_checker/__init__.py:309-323 | a message only on a change of status; stated by `StatusMessageMeaning` |
| McChecker.StatusMessageMeaning | src/plugins/mc_server_checker/__init__.py:309-323 | a message comes exactly with a change of status; it names the server, starts "[+] " or "[-] ", and reads only the timestamp of its direction |
| McChecker.StatusSettles | src/plugins/mc_server_checker/__init__.py:303-328 | after an update the stored status is the result's, so a second result with the same status gives no message |
| McChecker.GroupContribution | src/plugins/mc_server_checker/__init__.py:355-375 | a group contributes only under an integer key and only with a non-empty address list |
| McChecker.PollGroup | src/plugins/mc_server_checker/__init__.py:365-373 | the inner loop collects the specified addresses of one group |
| McChecker.CollectGroupServers | src/plugins/mc_server_checker/__init__.py:349-377 | the loop builds the specified map from group ids to address lists |
| McChecker.ContributionsStep | src/plugins/mc_server_checker/__init__.py:355-376 | each group adds its contribution, if any, at the end |
| McChecker.PolledIpsMeaning | src/plugins/mc_server_checker/__init__.py:365-373 | an address is polled exactly when the group holds it, with any state, or with last_status "online" under the online filter |
| McChecker.PolledAll | src/plugins/mc_server_checker/__init__.py:368-370 | without the online filter every address is polled, in the group's order |
| McChecker.ContributionsMeaning | src/plugins/mc_server_checker/__init__.py:355-376 | the contributions are exactly those of the groups |
| McChecker.ContributionsLast | src/plugins/mc_server_checker/__init__.py:355-376 | the contributions of the groups are those of all but the last plus the last group's |
| McChecker.ContributorsLast | src/plugins/mc_server_checker/__init__.py:355-376 | a contributing group is among the earlier ones or is the last |
| McChecker.CollectServers | src/plugins/mc_server_checker/__init__.py:349-377 | the address-to-groups table of all contributions; stated by `CollectServersMeaning` |
| McChecker.CollectServersMeaning | src/plugins/mc_server_checker/__init__.py:349-377 | a group id is collected exactly when some group contributes under it, always with a non-empty address list of such a group |
| McChecker.CollectLastWins | src/plugins/mc_server_checker/__init__.py:375-376 | the list collected under an id is that of the last group contributing under it |
| McChecker.LaterNotWritten | src/plugins/mc_server_checker/__init__.py:375-376 | groups that do not contribute under an id do not write it |
| McChecker.ContributionsAppend | src/plugins/mc_server_checker/__init__.py:355-376 | the contributions of two runs of groups are concatenated |
| McChecker.StoredGroupContributes | src/plugins/mc_server_checker/__init__.py:355-376 | a group stored under its id's decimal key is collected under that id with its polled addresses, or not at all when there are none |
| ChatStats.LocalHour | src/plugins/chat_statistics/statistics.py:27-35 | the UTC+8 local hour is always in 0..23 |
| ChatStats.LocalClock | src/plugins/chat_statistics/statistics.py:33-35 | the instant lies within its local hour of its local date |
| ChatStats.NextDay | src/plugins/chat_statistics/statistics.py:100-106 | a message one day later has the same local hour and the next local date |
| ChatStats.SumBump | src/plugins/chat_statistics/statistics.py:37 | one more message in an hour adds one to the sum over every range of hours holding it |
| ChatStats.BumpValid | src/plugins/chat_statistics/statistics.py:37-38 | counting one more message in a valid hour keeps the hourly counts summing to the total |
| ChatStats.SumEmpty | src/plugins/chat_statistics/statistics.py:20-21 | no hour counted means a zero sum |
| ChatStats.SumPositive | src/plugins/chat_statistics/statistics.py:42-47 | positive counts sum to a positive number once any hour is counted |
| ChatStats.SumNonNegative | src/plugins/chat_statistics/statistics.py:42-47 | positive counts never sum below zero |
| ChatStats.HourCountsSum | src/plugins/chat_statistics/statistics.py:176-177 | every message falls in exactly one hour, so the per-hour counts of a list add up to its length |
| ChatStats.HourCountsNone | src/plugins/chat_statistics/statistics.py:176-177 | no messages give zero counts |
| ChatStats.HourCountsStep | src/plugins/chat_statistics/statistics.py:176-177 | one more message adds one to its own hour's count |
| ChatStats.PadLeft | src/plugins/chat_statistics/statistics.py:61 | right alignment pads with leading spaces to the width and ends with the text |
| ChatStats.HourLineOneLine | src/plugins/chat_statistics/statistics.py:61 | an hour line holds no line break when the percentage text has none |
| ChatStats.ChatStatistics.constructor | src/plugins/chat_statistics/statistics.py:16-23 | empty hourly counts and a zero total |
| ChatStats.ChatStatistics.AddMessage | src/plugins/chat_statistics/statistics.py:25-38 | exactly the message's local-hour bucket and the total go up by one, and the counts keep summing to the total |
| ChatStats.ChatStatistics.HourlyPercentages | src/plugins/chat_statistics/statistics.py:40-47 | empty when there are no messages; otherwise each counted hour's share count * 100 / total |
| ChatStats.ChatStatistics.Lines | src/plugins/chat_statistics/statistics.py:58-61 | one line per hour of the day |
| ChatStats.ChatStatisticsEmpty | src/plugins/chat_statistics/statistics.py:42-53 | no percentages exactly when there are no messages, which is when no hour is counted; then the text is the single "no records" line |
| ChatStats.ChatStatistics.FormatTextOutput | src/plugins/chat_statistics/statistics.py:49-65 | the no-messages sentence or the header and hourly lines; stated by `ChatStatisticsEmpty` and `ChatTextLines` |
| ChatStats.ChatTextLines | src/plugins/chat_statistics/statistics.py:55-65 | with messages, the text splits into the header and one line per hour, 0 to 23 in order, each with that hour's count |
| ChatStats.LinesOneLine | src/plugins/chat_statistics/statistics.py:58-61 | no hour line holds a line break |
| ChatStats.PartsOneLine | src/plugins/chat_statistics/statistics.py:65 | neither the header nor any line holds a line break |
| ChatStats.HeaderOneLine | src/plugins/chat_statistics/statistics.py:63-64 | the header holds no line break |
| ChatStats.PercentagesSum | src/plugins/chat_statistics/statistics.py:40-47 | with messages the counted hours' shares add up to 100 percent |
| ChatStats.PercentSumIs | src/plugins/chat_statistics/statistics.py:44-47 | the shares add up to 100 times the counts' sum over the total |
| ChatStats.UserChatStatistics | src/plugins/chat_statistics/statistics.py:157-179 | the object counts every fetched message: its total is their number and each hour holds the messages of that hour |
| ChatStats.TimesOf | src/plugins/chat_statistics/statistics.py:200-207 | a user's message times, as many as the user's records |
| ChatStats.UsersMeaning | src/plugins/chat_statistics/statistics.py:200-205 | each user with a record appears once, and no one else |
| ChatStats.UsersStep | src/plugins/chat_statistics/statistics.py:204-205 | the senders of one more record are the earlier ones plus its sender |
| ChatStats.PartitionTotal | src/plugins/chat_statistics/statistics.py:199-209 | the per-user totals add up to the number of records |
| ChatStats.SumUsersStep | src/plugins/chat_statistics/statistics.py:204-207 | one more record adds one to the sum over distinct users holding its sender, and nothing otherwise |
| ChatStats.SumUsersSnoc | src/plugins/chat_statistics/statistics.py:204-207 | one more user adds that user's record count |
| ChatStats.UserCountAbsent | src/plugins/chat_statistics/statistics.py:204-205 | a user without records has a zero count |
| ChatStats.GroupChatStatistics | src/plugins/chat_statistics/statistics.py:182-209 | one fresh, distinct object per sender and no other, each holding exactly the counts of that sender's records |
| ChatStats.Tally | src/plugins/chat_statistics/statistics.py:202-207 | the sender's object is fetched or created and then counts the record; other senders' objects are unchanged |
| ChatStats.AllCountsStep | src/plugins/chat_statistics/statistics.py:200-207 | the next record counts for its sender and for no one else |
| ChatStats.AllCountsUpdate | src/plugins/chat_statistics/statistics.py:200-207 | replacing one user's counts with correct ones keeps every user's counts correct |
| ChatStats.UsersSetStep | src/plugins/chat_statistics/statistics.py:204-205 | the senders of one more record are the earlier ones plus its sender |
| ChatStats.SenderCounts | src/plugins/chat_statistics/statistics.py:204-207 | the sender's counts after the record are those of the sender's records |
| ChatStats.OtherCounts | src/plugins/chat_statistics/statistics.py:200-207 | other users' counts stay those of their records |
| ChatStats.CountsAbsent | src/plugins/chat_statistics/statistics.py:204-205 | a new sender starts from empty counts |
| ChatStats.CountsAfter | src/plugins/chat_statistics/statistics.py:207 | counting the sender's latest record keeps its counts those of its records |
| ChatStats.CountsOther | src/plugins/chat_statistics/statistics.py:207 | a record leaves other users' counts alone |
| ChatStats.MarkActiveIdempotent | src/plugins/chat_statistics/statistics.py:105-107 | a message in an hour and on a date already marked changes nothing |
| ChatStats.ActiveStatistics.constructor | src/plugins/chat_statistics/statistics.py:84-91 | no hour is active yet |
| ChatStats.ActiveStatistics.AddMessage | src/plugins/chat_statistics/statistics.py:93-107 | the message's local date joins its local hour's dates |
| ChatStats.ActiveStatistics.HourlyActiveCounts | src/plugins/chat_statistics/statistics.py:109-111 | each hour maps to its number of distinct active dates |
| ChatStats.ActiveStatistics.HourlyPercentages | src/plugins/chat_statistics/statistics.py:113-120 | empty when zero days were requested; otherwise each hour's dates * 100 / days |
| ChatStats.ActiveStatistics.ActiveLines | src/plugins/chat_statistics/statistics.py:134-137 | one line per hour of the day |
| ChatStats.ActiveStatistics.FormatTextOutput | src/plugins/chat_statistics/statistics.py:122-141 | the no-activity sentence when no hour is active, otherwise the header counting the active hours and one line for each of the 24 hours; the active hours are stated by `ActiveHoursMeaning` |
| ChatStats.ActiveHoursMeaning | src/plugins/chat_statistics/statistics.py:122-129 | the active hours are the hours present; there are none exactly when no message was added, and then the text is the single "no activity" line |
| ChatStats.UserActiveStatistics | src/plugins/chat_statistics/statistics.py:212-234 | each hour holds exactly the distinct local dates with a message in that hour |
| ChatStats.ActiveDatesStep | src/plugins/chat_statistics/statistics.py:105-107 | one more message adds its date to its own hour and to no other |
| UserStore.Saved | src/plugins/auto_react/user_storage.py:31-35 | the saved document is a JSON list with one entry per stored id |
| UserStore.Loaded | src/plugins/auto_react/user_storage.py:19-29 | ids come only from a readable list and each is a string item of it; the fallbacks are stated by `LoadedFallback` |
| UserStore.LoadedFallback | src/plugins/auto_react/user_storage.py:19-29 | a missing file, an unreadable file and any document that is not a list all load as the empty set; a list loads as exactly the strings it holds |
| UserStore.SaveLoadRoundTrip | src/plugins/auto_react/user_storage.py:19-35 | what is saved is sorted strictly ascending and loads back as the same set of ids |
| UserStore.UserStorage.constructor | src/plugins/auto_react/user_storage.py:8-17 | the store holds exactly what loading the file gives, and the file reloads as the store |
| UserStore.UserStorage.Save | src/plugins/auto_react/user_storage.py:31-35 | the file becomes the sorted list of the ids in memory, which reloads as those ids; the ids are unchanged |
| UserStore.UserStorage.AddUser | src/plugins/auto_react/user_storage.py:37-51 | the result is true exactly when the id was new; the id is then present; a successful add writes the sorted id list and counts one save, and a refusal leaves the file alone |
| UserStore.UserStorage.RemoveUser | src/plugins/auto_react/user_storage.py:53-67 | the result is true exactly when the id was present; the id is then absent; a successful remove writes the sorted id list and counts one save, and a refusal leaves the file alone |
| UserStore.UserStorage.HasUser | src/plugins/auto_react/user_storage.py:69-79 | true exactly when the id is stored |
| UserStore.UserStorage.GetAllUsers | src/plugins/auto_react/user_storage.py:81-88 | a copy of the stored ids, which later changes to the store cannot reach |
| UserStore.UserStorage.ClearAll | src/plugins/auto_react/user_storage.py:90-93 | the store is empty and the file is rewritten as an empty list |
| UserStore.UserStorage.Run | src/plugins/auto_react/user_storage.py:37-93 | any run of adds, removes and clears leaves the store equal to the operations replayed on a set, with the file still reloading as the store |
| UserStore.ReplayStep | src/plugins/auto_react/user_storage.py:37-93 | replaying one more operation applies it to the earlier result |
| UserStore.ReplayMembership | src/plugins/auto_react/user_storage.py:37-93 | after a run, an id is present exactly when some add of it was not followed by a remove of it or a clear, or it was there from the start and never removed or cleared |
| AutoPing.TargetEntries | src/plugins/auto_ping/__init__.py:30-35 | a target contributes one (alias, id) assignment per alias, in order, all with the target's id |
| AutoPing.FoldSnoc | src/plugins/auto_ping/__init__.py:24-36 | one more assignment is applied after all earlier ones |
| AutoPing.FoldPrefix | src/plugins/auto_ping/__init__.py:24-36 | the table after i+1 assignments is the table after i with the next one applied |
| AutoPing.FoldAfter | src/plugins/auto_ping/__init__.py:30-35 | within a target's aliases, each alias is applied after everything before it |
| AutoPing.TargetsPrefix | src/plugins/auto_ping/__init__.py:30-35 | the assignments done before and after a target's aliases are the alias map's followed by those of the targets so far |
| AutoPing.BuildAliasMap | src/plugins/auto_ping/__init__.py:24-36 | the table is what the alias map's assignments followed by every target's aliases produce, applied in order |
| AutoPing.Fold | src/plugins/auto_ping/__init__.py:24-36 | the alias table after each assignment in turn; stated by `FoldMeaning` and `FoldKeys` |
| AutoPing.FoldMeaning | src/plugins/auto_ping/__init__.py:24-36 | the table holds a key exactly when a non-empty alias casefolds to it, and the key keeps the id of the last such alias |
| AutoPing.FoldKeys | src/plugins/auto_ping/__init__.py:27-35 | every key of the table is non-empty and already casefolded |
| AutoPing.AllTargetEntriesFrom | src/plugins/auto_ping/__init__.py:30-35 | every target assignment comes from some alias of some target, with that target's id |
| AutoPing.TargetsOverride | src/plugins/auto_ping/__init__.py:24-36 | an alias configured under a target beats the same alias in the alias map: the key maps to a target's id |
| AutoPing.MatchTargets | src/plugins/auto_ping/__init__.py:74-83 | the matched ids are exactly those whose non-empty alias occurs in the casefolded text |
| AutoPing.MatchesEmpty | src/plugins/auto_ping/__init__.py:75-76 | an empty text or an empty table matches no one, as the early return says |
| AutoPing.MatchesIgnoreCase | src/plugins/auto_ping/__init__.py:78-81 | matching ignores case: casefolding the text first changes nothing |
| AutoPing.Matches | src/plugins/auto_ping/__init__.py:74-83 | every matched id is a value of the alias table; which ids match is stated by `MatchesConfigured` |
| AutoPing.MatchesConfigured | src/plugins/auto_ping/__init__.py:74-83 | an id is matched exactly when some configured non-empty alias occurs in the text ignoring case and the table keeps that id for it |
| AutoPing.CacheLookup | src/plugins/auto_ping/__init__.py:59-71 | the member list is fetched exactly when the group has no live entry; a fetch stores the ids for an hour from now, a live entry answers without change, and other groups' entries are untouched |
| AutoPing.CacheReuse | src/plugins/auto_ping/__init__.py:59-63 | asking again before the entry expires answers the same ids without a fetch |
| AutoPing.CacheLifetime | src/plugins/auto_ping/__init__.py:56-71 | a fetched answer is reused at every moment before an hour has passed and fetched afresh from then on |
| AutoPing.MemberCache.constructor | src/plugins/auto_ping/__init__.py:55 | the cache starts empty |
| AutoPing.MemberCache.GroupMemberIds | src/plugins/auto_ping/__init__.py:59-71 | the answer, the new cache and whether the API was called are those of the lookup on the old cache |
| AutoPing.Keep | src/plugins/auto_ping/__init__.py:93 | keeps exactly the ids that are group members, and keeps ascending order |
| AutoPing.PingedMeaning | src/plugins/auto_ping/__init__.py:93 | the mentions are exactly the matched group members, in strictly ascending order |
| AutoPing.MentionsShape | src/plugins/auto_ping/__init__.py:97-100 | the message alternates a mention of each id, in order, with a single space |
| AutoPing.Handle | src/plugins/auto_ping/__init__.py:86-102 | nothing is sent and the cache is untouched when no alias matches; otherwise the member list is looked up, and the reply mentions the matched members in ascending order, or nothing is sent when none is in the group |
| ReleaseNote.IsGithubAuthFailure | src/plugins/release_note/__init__.py:113-118 | true exactly for a 401 or 403 whose lowered body contains one of the four hints |
| ReleaseNote.AuthFailureHint | src/plugins/release_note/__init__.py:29-34 | a 401 or 403 body carrying a hint, in any case and anywhere in the text, is an auth failure |
| ReleaseNote.AuthFailureIgnoresCase | src/plugins/release_note/__init__.py:117-118 | the case of the body never changes the verdict |
| ReleaseNote.AuthFailureMessage | src/plugins/release_note/__init__.py:125-128 | the alert names the status code as a GitHub token/auth failure |
| ReleaseNote.AlertLog.constructor | src/plugins/release_note/__init__.py:36 | no alert key has been used and nothing has been sent |
| ReleaseNote.AlertLog.SendOnce | src/plugins/release_note/__init__.py:105-110 | a key already used sends nothing and answers false; a new key is recorded before the attempt, so the message is attempted once and the answer is whether it was delivered |
| ReleaseNote.AlertLog.NotifyAuthFailure | src/plugins/release_note/__init__.py:121-129 | anything but an auth failure sends nothing; the first auth failure attempts the alert under its fixed key, and every later one sends nothing |
| ReleaseNote.Unquote | src/plugins/release_note/__init__.py:56-61 | a non-empty result neither starts nor ends with a quote |
| ReleaseNote.KeepItems | src/plugins/release_note/__init__.py:56 | blank items are dropped, so no more items come out than go in |
| ReleaseNote.ReplaceChar | src/plugins/release_note/__init__.py:61 | every occurrence of the one character is replaced and every other character kept |
| ReleaseNote.FallbackTokens | src/plugins/release_note/__init__.py:61 | every fallback token is free of surrounding quotes |
| ReleaseNote.ParseSuperusers | src/plugins/release_note/__init__.py:41-61 | a blank value yields no candidates |
| ReleaseNote.ReplaceJoin | src/plugins/release_note/__init__.py:61 | ids joined by commas read, once commas become spaces, as ids joined by spaces |
| ReleaseNote.UnquotePlain | src/plugins/release_note/__init__.py:56-61 | an id with no blank and no quote is left as it is |
| ReleaseNote.FallbackRoundTrip | src/plugins/release_note/__init__.py:61 | plain ids separated by commas or by spaces come back one by one, in order |
| ReleaseNote.KeyLessTotal | src/plugins/release_note/__init__.py:72-75 | the fallback sort key orders all candidates strictly and totally |
| ReleaseNote.SortedFallback | src/plugins/release_note/__init__.py:69-75 | the driver's ids, stripped and non-blank, sorted with numeric ids first in numeric order |
| ReleaseNote.FirstNumeric | src/plugins/release_note/__init__.py:77-82 | any result is the non-negative value of some all-digit candidate; which one is stated by `FirstNumericMeaning` |
| ReleaseNote.FirstNumericMeaning | src/plugins/release_note/__init__.py:77-82 | the first all-digit candidate is taken as an integer, and there is none exactly when no candidate is all digits |
| ReleaseNote.FallbackPicksSmallest | src/plugins/release_note/__init__.py:68-82 | taken from the driver's set, the primary superuser is the smallest numeric id, and there is none when no id is numeric |
| ReleaseNote.ResolvePrimarySuperuser | src/plugins/release_note/__init__.py:64-82 | the answer is the first all-digit candidate of the environment value, or of the sorted driver set when that value yields none |
| ReleaseNote.FirstLineMeaning | src/plugins/release_note/__init__.py:367 | a commit's first line holds no line break and is the whole message when it has none |
| ReleaseNote.Bullets | src/plugins/release_note/__init__.py:366-368 | one bullet per commit |
| ReleaseNote.BulletsAt | src/plugins/release_note/__init__.py:366-368 | each bullet is the marker followed by its commit message's first line |
| ReleaseNote.FormatReleaseNote | src/plugins/release_note/__init__.py:353-370 | with no commits, the single deployed-without-commits line; otherwise the header, a blank line, the section title and the bullets, joined by line breaks |
| ReleaseNote.NoteLinesRoundTrip | src/plugins/release_note/__init__.py:357-370 | splitting the note at line breaks gives back the header, the blank line, the title and one bullet per commit, in order |
| CitationCounter.IsReply | src/plugins/citation_counter/__main__.py:72-88 | true only through a reply segment whose own verdict is true, and no answer only through a reply segment whose id is not an integer; the first-segment rule is stated by `IsReplyFirst` |
| CitationCounter.IsReplyFirst | src/plugins/citation_counter/__main__.py:72-88 | with no reply segment the rule answers false; otherwise the first reply segment alone decides, true unless its id reads as 0, and an id that is not an integer is an error |
| CitationCounter.IsReplyIgnoresRest | src/plugins/citation_counter/__main__.py:81-87 | segments after the first reply segment never change the answer |
| CitationCounter.ZeroIdIsNotReply | src/plugins/citation_counter/__main__.py:84-87 | a reply to message id 0 is not counted as a reply |
| CitationCounter.LastReplyId | src/plugins/citation_counter/__main__.py:110-113 | any id found is the id of some reply segment; which one is stated by `LastReplyIdMeaning` |
| CitationCounter.LastReplyIdMeaning | src/plugins/citation_counter/__main__.py:110-113 | the handler finds an id exactly when there is a reply segment, and it is the id of the last one |
| CitationCounter.RuleThenHandler | src/plugins/citation_counter/__main__.py:104-117 | every message the rule lets through has a reply id for the handler, and with one reply segment it is the id the rule checked |
| CitationCounter.HandleReply | src/plugins/citation_counter/__main__.py:106-126 | no reply segment stops the handler; otherwise an unknown author stops it, an ignored sender stops it, and in every other case the citation is counted for the author of the replied-to message in the group |

## Left out

- Network, chat API and scheduler calls are left out. This covers `_check_server` (the server status lookup), the GitHub and NapCat HTTP calls of the release-note plugin, `bot.call_api` sends and the scheduled jobs. Their answers enter the model as parameters.
- Async orchestration and locking are left out: `_run_check`, `handle_status`, the cache's per-instance lock and `asyncio.gather`. The model is sequential.
- File access is left out. Files are values: `StoredFile` for the user store, a decoded JSON value for the server store, a snapshot sequence for the cache. The cache's pickle format is not modelled; only its in-memory effect is, and a corrupt snapshot is an empty one.
- Floating-point percentages are exact ratios (`Percent`). The `%4.1f`/`%5.1f` rendering is a caller-supplied text per hour.
- Matplotlib rendering in `chat_statistics/visualization.py`, the demo and test scripts of the statistics plugin, and the SQLite code of `citation_counter_db.py` are not part of this model.
- The plugins' event handlers that only glue calls together are not part of this model. This covers `chat_statistics/__main__.py` (including `extract_at_users`), `mute_detector`, the random reaction of `auto_react/__init__.py`, and the config validators.
- `ChatStatistics.to_dict` and `ActiveStatistics.to_dict` are not modelled. They only serialise the fields the model keeps.
- `get_group_active_statistics` is not modelled. It is the loop of `get_group_chat_statistics` with `ActiveStatistics` objects.
- The start and end times taken from the wall clock in the statistics constructors are not modelled.
- Dictionary iteration order of `user_stats` is not modelled. It is a map from user to statistics object.
- `_format_motd`, `_format_online_result` and `_format_offline_result` are not modelled. They build the status-command reply text from the lookup result.
- QueryArgs.FromArgs: the tests fix only reading content, user and limit, the limit clamp, `has_message_filter` and the "Invalid regex" error. These are modelling choices: the regex is checked first; a `group` argument exists and is read as an integer; a non-integer user, group or limit fails with "Invalid user: …" (or group, or limit) followed by the text; an unreadable after or before fails with "Invalid time: …" followed by the text; `hasAbsoluteTime` holds when either time is written in an absolute form.
- QueryArgs.FormatConditions: the tests fix the `content="…"`, `group=…` and `limit=…` pieces, their order, the " | " joiner, and the presence of a `user=…` piece. These are modelling choices: the `regex="…"` piece, and the places of the regex and user pieces (after the content and before the group).
- QueryTime.ParseRelative: the grammar of relative times (digits followed by `d` or `h`) is this model's reading of the query tests (`7d`, `24h`). The query plugin's own parser is not part of this model, so other forms it may accept are not modelled. The current time is a parameter.
- The cache's `MAX_MESSAGES_PER_ENTRY` and the query's `MAX_LIMIT` are not visible in this model's sources. They are fixed at 1000 and 100, values the tests allow.
- Regular-expression validity is a predicate given by the caller. The formatting-code stripping keeps only its pattern classes: section sign with a hex colour, and section sign with a code character.
- `str.lower`, `str.casefold` and `str.isdigit` are modelled over ASCII letters and digits only.
- Text.IsSpace: whitespace is the ASCII set (space, tab to carriage return, and the separator controls 0x1C to 0x1F). Python's `str.strip` and `str.split` also treat Unicode whitespace such as U+00A0, U+0085, U+2028, U+2029 and U+3000 as space. This affects `CompactText`, `SampleNames`, `ParseInt`, `FallbackTokens`, `Unquote` and the auto-ping aliases.
- McPresence.Diff: on the first observation of a server the online table is built from the sorted sample names, where Python iterates a set. The table's order later decides the order of the "[-]" messages, so that order is modelled as sorted rather than as Python's set order.
- HotColdCacheModel.LoadItems: reloading trims the snapshot to its newest `coldSize` entries. The cache's load code is not part of this model; the trim is a modelling choice.
- HotColdCacheModel.PutItem: storing under a key also removes that key from the cold tier, so a key lives in one tier only. This is a modelling choice the tests do not fix.
- CacheModel.StoredAfter: a missing start time reads as 0 and a missing end time as the current time, for both stored entries and queries. This is a modelling choice the tests do not fix.
- CacheModel.WeakMatch: a query without a group id never matches, and a stored content filter never matches a query without content. These are modelling choices the tests do not fix.
- HotColdCacheModel.GetTiers: a hit in the hot tier moves that entry to the most-recent end, and `FindInTier` skips entries whose time class is none and keeps looking. These are modelling choices the tests do not fix.
- `int()` is modelled without its acceptance of underscores between digits.
- The json/ast decoding in `_parse_superusers` is not modelled. Its outcome is an input (`Decoded`); only the plain-text fallback is modelled.
- ReleaseNote.ParseSuperusers: its own contract states only the blank case. The fallback tokenisation is stated by `FallbackTokens` and `FallbackRoundTrip`, and the decoded branches are inputs.
- ReleaseNote.SortedFallback: ties between distinct non-numeric ids follow plain string order, and numeric ids with the same value (such as "01" and "1") are ordered by text. The stripped ids form a set, so ids that strip to the same text (" 1" and "1") appear once where Python's `normalized` list keeps both; the first numeric candidate is the same either way.
- UserStore.Loaded: items of a stored list that are not strings are dropped. Python would keep numbers in the set and raise on unhashable items.
- CitationCounter.HandleReply: the database increment after the ignore check is left out; the outcome names the counted (group, user) pair. The handler reads an unbound variable when there is no reply segment. The model returns `NoReplySegment` instead, and `RuleThenHandler` shows that the rule never lets such a message through.
- McChecker.ApplyStatusUpdate: it requires the timestamp the change message reads to be missing, null or a number (`MessageReadable`). The source prints "unknown" for a missing or null timestamp and otherwise calls `float()`, which also accepts booleans and numeric strings and raises on other values; those cases are not modelled.
- McStorage.ServerStore.GetGroupServers: it requires the group entry to be missing or an object (`GroupUsable`). Python's `setdefault` raises on any other value, and that error path is not modelled. The same requirement holds for `GetServerState` and `Add`.
- CacheModel.MakeKeyInjective: keys are distinct for distinct filters only when no text field contains ':' or equals "None". `MakeKeyCollisions` exhibits the collisions outside that.
