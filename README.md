# Doorbot: a verified model of the door-access server's core

Doorbot guards a door with RFID key fobs. A reader asks the server whether a
tag may enter and logs every attempt. Administrators add, re-tag, rename,
deactivate and search members. Batch scripts reconcile the local member
table with the external membership system (MMS) and build a cache of the
members it considers active.

This project models the pieces of that system that make decisions, and
proves what they promise:

- **Credentials** (`credentials.dfy`): the stored password type tag
  (`plaintext` or `bcrypt_<difficulty>`), password encoding, checking a
  plaintext against a stored `(type, encoding)` pair, and the test that
  decides whether a stored encoding is re-encoded after a login. SHA-256,
  base64 and bcrypt are function values passed in as a `Crypto` record. The
  one fact relied on about them is `checkpw(h, hashpw(h, salt))`, stated as
  the predicate `Sound`.
- **Member database** (`member_db.dfy`): the `members`, `locations` and
  `entry_log` tables as the fields of a `Database` class. Each SQL statement
  of Doorbot/DB.py is a method (insert, re-tag, rename, (de)activate, set or
  check a password, log an entry, the searches, the active-tag dump). The
  rows each SELECT may return are described by functions and predicates.
  The UNIQUE constraint on `rfid` is the class invariant.
- **HTTP routes** (`api.dfy`): the `MATCH_INT` and `MATCH_NAME` validators,
  including Python's `$` matching before a final newline. Also the
  400/404/403/200 decision table with its `is_active_tag` and
  `is_found_tag` flags, the entry-log write, the offset/limit clamping of
  the two search routes, and their comma-separated output, with a proof
  that it parses back.
- **MMS reconciliation** (`reconcile.dfy`, build_cache2.py): the
  latest-completed-transaction scan, reducing external members to one
  record per display name, the five buckets of `filter_members`, the
  `handle_*` projections and the report they make up.
- **Active member cache** (`active_cache.dfy`, build_active_member_cache.py):
  the members keyed by keyfob id, with the last one winning, and the
  `is_active_member` filter.
- **Bucket selector** (`bucket_filter.dfy`, filter.py): the chain of flag
  tests in which the last set flag wins and a missing bucket raises
  KeyError.

Supporting modules:

- `common.dfy`: `Option`, `Result` and the Python exceptions the model raises.
- `text.dfy`: ASCII character classes, the greedy regex run, case folding,
  `str(n)` and `int(s)`, Python's string `<`, and `join`/`split`.
- `seqs.dfy`: filter, map, ORDER BY as a sorted permutation, and the
  LIMIT/OFFSET window.
- `pydict.dfy`: an insertion-ordered Python `dict`. Writing an existing key
  replaces its value and keeps its position, which is what `.values()`
  iterates.

Where a route or script raises, the model returns `Err` with the exception:
`TypeError`, `KeyError`, `IntegrityError`, `NoResultFound`, `NameError` or `ValueError`.
The server's clock is a `now` parameter. bcrypt's random salt is a `salt`
parameter. `DT_CONVERT_FUNC` is a `fmt` parameter.

The session-based routes of Doorbot/API.py use the SQLAlchemy mapping of
Doorbot/SQLAlchemy.py. They are modelled on the same `Database`: `active`
defaults to true and `mms_id` is NULL for a new tag.

## Model

| member | source | states |
|---|---|---|
| Credentials.PasswordName | Doorbot/DB.py:534-544 | a tag exists exactly for a plaintext or bcrypt configuration; plaintext gives "plaintext" |
| Credentials.PasswordNameParsesBack | Doorbot/DB.py:540-542 | the bcrypt tag matches `^bcrypt_(\d+)$` and its digits read back as the configured difficulty |
| Credentials.EncodePassword | Doorbot/DB.py:466-485 | encoding is the identity for every type except bcrypt; bcrypt hashes the digest of the plaintext |
| Credentials.MatchPassword | Doorbot/DB.py:515-532 | raises exactly on a NULL type, or on a bcrypt tag with a NULL encoding; fails closed on any other tag; true only when the plaintext matches or bcrypt checks the digest |
| Credentials.EncodeThenMatch | Doorbot/DB.py:450-485 | round trip: under a plaintext or bcrypt configuration, the stored type and encoding of a plaintext verify it, for any salt |
| Credentials.IsPreferredAuth | Doorbot/DB.py:546-559 | true exactly when the stored type equals the configured type; the bcrypt_N branch can never return true |
| Credentials.BcryptNameIsNoTag | Doorbot/DB.py:552-553 | the type name "bcrypt" does not match `^bcrypt_(\d+)$` |
| Credentials.BcryptBranchDead | Doorbot/DB.py:552-553 | a stored type that matches `^bcrypt_(\d+)$` is never "bcrypt", so the branch's first test fails |
| Credentials.BcryptConfigAlwaysReencodes | Doorbot/DB.py:546-559 | under a bcrypt configuration no bcrypt_N record is preferred, not even the one just written |
| Credentials.PlaintextConfigDowngrades | Doorbot/DB.py:546-559 | under a plaintext configuration a bcrypt record is not preferred and is rewritten as plaintext |
| Credentials.BcryptTagOfDigits | Doorbot/DB.py:524 | `bcrypt_` followed by `str(d)` matches the bcrypt tag pattern |
| Credentials.DigitRunMatches | Doorbot/DB.py:524 | a non-empty run of digits matches `\d+$` exactly |
| MemberDb.RowIndex | Doorbot/DB.py:27-31 | the index found holds the tag, and none is found exactly when no row holds it |
| MemberDb.StoredRow | Doorbot/DB.py:27-31 | `WHERE rfid = %s` returns a row exactly when one holds the tag, and that row holds it |
| MemberDb.UpdateWhere | Doorbot/DB.py:67-83 | `UPDATE … WHERE rfid = %s` changes exactly the rows holding the tag, and only by the update |
| MemberDb.UpdateKeepsUnique | Doorbot/DBSqlite3.py:6 | an update that leaves rfid alone keeps the tags unique |
| MemberDb.RetagKeepsUnique | Doorbot/DBSqlite3.py:6 | re-tagging keeps the tags unique unless the new tag belongs to another row |
| MemberDb.MatchingMembership | Doorbot/DB.py:399-405 | a row is in the search result's WHERE set exactly when it is in the table, contains the name case-insensitively if one is given, and holds the tag if one is given |
| MemberDb.SearchIgnoresArgumentCase | Doorbot/DB.py:92-94 | re-casing the search argument changes neither the substring search nor the prefix lookup |
| MemberDb.SearchIgnoresStoredCase | Doorbot/DB.py:92-94 | re-casing a stored name changes neither match |
| MemberDb.LowerCaseArgumentFinds | t/test_010_db.py:96-100 | "foo" finds "Foo Bar" by prefix, and "bar" finds it by substring |
| MemberDb.SearchWindow | Doorbot/DB.py:410-416 | LIMIT applies only when the limit is nonzero; with limit and offset both 0 nothing is cut |
| MemberDb.ResolveLocation | Doorbot/DB.py:39-44 | the stored location is NULL exactly when the name matches no location |
| MemberDb.Database.constructor | Doorbot/DBSqlite3.py:3-20 | empty tables with the given locations |
| MemberDb.Database.AddMember | Doorbot/DB.py:254-261 | appends an active member with no password exactly when the tag is free; otherwise IntegrityError and nothing changes |
| MemberDb.Database.ChangeTag | Doorbot/DB.py:263-269 | re-tags the row holding the current tag; IntegrityError exactly when another row already holds the new one; an unknown tag changes nothing |
| MemberDb.Database.ChangeName | Doorbot/DB.py:271-277 | only the name of the row with that tag changes |
| MemberDb.Database.SetActiveStatus | Doorbot/DB.py:67-71 | only the active flag of the row with that tag changes |
| MemberDb.Database.ActivateMember | Doorbot/DB.py:373-378 | only the row with that tag, now active |
| MemberDb.Database.DeactivateMember | Doorbot/DB.py:366-371 | only the row with that tag, now inactive |
| MemberDb.Database.FetchMemberByRfid | Doorbot/DB.py:300-317 | None exactly when no row holds the tag, otherwise that row's fields |
| MemberDb.Database.FetchMemberByName | Doorbot/DB.py:280-298 | None exactly when no name starts with the argument (ignoring case), otherwise the fields of a row whose name does |
| MemberDb.Database.LogEntry | Doorbot/DB.py:319-329 | appends exactly one log row, with a NULL location for an unknown name |
| MemberDb.Database.FetchEntries | Doorbot/DB.py:342-364 | a newest-first ordering of the joined log, filtered by the tag when one is given, with `offset` rows skipped; exactly min(limit, rest) rows, by default at most 100 |
| MemberDb.Database.SearchMembers | Doorbot/DB.py:389-437 | the matching rows, ordered by join date only when limit or offset is nonzero, then windowed; at most `limit` rows; every row matches; unpaged, no matching row is missing |
| MemberDb.Database.DumpActiveMembers | Doorbot/DB.py:439-448 | the keys are exactly the tags of active rows, each mapped to True |
| MemberDb.Database.SetPassword | Doorbot/DB.py:450-464 | only the row with that tag changes: its stored type and encoding |
| MemberDb.Database.AuthPassword | Doorbot/DB.py:487-513 | false for an unknown tag; otherwise the match result; no write unless the match succeeds; after a successful match with a non-preferred type, the row carries the configured type and the plaintext still verifies |
| Api.RunCoversAll | Doorbot/API.py:8-22 | a string entirely in the class is consumed whole by the greedy run |
| Api.MatchIntAccepts | Doorbot/API.py:8-12 | MATCH_INT accepts exactly a non-empty digit string, optionally followed by one final newline |
| Api.MatchNameAccepts | Doorbot/API.py:13-22 | MATCH_NAME accepts exactly the non-empty strings of word characters, whitespace, `-` and `.` |
| Api.Judge | Doorbot/API.py:50-55 | 404 exactly when the tag is not found, 200 exactly when it is active, 403 otherwise; active implies found |
| Api.CheckTag | Doorbot/API.py:38-57 | 400 exactly for a tag that fails MATCH_INT; then 404 for an unknown tag, 200 for an active member, 403 for an inactive one |
| Api.LogEntry | Doorbot/API.py:61-100 | 400 with nothing written for a bad tag or location; NoResultFound with nothing written for an unknown location; otherwise exactly one entry with the verdict's flags and status, deny outcomes included |
| Api.NewTag | Doorbot/API.py:104-119 | 400 for a bad tag or name; 201 and one new active member with no external id when the tag is free; IntegrityError when it is taken |
| Api.AsWritten | Doorbot/API.py:123-255 | the seven `DB` routes as written, in a module binding given names: 400 exactly when a tag fails MATCH_INT, ValueError exactly on a non-numeric offset or limit, otherwise the intended call (clamped window for the searches) exactly when `DB` is bound and NameError exactly when it is not |
| Api.UnboundDbRaises | Doorbot/API.py:1-6 | API.py's names lack `DB`, so for every request the route as written either answers 400, or raises; every request passing its checks raises NameError, and with `DB` bound makes its intended call |
| Api.ValidTagRaises | Doorbot/API.py:129 | concrete requests to each of the seven routes that raise NameError, and a non-numeric offset that raises ValueError first |
| Api.DumpTags | Doorbot/API.py:253-255 | with the store bound: the keys are exactly the tags of active members, each mapped to True |
| Api.DeactivateTag | Doorbot/API.py:123-131 | with the store bound: 400 exactly for a bad tag, otherwise 200 and the row with that tag deactivated |
| Api.ReactivateTag | Doorbot/API.py:135-143 | with the store bound: 400 exactly for a bad tag, otherwise 200 and the row with that tag reactivated |
| Api.StatusRoutesDecideCheck | Doorbot/API.py:123-143 | after deactivation a known tag gets 403 from the check; after reactivation, 200 |
| Api.EditTag | Doorbot/API.py:147-158 | with the store bound: 400 exactly when either tag is bad; IntegrityError exactly when another member holds the new tag; otherwise 201 and the re-tag |
| Api.EditName | Doorbot/API.py:162-170 | with the store bound: 400 exactly for a bad tag, otherwise 201 and the rename; the new name is not validated |
| Api.ClampSearchTags | Doorbot/API.py:184-193 | negative offset becomes 0; negative limit becomes 50; a limit above 100 becomes 100; 0 stays 0 (no limit); the limit never exceeds 100 |
| Api.ClampEntryLog | Doorbot/API.py:221-230 | negative offset becomes 0; a limit of 0 or below becomes 50; above 100 becomes 100; the limit always lies in 1..100 |
| Api.ClampsDifferOnlyAtZero | Doorbot/API.py:184-193 | the two routes clamp the same way except for a limit of 0 |
| Api.TagFields | Doorbot/API.py:199-204 | four fields per member |
| Api.EntryFields | Doorbot/API.py:236-243 | six fields per entry |
| Api.FormatTagLines | Doorbot/API.py:197-204 | the output is one comma-joined line per member, in order, each ended by a newline |
| Api.FormatEntryLines | Doorbot/API.py:234-243 | the output is one comma-joined line per entry, in order, each ended by a newline |
| Api.JoinKeepsNewlinesOut | Doorbot/API.py:199-204 | a line made of fields without newlines holds no newline |
| Api.ParseLines | Doorbot/API.py:197-204 | read back: the output splits into one line per row plus an empty tail, and each line splits back into its fields |
| Api.TagOutputParses | Doorbot/API.py:197-204 | `search_tags` output parses back into each member's four fields, in order |
| Api.EntryOutputParses | Doorbot/API.py:234-243 | `search_entry_log` output parses back into each entry's six fields, in order |
| Api.SearchTags | Doorbot/API.py:175-209 | with the store bound: the output renders a search result for the clamped offset and limit |
| Api.SearchEntryLog | Doorbot/API.py:213-248 | with the store bound: the output renders a log page for the clamped arguments: at most 100 entries, newest first |
| Reconcile.LatestFromIsLatest | build_cache2.py:85-90 | the scan ends with the greatest completed `expires_at` and the membership of the first transaction reaching it, or with the starting pair |
| Reconcile.LatestIsLatest | build_cache2.py:85-90 | the same, for the start '0000-00-00 00:00:00' |
| Reconcile.LatestStepTaken | build_cache2.py:88-90 | a completed transaction expiring strictly later takes over |
| Reconcile.LatestStepKept | build_cache2.py:88 | any other transaction leaves the pair alone |
| Reconcile.LatestReplacedFrom | build_cache2.py:88 | the starting pair is replaced exactly when some completed transaction expires after it |
| Reconcile.LatestUniqueFrom | build_cache2.py:85-90 | the latest pair is unique |
| Reconcile.LatestCompletedTransaction | build_cache2.py:85-90 | the loop computes the latest pair |
| Reconcile.RecordOf | build_cache2.py:80-100 | the record holds the display name, the id and the memberships; active exactly when memberships are non-empty; the latest membership and its date cut to 10 characters |
| Reconcile.ReformatSnoc | build_cache2.py:77-92 | one more member either writes its record under its name or is skipped |
| Reconcile.ReformatMmsMembers | build_cache2.py:75-102 | the loop builds the dictionary described by `Reformat` |
| Reconcile.ReformatKeys | build_cache2.py:78-92 | the keys are exactly the display names of members with transactions, and each record carries its key |
| Reconcile.ReformatSkipsEmpty | build_cache2.py:78-79 | a member without transactions never produces a record |
| Reconcile.ReformatLastWins | build_cache2.py:92 | of several members with one name, the last one's record is kept |
| Reconcile.PairWith | build_cache2.py:137-146 | the pair holds the external record and its local namesake, or None |
| Reconcile.ClearBucket | build_cache2.py:150-151 | every clear pair is matched with equal active flags |
| Reconcile.WrongActiveBucket | build_cache2.py:148-149 | every wrong-active pair is matched with different active flags |
| Reconcile.WrongNameBucket | build_cache2.py:135-140 | every wrong-name pair is active, unmatched and has `db` None |
| Reconcile.NoMmsIdBucket | build_cache2.py:153-154 | every no-mms-id pair is matched and its local mms_id is empty |
| Reconcile.WrongRfidNameBucket | build_cache2.py:156-161 | every wrong-rfid-name pair is an active local record whose name is not an external key, with `mms` None |
| Reconcile.BucketsSnoc | build_cache2.py:132-154 | one more external record adds to each bucket exactly when its test holds |
| Reconcile.WrongRfidNameSnoc | build_cache2.py:156-161 | one more local record adds to the bucket exactly when its test holds |
| Reconcile.FilterExternal | build_cache2.py:132-154 | the first loop builds the clear, wrong-name, wrong-active and no-mms-id buckets |
| Reconcile.FilterLocal | build_cache2.py:156-161 | the second loop builds the wrong-rfid-name bucket |
| Reconcile.FilterMembers | build_cache2.py:125-164 | the five lists are the five buckets over the dictionaries' values |
| Reconcile.MatchedSplit | build_cache2.py:141-151 | a matched external record is in exactly one of clear and wrong-active, by whether the flags agree |
| Reconcile.UnmatchedGoesToWrongName | build_cache2.py:135-140 | an unmatched record is reported with `db` None exactly when it is active, and in neither matched bucket |
| Reconcile.NoMmsIdContents | build_cache2.py:153-154 | the no-mms-id bucket holds exactly the matched pairs whose local mms_id is empty |
| Reconcile.WrongRfidNameContents | build_cache2.py:156-161 | the wrong-rfid-name bucket holds exactly the active local records whose name is not an external key |
| Reconcile.HandleClear | build_cache2.py:166-175 | same length and order; each row projects rfid, the MMS flag and the MMS name |
| Reconcile.HandleWrongName | build_cache2.py:177-185 | same length and order; each row projects the MMS id and name |
| Reconcile.HandleWrongRfidName | build_cache2.py:187-195 | same length and order; each row projects the local rfid and name |
| Reconcile.HandleWrongActive | build_cache2.py:197-209 | same length and order; each row projects rfid, name, both flags, membership and end date |
| Reconcile.HandleNoMmsId | build_cache2.py:211-221 | same length and order; each row projects rfid, MMS id, local name and end date |
| Reconcile.BuildCache | build_cache2.py:227-240 | the report is the five projections of the buckets of the reformatted members |
| Reconcile.WrongActiveRowsDiffer | build_cache2.py:197-209 | every wrong-active row reports two different flags |
| Reconcile.ClearRowsAgree | build_cache2.py:166-175 | every clear row names a local record whose flag and tag it reports |
| ActiveCache.EntryOf | build_active_member_cache.py:57-69 | the entry copies the fields and records the keyfob as its rfid |
| ActiveCache.MapMembersByRfid | build_active_member_cache.py:54-71 | the loop builds the keyfob-keyed dictionary |
| ActiveCache.ByRfidKeys | build_active_member_cache.py:54-71 | the keys are exactly the keyfob ids seen, and each value's rfid is its key |
| ActiveCache.ByRfidLastWins | build_active_member_cache.py:63 | the last member with a keyfob wins |
| ActiveCache.ByRfidValues | build_active_member_cache.py:63 | every value comes from the last member with its keyfob |
| ActiveCache.IsActiveMember | build_active_member_cache.py:74-89 | false for empty memberships, for an empty keyfob and for "0000000000"; true in every other case |
| ActiveCache.ActiveMembers | build_active_member_cache.py:95-98 | the result is an order-preserving subsequence of the values, and all of it is active |
| ActiveCache.ActiveMembersComplete | build_active_member_cache.py:95-98 | an entry is kept exactly when it is a value and active |
| ActiveCache.ActiveCacheContents | build_active_member_cache.py:54-98 | an entry is cached exactly when it is active and made from the last member with its keyfob |
| BucketFilter.AfterOutcome | filter.py:47-62 | the first n tests raise exactly when one of them asks for a missing bucket, and then raise KeyError; otherwise `want` is [] or a bucket |
| BucketFilter.AfterLastSet | filter.py:49-62 | when nothing raises, the last set flag so far decides |
| BucketFilter.AfterNoneSet | filter.py:48 | with no flag set, `want` stays [] |
| BucketFilter.ErrSticks | filter.py:49-62 | once KeyError is raised nothing later runs |
| BucketFilter.Chosen | filter.py:47-64 | raises exactly when a set flag's bucket is missing; otherwise the output is [] or one of the buckets, and [] when no flag is set |
| BucketFilter.Select | filter.py:47-64 | the chain of tests computes `Chosen` |
| BucketFilter.LatestFlagWins | filter.py:49-62 | the set flag latest in the order clear, zerod, wrong-name, wrong-active, add-to-db, add-to-mms, no-mms-id decides |
| BucketFilter.OneFlag | filter.py:49-62 | with exactly one flag set, the output is that flag's bucket |
| BucketFilter.ReportRequests | build_cache2.py:234-240 | against the report build_cache2.py writes, asking for zerod, add-to-db or add-to-mms raises KeyError, and every other request succeeds |
| Text.RunLength | Doorbot/API.py:8-22 | the greedy run consumes class characters only, and stops at the first other one |
| Text.GreedyRunDecides | Doorbot/API.py:8-22 | the greedy run finds a match exactly when some prefix of class characters reaches `$` |
| Text.LowerCharEqual | Doorbot/DB.py:92-94 | two characters fold alike exactly when they are equal or the two cases of one ASCII letter |
| Text.LowerEqual | Doorbot/DB.py:92-94 | two strings fold alike exactly when they differ only in the case of their letters |
| Text.NatToStringIsDigitRun | Doorbot/DB.py:542 | `str(d)` is a non-empty run of digits |
| Text.NatToStringRoundTrip | Doorbot/DB.py:542 | `int(str(d)) == d` |
| Text.LexLessIrreflexive | build_cache2.py:88 | string `<` is irreflexive |
| Text.LexLessTransitive | build_cache2.py:88 | string `<` is transitive |
| Text.LexLessTotal | build_cache2.py:88 | string `<` is total on distinct strings |
| Text.SplitJoin | Doorbot/API.py:199-204 | splitting a comma-join of comma-free fields gives the fields back |
| Text.SplitTerminated | Doorbot/API.py:197-204 | splitting newline-ended newline-free lines gives the lines and an empty tail |
| Text.TerminatedSnoc | Doorbot/API.py:204 | appending a line and its newline extends the rendering |
| Seqs.FirstIndex | Doorbot/DB.py:286 | the first index satisfying the test, or none exactly when no element does |
| Seqs.FilterMembership | build_active_member_cache.py:95-98 | an element survives the filter exactly when it is in the input and passes |
| Seqs.FilterIsSubsequence | build_active_member_cache.py:95-98 | filtering keeps the survivors in order |
| Seqs.MapFilterMembership | build_cache2.py:132-161 | a filter-then-project bucket holds exactly the projections of the passing elements |
| Seqs.SortByOrders | Doorbot/DB.py:61-65 | ORDER BY returns a sorted permutation of its input |
| Seqs.Page | Doorbot/DB.py:61-65 | LIMIT/OFFSET returns min(limit, rest) rows, starting at the offset |
| PyDict.Put | build_cache2.py:92 | `d[k] = v` updates the entry and appends k to the order only when it is new |
| PyDict.Values | build_cache2.py:132 | `.values()` lists each entry's value in the keys' order |
| PyDict.ValuesListsEveryEntry | build_cache2.py:132 | every value of the dictionary is listed |
| PyDict.PutAllKeys | build_active_member_cache.py:56-63 | after the loop, the keys are exactly the keys of the items |
| PyDict.PutAllLastWins | build_active_member_cache.py:63 | the last item with a key provides its value |
| PyDict.PutAllValues | build_active_member_cache.py:63 | every value comes from the last item with its key |

## Left out

- Connection and SQL plumbing (`db_connect`, `set_db`, `conn`, `close`, the reconnect retry of `_run_statement`, `set_sqlite`'s rewriting of placeholders and dialects): these are I/O. The tables are in-memory state.
- `DT_CONVERT_FUNC`, the timestamp formatter: it is a parameter `fmt`. `entry_time` and `join_date` are integers, of which only their order is used.
- The `phone`, `email`, `entry_type`, `notes` and `end_date` columns: the modelled code only writes them as constants or never reads them.
- MemberDb.Database.FetchMemberByRfid: the `id` column that `fetch_member_by_rfid` selects and returns is omitted from `MemberInfo`, because no modelled caller reads it.
- MemberDb.Database.FetchMemberByName: the SELECT has no ORDER BY, so the contract promises only some row whose name matches, as the database does. The body happens to take the first in table order, but callers may not rely on that. t/test_010_db.py:54-58 expects a particular row, which holds only while that row is the sole match.
- MemberDb.NameMatchesPrefix and MemberDb.MatchesSearch: the ILIKE wildcards `%` and `_` inside a user-supplied name are taken literally, and case folding is ASCII only.
- Api.MatchInt and Api.MatchName: Python's `\d`, `\w` and `\s` are Unicode-aware. The model uses ASCII classes.
- Credentials.IsBcryptTag: the `\d` of `^bcrypt_(\d+)$` is Unicode-aware in Python, so a stored type such as "bcrypt_" followed by an Arabic-Indic digit reaches `bcrypt.checkpw` in the source. The model's ASCII digits make Credentials.MatchPassword answer `Ok(false)` for it, and Credentials.IsPreferredAuth treats it as no bcrypt tag.
- Credentials.PasswordName and Credentials.EncodePassword: a configuration missing `type` or `bcrypt.difficulty` raises KeyError in the source. The model's `Config` record always has both. The range check of `bcrypt.gensalt` is not modelled.
- Hashing internals (SHA-256, base64, bcrypt's `hashpw`, `checkpw` and `gensalt`): these are foreign code, passed in as functions. The only property used is `Sound`, and salts and cost are parameters.
- Negative LIMIT and OFFSET, and SQLite's refusal of an OFFSET without a LIMIT: the store's limit and offset are natural numbers, following PostgreSQL. The routes clamp them before calling.
- Api.ArgValue: the search routes with `DB` bound (Api.SearchTags, Api.SearchEntryLog) take the query arguments already parsed. Only Api.AsWritten sees the raw argument, as a `QueryArg` that says whether `int()` raises ValueError; which texts `int()` accepts (signs, surrounding whitespace, underscores, Unicode digits) is not modelled.
- Network fetches and pagination (`fetch_member_mms_page`, `fetch_all_mms_members`, `fetch_member_page`, `fetch_all_members`): these are I/O. Their results are parameters.
- `fetch_members_db`, the dictionary of local records keyed by name: it is a parameter of `Reconcile.BuildCache`.
- Printing, stdin/stdout JSON and argparse: these are I/O. The JSON shapes become datatypes. A member missing `profile` or another key, which would raise KeyError, is not modelled.
- `redirect_home` and Doorbot/Pages.py: these are HTTP glue with no decision of their own.
- The role and permission graph, OAuth tokens, `Member.set_password`/`check_password`, `get_by_tag`/`get_by_username` and the Apache-MD5 password type: the tests use them, but no definition of them is part of this model.
- The batch scripts fix_wrong_name.py, fix_mms_id.py, fix_wrong_active.py and add_members_to_db.py, and app.py: these are thin loops over stdin and the session.
- The SQLAlchemy session's unit of work: each route's `commit` is modelled as the corresponding `Database` method, which takes effect at once.
- Reconcile.FilterMembers: the source's one function is modelled as two methods, one per loop (`FilterExternal`, `FilterLocal`). The results are the same.

## Findings

| source | as written | input that shows it | evidently intended | confidence | as-written member | corrected member |
|---|---|---|---|---|---|---|
| Doorbot/API.py:129 | `deactivate_tag` calls `DB.deactivate_member`, but API.py never imports `DB`, so every valid tag raises NameError | tag "1234" | the member with that tag is deactivated and 200 is answered | high, not executed | Api.AsWritten, Api.ValidTagRaises | Api.DeactivateTag |
| Doorbot/API.py:141 | `reactivate_tag` calls `DB.activate_member` through the unbound name `DB` | tag "1234" | the member is reactivated and 200 is answered | high, not executed | Api.AsWritten, Api.ValidTagRaises | Api.ReactivateTag |
| Doorbot/API.py:156 | `edit_tag` calls `DB.change_tag` through the unbound name `DB` | tags "1234" and "4321" | the member is re-tagged and 201 is answered | high, not executed | Api.AsWritten, Api.ValidTagRaises | Api.EditTag |
| Doorbot/API.py:168 | `edit_name` calls `DB.change_name` through the unbound name `DB` | tag "1234" | the member is renamed and 201 is answered | high, not executed | Api.AsWritten, Api.ValidTagRaises | Api.EditName |
| Doorbot/API.py:195 | `search_tags` calls `DB.search_members` through the unbound name `DB` | any request whose offset and limit parse | the matching members are listed | high, not executed | Api.AsWritten, Api.ValidTagRaises | Api.SearchTags |
| Doorbot/API.py:232 | `search_entry_log` calls `DB.fetch_entries` through the unbound name `DB` | any request whose offset and limit parse | the newest entries are listed | high, not executed | Api.AsWritten, Api.ValidTagRaises | Api.SearchEntryLog |
| Doorbot/API.py:254 | `dump_tags` calls `DB.dump_active_members` through the unbound name `DB` | any request | the active tags are answered, each mapped to true | high, not executed | Api.AsWritten, Api.ValidTagRaises | Api.DumpTags |
