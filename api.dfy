/** The request decision layer of Doorbot/API.py: the two URL validators,
    the status/flag table of the tag routes, the offset/limit clamping of the
    two search routes and the comma-separated lines they answer with.  The
    session and the `DB` module are the `Database` of MemberDb. */
module Api {
  import opened Common
  import opened Text
  import opened Seqs
  import opened MemberDb

  /** The class `[\w\s\-\.]` of MATCH_NAME (ASCII). */
  predicate IsNameChar(c: char) {
    IsWordChar(c) || IsSpace(c) || c == '-' || c == '.'
  }

  /** `MATCH_INT.match(s)`, i.e. `^\d+$`. */
  predicate MatchInt(s: string) { MatchesRunToEnd(s, IsDigit) }

  /** `MATCH_NAME.match(s)`, i.e. `^[\w\s\-\.]+$`. */
  predicate MatchName(s: string) { MatchesRunToEnd(s, IsNameChar) }

  /** A run that covers every character is what the greedy matcher consumes. */
  lemma RunCoversAll(s: string, cls: char -> bool)
    requires forall i :: 0 <= i < |s| ==> cls(s[i])
    ensures RunLength(s, cls) == |s|
  {
  }

  /** MATCH_INT accepts a non-empty string of digits, and, because `$` also
      matches before a final newline, the same followed by one "\n". */
  lemma MatchIntAccepts(s: string)
    ensures MatchInt(s) <==> IsDigitRun(s) || (|s| > 1 && s[|s| - 1] == '\n' && IsDigitRun(s[..|s| - 1]))
  {
    var k := RunLength(s, IsDigit);
    if IsDigitRun(s) {
      RunCoversAll(s, IsDigit);
    } else if |s| > 1 && s[|s| - 1] == '\n' && IsDigitRun(s[..|s| - 1]) {
      var init := s[..|s| - 1];
      assert forall i :: 0 <= i < |init| ==> s[i] == init[i];
      assert k == |s| - 1;
    }
    if MatchInt(s) && k < |s| {
      assert s[..|s| - 1] == s[..k];
    }
  }

  /** MATCH_NAME accepts exactly the non-empty strings of name characters:
      its final-newline allowance adds nothing, "\n" being in `\s`. */
  lemma MatchNameAccepts(s: string)
    ensures MatchName(s) <==> |s| > 0 && forall i :: 0 <= i < |s| ==> IsNameChar(s[i])
  {
    if |s| > 0 && forall i :: 0 <= i < |s| ==> IsNameChar(s[i]) {
      RunCoversAll(s, IsNameChar);
    }
  }

  /** The outcome shared by `check_tag` and `log_entry` for a looked-up member. */
  datatype Verdict = Verdict(status: int, isActiveTag: bool, isFoundTag: bool)

  function Judge(m: Option<MemberRow>): (v: Verdict)
    ensures v.isFoundTag <==> m.Some?
    ensures v.isActiveTag <==> m.Some? && m.value.active
    ensures v.isActiveTag ==> v.isFoundTag
    ensures v.status == 200 <==> v.isActiveTag
    ensures v.status == 404 <==> !v.isFoundTag
    ensures v.status == 200 || v.status == 403 || v.status == 404
  {
    match m
    case None => Verdict(404, false, false)
    case Some(row) => if row.active then Verdict(200, true, true) else Verdict(403, false, true)
  }

  /** `check_tag`: 400 before any lookup, then 404 / 200 / 403. */
  method CheckTag(db: Database, tag: string) returns (status: int)
    requires db.Valid()
    ensures status == 400 <==> !MatchInt(tag)
    ensures status == 404 <==> MatchInt(tag) && forall i :: 0 <= i < |db.members| ==> db.members[i].rfid != tag
    ensures status == 200 <==> MatchInt(tag) && exists i :: 0 <= i < |db.members| && db.members[i].rfid == tag && db.members[i].active
    ensures status == 403 <==> MatchInt(tag) && exists i :: 0 <= i < |db.members| && db.members[i].rfid == tag && !db.members[i].active
  {
    if !MatchInt(tag) {
      return 400;
    }
    var m := StoredRow(db.members, tag);
    status := Judge(m).status;
    if m.Some? {
      var k :| 0 <= k < |db.members| && db.members[k] == m.value;
      assert forall i :: 0 <= i < |db.members| && db.members[i].rfid == tag ==> i == k;
    }
  }

  /** `log_entry`: 400 and nothing written for a bad tag or location; a
      location name that is not in the table raises at `.one()` and nothing
      is written; otherwise exactly one log row is appended, deny outcomes
      included, and the status follows the verdict. */
  method LogEntry(db: Database, tag: string, location: string, now: int) returns (r: Result<int>)
    requires db.Valid()
    modifies db
    ensures db.Valid()
    ensures db.members == old(db.members) && db.locations == old(db.locations)
    ensures !MatchInt(tag) || !MatchName(location) ==> r == Ok(400)
    ensures MatchInt(tag) && MatchName(location) && location !in db.locations ==> r == Err(NoResultFound)
    ensures r.Err? ==> r.error == NoResultFound
    ensures r == Ok(400) || r.Err? ==> db.entryLog == old(db.entryLog)
    ensures r.Ok? && r.value != 400 ==>
              var v := Judge(StoredRow(db.members, tag));
              r.value == v.status &&
              db.entryLog == old(db.entryLog) + [LogRow(tag, Some(location), now, v.isActiveTag, v.isFoundTag)]
    ensures MatchInt(tag) && MatchName(location) && location in db.locations ==> r.Ok? && r.value != 400
  {
    if !MatchInt(tag) || !MatchName(location) {
      return Ok(400);
    }
    var m := StoredRow(db.members, tag);
    if location !in db.locations {
      return Err(NoResultFound);
    }
    var v := Judge(m);
    db.LogEntry(tag, Some(location), v.isActiveTag, v.isFoundTag, now);
    r := Ok(v.status);
  }

  /** `new_tag`: 400 for a bad tag or name, otherwise the insert of an
      active member without an external id, answered by 201; a tag already
      in the table makes the commit fail. */
  method NewTag(db: Database, tag: string, fullName: string, now: int) returns (r: Result<int>)
    requires db.Valid()
    modifies db
    ensures db.Valid()
    ensures db.entryLog == old(db.entryLog) && db.locations == old(db.locations)
    ensures !MatchInt(tag) || !MatchName(fullName) ==> r == Ok(400) && db.members == old(db.members)
    ensures MatchInt(tag) && MatchName(fullName) ==>
              if RowIndex(old(db.members), tag).None?
              then r == Ok(201) && db.members == old(db.members) + [NewMember(fullName, tag, None, now)]
              else r == Err(IntegrityError) && db.members == old(db.members)
  {
    if !MatchInt(tag) || !MatchName(fullName) {
      return Ok(400);
    }
    var added := db.AddMember(fullName, tag, None, now);
    if added.Err? {
      return Err(IntegrityError);
    }
    r := Ok(201);
  }

  // The routes below reach the store through the name `DB`, which API.py
  // never binds.  AsWritten gives them as written, over the names the
  // module binds; the methods after it bind `DB` to Doorbot/DB.py.

  /** The names API.py binds at module level: its imports (Doorbot/API.py:1-6)
      and its own definitions. */
  const ApiNames: set<string> := {
    "flask", "os", "re", "Doorbot", "EntryLog", "Location", "Member", "get_session", "select",
    "MATCH_INT", "MATCH_NAME", "app", "redirect_home", "check_tag", "log_entry", "new_tag",
    "deactivate_tag", "reactivate_tag", "edit_tag", "edit_name", "search_tags",
    "search_entry_log", "dump_tags"
  }

  /** A query argument as `flask.request.args.get` gives it: missing or
      empty (both falsy), a text `int()` reads as a number, or a text on
      which `int()` raises ValueError. */
  datatype QueryArg = Falsy | Number(n: int) | NotNumber

  /** `int(arg) if arg else 0`, with the falsy case as the None that
      ArgValue reads as 0. */
  function ParseArg(a: QueryArg): Result<Option<int>> {
    match a
    case Falsy => Ok(None)
    case Number(n) => Ok(Some(n))
    case NotNumber => Err(ValueError)
  }

  /** A request to one of the routes that go through `DB`, with its URL
      parts or its query arguments. */
  datatype Route =
    | DeactivateRoute(tag: string)
    | ReactivateRoute(tag: string)
    | EditTagRoute(current: string, newTag: string)
    | EditNameRoute(tag: string, newName: string)
    | SearchTagsRoute(name: string, tag: string, offset: QueryArg, limit: QueryArg)
    | SearchEntryLogRoute(tag: string, offset: QueryArg, limit: QueryArg)
    | DumpTagsRoute

  /** A call on `DB`, with its arguments. */
  datatype StoreCall =
    | DeactivateMemberCall(tag: string)
    | ActivateMemberCall(tag: string)
    | ChangeTagCall(current: string, newTag: string)
    | ChangeNameCall(tag: string, newName: string)
    | SearchMembersCall(name: string, tag: string, offset: nat, limit: nat)
    | FetchEntriesCall(limit: nat, offset: nat, tag: string)
    | DumpActiveMembersCall

  /** How a route ends when it does not raise: it answers by itself, or it
      makes its call on `DB`. */
  datatype Step = Answer(status: int) | Call(call: StoreCall)

  /** The checks a route makes before it reaches `DB`: MATCH_INT on each
      tag of the URL.  The search routes and `dump_tags` check nothing. */
  predicate PassesChecks(route: Route) {
    match route
    case DeactivateRoute(tag) => MatchInt(tag)
    case ReactivateRoute(tag) => MatchInt(tag)
    case EditTagRoute(current, newTag) => MatchInt(current) && MatchInt(newTag)
    case EditNameRoute(tag, _) => MatchInt(tag)
    case _ => true
  }

  /** A search route with a query argument on which `int()` raises. */
  predicate HasBadNumber(route: Route) {
    match route
    case SearchTagsRoute(_, _, offset, limit) => offset.NotNumber? || limit.NotNumber?
    case SearchEntryLogRoute(_, offset, limit) => offset.NotNumber? || limit.NotNumber?
    case _ => false
  }

  function ArgOf(a: QueryArg): Option<int> { if a.Number? then Some(a.n) else None }

  /** The call each route is there to make: the URL parts as given, or the
      clamped window of the search. */
  function CallOf(route: Route): StoreCall {
    match route
    case DeactivateRoute(tag) => DeactivateMemberCall(tag)
    case ReactivateRoute(tag) => ActivateMemberCall(tag)
    case EditTagRoute(current, newTag) => ChangeTagCall(current, newTag)
    case EditNameRoute(tag, newName) => ChangeNameCall(tag, newName)
    case SearchTagsRoute(name, tag, offset, limit) =>
      var w := ClampSearchTags(ArgOf(offset), ArgOf(limit));
      SearchMembersCall(name, tag, w.0, w.1)
    case SearchEntryLogRoute(tag, offset, limit) =>
      var w := ClampEntryLog(ArgOf(offset), ArgOf(limit));
      FetchEntriesCall(w.1, w.0, tag)
    case DumpTagsRoute => DumpActiveMembersCall
  }

  /** `DB.<method>(…)`: the name `DB` is looked up before the call is made. */
  function ThroughDb(names: set<string>, call: StoreCall): Result<Step> {
    if "DB" in names then Ok(Call(call)) else Err(NameError)
  }

  /** The seven routes, statement by statement as written, in a module that
      binds `names`: 400 exactly when a check fails, ValueError exactly on a
      non-numeric offset or limit, and otherwise the intended call when `DB`
      is bound, NameError when it is not. */
  function AsWritten(names: set<string>, route: Route): (r: Result<Step>)
    ensures r == Ok(Answer(400)) <==> !PassesChecks(route)
    ensures r == Err(ValueError) <==> HasBadNumber(route)
    ensures r == Err(NameError) <==> PassesChecks(route) && !HasBadNumber(route) && "DB" !in names
    ensures r == Ok(Call(CallOf(route))) <==> PassesChecks(route) && !HasBadNumber(route) && "DB" in names
  {
    match route
    case DeactivateRoute(tag) =>
      if !MatchInt(tag) then Ok(Answer(400)) else ThroughDb(names, DeactivateMemberCall(tag))
    case ReactivateRoute(tag) =>
      if !MatchInt(tag) then Ok(Answer(400)) else ThroughDb(names, ActivateMemberCall(tag))
    case EditTagRoute(current, newTag) =>
      if !MatchInt(current) then Ok(Answer(400))
      else if !MatchInt(newTag) then Ok(Answer(400))
      else ThroughDb(names, ChangeTagCall(current, newTag))
    case EditNameRoute(tag, newName) =>
      if !MatchInt(tag) then Ok(Answer(400)) else ThroughDb(names, ChangeNameCall(tag, newName))
    case SearchTagsRoute(name, tag, offsetArg, limitArg) =>
      var offset := ParseArg(offsetArg);
      var limit := ParseArg(limitArg);
      if offset.Err? then Err(offset.error)
      else if limit.Err? then Err(limit.error)
      else
        var w := ClampSearchTags(offset.value, limit.value);
        ThroughDb(names, SearchMembersCall(name, tag, w.0, w.1))
    case SearchEntryLogRoute(tag, offsetArg, limitArg) =>
      var offset := ParseArg(offsetArg);
      var limit := ParseArg(limitArg);
      if offset.Err? then Err(offset.error)
      else if limit.Err? then Err(limit.error)
      else
        var w := ClampEntryLog(offset.value, limit.value);
        ThroughDb(names, FetchEntriesCall(w.1, w.0, tag))
    case DumpTagsRoute => ThroughDb(names, DumpActiveMembersCall)
  }

  /** API.py binds no `DB`, so as written no request reaches the store: one
      that passes its checks and parses raises NameError, and with `DB`
      bound the same request makes the call it is there to make. */
  lemma UnboundDbRaises(route: Route)
    ensures "DB" !in ApiNames
    ensures AsWritten(ApiNames, route).Ok? ==> AsWritten(ApiNames, route) == Ok(Answer(400))
    ensures PassesChecks(route) && !HasBadNumber(route) ==> AsWritten(ApiNames, route) == Err(NameError)
    ensures PassesChecks(route) && !HasBadNumber(route) ==> AsWritten(ApiNames + {"DB"}, route) == Ok(Call(CallOf(route)))
  {
  }

  /** `dump_tags`, with `DB` bound: the active-tag dump of the store. */
  method DumpTags(db: Database) returns (r: map<string, bool>)
    ensures forall k :: k in r <==> exists i :: 0 <= i < |db.members| && db.members[i].active && db.members[i].rfid == k
    ensures forall k :: k in r ==> r[k]
  {
    r := db.DumpActiveMembers();
  }

  /** Concrete requests that show the failure, and a non-numeric offset,
      which raises ValueError before `DB` is reached. */
  lemma ValidTagRaises()
    ensures AsWritten(ApiNames, DeactivateRoute("1234")) == Err(NameError)
    ensures AsWritten(ApiNames, ReactivateRoute("1234")) == Err(NameError)
    ensures AsWritten(ApiNames, EditTagRoute("1234", "4321")) == Err(NameError)
    ensures AsWritten(ApiNames, EditNameRoute("1234", "Foo Bar")) == Err(NameError)
    ensures AsWritten(ApiNames, SearchTagsRoute("", "", Falsy, Number(10))) == Err(NameError)
    ensures AsWritten(ApiNames, SearchEntryLogRoute("", Falsy, Falsy)) == Err(NameError)
    ensures AsWritten(ApiNames, DumpTagsRoute) == Err(NameError)
    ensures AsWritten(ApiNames, SearchTagsRoute("", "", NotNumber, Falsy)) == Err(ValueError)
  {
    assert IsDigitRun("1234") && IsDigitRun("4321");
    MatchIntAccepts("1234");
    MatchIntAccepts("4321");
    UnboundDbRaises(DumpTagsRoute);
  }

  /** `deactivate_tag`, with `DB` bound: 400 for a bad tag, otherwise the
      member with that tag (if any) is made inactive and the answer is 200. */
  method DeactivateTag(db: Database, tag: string) returns (status: int)
    requires db.Valid()
    modifies db
    ensures db.Valid()
    ensures db.entryLog == old(db.entryLog) && db.locations == old(db.locations)
    ensures status == 400 <==> !MatchInt(tag)
    ensures status != 400 ==> status == 200
    ensures status == 400 ==> db.members == old(db.members)
    ensures status == 200 ==> db.members == UpdateWhere(old(db.members), tag, (m: MemberRow) => m.(active := false))
  {
    if !MatchInt(tag) {
      return 400;
    }
    db.DeactivateMember(tag);
    status := 200;
  }

  /** `reactivate_tag`, with `DB` bound. */
  method ReactivateTag(db: Database, tag: string) returns (status: int)
    requires db.Valid()
    modifies db
    ensures db.Valid()
    ensures db.entryLog == old(db.entryLog) && db.locations == old(db.locations)
    ensures status == 400 <==> !MatchInt(tag)
    ensures status != 400 ==> status == 200
    ensures status == 400 ==> db.members == old(db.members)
    ensures status == 200 ==> db.members == UpdateWhere(old(db.members), tag, (m: MemberRow) => m.(active := true))
  {
    if !MatchInt(tag) {
      return 400;
    }
    db.ActivateMember(tag);
    status := 200;
  }

  /** After a deactivation a known tag is refused, after a reactivation it is admitted. */
  lemma StatusRoutesDecideCheck(rows: seq<MemberRow>, tag: string)
    requires UniqueRfids(rows) && RowIndex(rows, tag).Some?
    ensures StoredRow(UpdateWhere(rows, tag, (m: MemberRow) => m.(active := false)), tag).Some?
    ensures Judge(StoredRow(UpdateWhere(rows, tag, (m: MemberRow) => m.(active := false)), tag)).status == 403
    ensures Judge(StoredRow(UpdateWhere(rows, tag, (m: MemberRow) => m.(active := true)), tag)).status == 200
  {
    var i := RowIndex(rows, tag).value;
    var off := UpdateWhere(rows, tag, (m: MemberRow) => m.(active := false));
    var on := UpdateWhere(rows, tag, (m: MemberRow) => m.(active := true));
    UpdateKeepsUnique(rows, tag, (m: MemberRow) => m.(active := false));
    UpdateKeepsUnique(rows, tag, (m: MemberRow) => m.(active := true));
    assert off[i].rfid == tag && !off[i].active;
    assert on[i].rfid == tag && on[i].active;
    var j := RowIndex(off, tag).value;
    var k := RowIndex(on, tag).value;
    assert j == i && k == i;
  }

  /** `edit_tag`, with `DB` bound: 400 for a bad tag, otherwise the re-tag
      and 201; a new tag held by another member makes the update fail. */
  method EditTag(db: Database, current: string, newTag: string) returns (r: Result<int>)
    requires db.Valid()
    modifies db
    ensures db.Valid()
    ensures db.entryLog == old(db.entryLog) && db.locations == old(db.locations)
    ensures r == Ok(400) <==> !MatchInt(current) || !MatchInt(newTag)
    ensures r.Ok? ==> r.value == 400 || r.value == 201
    ensures r.Err? <==> MatchInt(current) && MatchInt(newTag) && current != newTag &&
                        RowIndex(old(db.members), current).Some? && RowIndex(old(db.members), newTag).Some?
    ensures r.Err? ==> r.error == IntegrityError
    ensures r != Ok(201) ==> db.members == old(db.members)
    ensures r == Ok(201) ==> db.members == UpdateWhere(old(db.members), current, (m: MemberRow) => m.(rfid := newTag))
  {
    if !MatchInt(current) || !MatchInt(newTag) {
      return Ok(400);
    }
    var changed := db.ChangeTag(current, newTag);
    if changed.Err? {
      return Err(IntegrityError);
    }
    r := Ok(201);
  }

  /** `edit_name`, with `DB` bound: only the tag is validated, the new name is stored as given. */
  method EditName(db: Database, tag: string, newName: string) returns (status: int)
    requires db.Valid()
    modifies db
    ensures db.Valid()
    ensures db.entryLog == old(db.entryLog) && db.locations == old(db.locations)
    ensures status == 400 <==> !MatchInt(tag)
    ensures status != 400 ==> status == 201
    ensures status == 400 ==> db.members == old(db.members)
    ensures status == 201 ==> db.members == UpdateWhere(old(db.members), tag, (m: MemberRow) => m.(fullName := newName))
  {
    if !MatchInt(tag) {
      return 400;
    }
    db.ChangeName(tag, newName);
    status := 201;
  }

  /** `int(arg) if arg else 0`: a missing or empty query argument is 0. */
  function ArgValue(arg: Option<int>): int {
    if arg.Some? then arg.value else 0
  }

  /** The clamping of `search_tags`: a negative offset becomes 0, a negative
      limit 50 (the default), a limit above 100 becomes 100, and 0 stays 0,
      which the store reads as "no limit". */
  function ClampSearchTags(offsetArg: Option<int>, limitArg: Option<int>): (r: (nat, nat))
    ensures r.1 <= 100
    ensures ArgValue(offsetArg) >= 0 ==> r.0 == ArgValue(offsetArg)
    ensures ArgValue(offsetArg) < 0 ==> r.0 == 0
    ensures 0 <= ArgValue(limitArg) <= 100 ==> r.1 == ArgValue(limitArg)
    ensures ArgValue(limitArg) < 0 ==> r.1 == 50
    ensures ArgValue(limitArg) > 100 ==> r.1 == 100
    ensures limitArg.None? ==> r.1 == 0
  {
    var offset := ArgValue(offsetArg);
    var limit := ArgValue(limitArg);
    var offset' := if offset < 0 then 0 else offset;
    var limit' := if limit < 0 then 50 else if limit > 100 then 100 else limit;
    (offset', limit')
  }

  /** The clamping of `search_entry_log`: a limit of 0 or below becomes 50,
      so the limit handed to the store always lies in 1..100. */
  function ClampEntryLog(offsetArg: Option<int>, limitArg: Option<int>): (r: (nat, nat))
    ensures 1 <= r.1 <= 100
    ensures ArgValue(offsetArg) >= 0 ==> r.0 == ArgValue(offsetArg)
    ensures ArgValue(offsetArg) < 0 ==> r.0 == 0
    ensures 1 <= ArgValue(limitArg) <= 100 ==> r.1 == ArgValue(limitArg)
    ensures ArgValue(limitArg) <= 0 ==> r.1 == 50
    ensures ArgValue(limitArg) > 100 ==> r.1 == 100
  {
    var offset := ArgValue(offsetArg);
    var limit := ArgValue(limitArg);
    var offset' := if offset < 0 then 0 else offset;
    var limit' := if limit <= 0 then 50 else if limit > 100 then 100 else limit;
    (offset', limit')
  }

  /** The two routes clamp alike except for a limit of 0. */
  lemma ClampsDifferOnlyAtZero(offsetArg: Option<int>, limitArg: Option<int>)
    ensures ClampSearchTags(offsetArg, limitArg).0 == ClampEntryLog(offsetArg, limitArg).0
    ensures ClampSearchTags(offsetArg, limitArg).1 != ClampEntryLog(offsetArg, limitArg).1 <==> ArgValue(limitArg) == 0
  {
  }

  function Flag(b: bool): string { if b then "1" else "0" }

  /** `x if x else ""` for a nullable text column. */
  function OrEmpty(s: Option<string>): string { if s.Some? then s.value else "" }

  /** The four fields `search_tags` writes for one member. */
  function TagFields(m: SearchRow): (f: seq<string>)
    ensures |f| == 4
  {
    [m.rfid, m.fullName, Flag(m.active), OrEmpty(m.mmsId)]
  }

  function TagLine(m: SearchRow): string { Join(TagFields(m), ',') }

  /** The six fields `search_entry_log` writes for one entry; `fmt` is the
      database's timestamp formatter (DT_CONVERT_FUNC of Doorbot/DB.py). */
  function EntryFields(e: EntryInfo, fmt: int -> string): (f: seq<string>)
    ensures |f| == 6
  {
    [OrEmpty(e.fullName), e.rfid, fmt(e.entryTime), Flag(e.isActiveTag), Flag(e.isFoundTag), OrEmpty(e.location)]
  }

  function EntryLine(e: EntryInfo, fmt: int -> string): string { Join(EntryFields(e, fmt), ',') }

  /** The `out += ','.join([...]) + "\n"` loop of `search_tags`. */
  method FormatTagLines(rows: seq<SearchRow>) returns (out: string)
    ensures out == Terminated(MapSeq(rows, TagLine), '\n')
  {
    out := "";
    for i := 0 to |rows|
      invariant out == Terminated(MapSeq(rows[..i], TagLine), '\n')
    {
      assert MapSeq(rows[..i + 1], TagLine) == MapSeq(rows[..i], TagLine) + [TagLine(rows[i])];
      TerminatedSnoc(MapSeq(rows[..i], TagLine), TagLine(rows[i]), '\n');
      out := out + TagLine(rows[i]) + "\n";
    }
    assert rows[..|rows|] == rows;
  }

  /** The same loop of `search_entry_log`. */
  method FormatEntryLines(entries: seq<EntryInfo>, fmt: int -> string) returns (out: string)
    ensures out == Terminated(MapSeq(entries, (e: EntryInfo) => EntryLine(e, fmt)), '\n')
  {
    var line := (e: EntryInfo) => EntryLine(e, fmt);
    out := "";
    for i := 0 to |entries|
      invariant out == Terminated(MapSeq(entries[..i], line), '\n')
    {
      assert MapSeq(entries[..i + 1], line) == MapSeq(entries[..i], line) + [line(entries[i])];
      TerminatedSnoc(MapSeq(entries[..i], line), line(entries[i]), '\n');
      out := out + line(entries[i]) + "\n";
    }
    assert entries[..|entries|] == entries;
  }

  /** No comma and no newline: a value that cannot break the line format. */
  predicate Plain(s: string) { Free(s, ',') && Free(s, '\n') }

  /** A line of plain fields holds no newline. */
  lemma {:induction false} JoinKeepsNewlinesOut(fields: seq<string>)
    requires forall k :: 0 <= k < |fields| ==> Plain(fields[k])
    ensures Free(Join(fields, ','), '\n')
    decreases |fields|
  {
    if |fields| > 1 {
      JoinKeepsNewlinesOut(fields[1..]);
    }
  }

  /** Read-back of a rendering: the output splits at "\n" into one line per
      row, in order (and an empty tail), and each line splits at "," back
      into its fields, provided no field holds a comma or a newline. */
  lemma ParseLines(lines: seq<string>, fieldsOf: seq<seq<string>>)
    requires |lines| == |fieldsOf|
    requires forall i :: 0 <= i < |lines| ==> |fieldsOf[i]| > 0 && lines[i] == Join(fieldsOf[i], ',')
    requires forall i, k :: 0 <= i < |fieldsOf| && 0 <= k < |fieldsOf[i]| ==> Plain(fieldsOf[i][k])
    ensures Split(Terminated(lines, '\n'), '\n') == lines + [""]
    ensures forall i :: 0 <= i < |lines| ==> Split(lines[i], ',') == fieldsOf[i]
  {
    forall i | 0 <= i < |lines|
      ensures Free(lines[i], '\n') && Split(lines[i], ',') == fieldsOf[i]
    {
      JoinKeepsNewlinesOut(fieldsOf[i]);
      SplitJoin(fieldsOf[i], ',');
    }
    SplitTerminated(lines, '\n');
  }

  lemma TagOutputParses(rows: seq<SearchRow>)
    requires forall i :: 0 <= i < |rows| ==> Plain(rows[i].rfid) && Plain(rows[i].fullName) && Plain(OrEmpty(rows[i].mmsId))
    ensures |Split(Terminated(MapSeq(rows, TagLine), '\n'), '\n')| == |rows| + 1
    ensures forall i :: 0 <= i < |rows| ==> Split(Split(Terminated(MapSeq(rows, TagLine), '\n'), '\n')[i], ',') == TagFields(rows[i])
  {
    var lines := MapSeq(rows, TagLine);
    var fieldsOf := MapSeq(rows, TagFields);
    ParseLines(lines, fieldsOf);
  }

  lemma EntryOutputParses(entries: seq<EntryInfo>, fmt: int -> string)
    requires forall i :: 0 <= i < |entries| ==>
               Plain(entries[i].rfid) && Plain(OrEmpty(entries[i].fullName)) &&
               Plain(OrEmpty(entries[i].location)) && Plain(fmt(entries[i].entryTime))
    ensures |Split(Terminated(MapSeq(entries, (e: EntryInfo) => EntryLine(e, fmt)), '\n'), '\n')| == |entries| + 1
    ensures forall i :: 0 <= i < |entries| ==>
              Split(Split(Terminated(MapSeq(entries, (e: EntryInfo) => EntryLine(e, fmt)), '\n'), '\n')[i], ',') == EntryFields(entries[i], fmt)
  {
    var lines := MapSeq(entries, (e: EntryInfo) => EntryLine(e, fmt));
    var fieldsOf := MapSeq(entries, (e: EntryInfo) => EntryFields(e, fmt));
    ParseLines(lines, fieldsOf);
  }

  /** `search_tags`, with `DB` bound: the clamped arguments go to
      `search_members` and its rows come back one line each. */
  method SearchTags(db: Database, name: string, tag: string, offsetArg: Option<int>, limitArg: Option<int>) returns (out: string)
    ensures exists rows: seq<SearchRow> :: IsSearchResult(db.members, name, tag, ClampSearchTags(offsetArg, limitArg).0, ClampSearchTags(offsetArg, limitArg).1, rows)
                        && out == Terminated(MapSeq(rows, TagLine), '\n')
  {
    var (offset, limit) := ClampSearchTags(offsetArg, limitArg);
    var rows := db.SearchMembers(name, tag, offset, limit);
    out := FormatTagLines(rows);
  }

  /** `search_entry_log`, with `DB` bound: at most 100 lines, newest first. */
  method SearchEntryLog(db: Database, tag: string, offsetArg: Option<int>, limitArg: Option<int>, fmt: int -> string) returns (out: string)
    ensures exists entries: seq<EntryInfo> :: IsEntriesResult(db.members, db.entryLog, ClampEntryLog(offsetArg, limitArg).1, ClampEntryLog(offsetArg, limitArg).0, tag, entries)
                           && |entries| <= 100
                           && (forall i, j :: 0 <= i < j < |entries| ==> entries[i].entryTime >= entries[j].entryTime)
                           && out == Terminated(MapSeq(entries, (e: EntryInfo) => EntryLine(e, fmt)), '\n')
  {
    var (offset, limit) := ClampEntryLog(offsetArg, limitArg);
    var entries := db.FetchEntries(limit, offset, tag);
    out := FormatEntryLines(entries, fmt);
  }
}
