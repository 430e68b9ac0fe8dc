/** The data-access layer of Doorbot/DB.py over an in-memory picture of
    its three tables: `members` (unique `rfid`), `locations` (unique `name`)
    and the append-only `entry_log`.  Each SQL statement becomes a method of
    `Database`; the rows a SELECT returns are described by the functions and
    predicates of this module. */
module MemberDb {
  import opened Common
  import opened Text
  import opened Seqs
  import opened Credentials

  /** One row of `members`.  `joinDate` stands for the DATE column: only its
      order matters.  The columns phone, email, entry_type, end_date and
      notes are never read by the modelled code and are left out. */
  datatype MemberRow = MemberRow(
    rfid: string,
    fullName: string,
    active: bool,
    mmsId: Option<string>,
    joinDate: int,
    passwordType: Option<string>,
    encodedPassword: Option<string>)

  /** One row of `entry_log`; `location` is the resolved location (NULL when
      the name matched none), `entryTime` the server-assigned timestamp. */
  datatype LogRow = LogRow(rfid: string, location: Option<string>, entryTime: int, isActiveTag: bool, isFoundTag: bool)

  /** The dictionary built by `fetch_member_by_name` / `fetch_member_by_rfid`. */
  datatype MemberInfo = MemberInfo(fullName: string, rfid: string, isActive: bool, mmsId: Option<string>)

  /** The dictionary built by `_map_search_members`. */
  datatype SearchRow = SearchRow(rfid: string, fullName: string, active: bool, mmsId: Option<string>)

  /** The dictionary built by `_map_entry`: a log row joined to its member
      (by rfid, at query time) and to its location. */
  datatype EntryInfo = EntryInfo(
    fullName: Option<string>,
    rfid: string,
    location: Option<string>,
    entryTime: int,
    isActiveTag: bool,
    isFoundTag: bool)

  /** The UNIQUE constraint on `members.rfid`. */
  predicate UniqueRfids(rows: seq<MemberRow>) {
    forall i, j :: 0 <= i < j < |rows| ==> rows[i].rfid != rows[j].rfid
  }

  function RowIndex(rows: seq<MemberRow>, rfid: string): (r: Option<nat>)
    ensures r.Some? ==> r.value < |rows| && rows[r.value].rfid == rfid
    ensures r.None? <==> forall i :: 0 <= i < |rows| ==> rows[i].rfid != rfid
  {
    FirstIndex(rows, (m: MemberRow) => m.rfid == rfid)
  }

  /** `SELECT … WHERE rfid = %s`: the row with that tag, if any. */
  function StoredRow(rows: seq<MemberRow>, rfid: string): (r: Option<MemberRow>)
    ensures r.Some? <==> exists i :: 0 <= i < |rows| && rows[i].rfid == rfid
    ensures r.Some? ==> r.value in rows && r.value.rfid == rfid
  {
    match RowIndex(rows, rfid)
    case None => None
    case Some(i) => Some(rows[i])
  }

  /** `UPDATE members SET … WHERE rfid = %s`. */
  function UpdateWhere(rows: seq<MemberRow>, rfid: string, f: MemberRow -> MemberRow): (r: seq<MemberRow>)
    ensures |r| == |rows|
    ensures forall i :: 0 <= i < |rows| ==> r[i] == if rows[i].rfid == rfid then f(rows[i]) else rows[i]
  {
    seq(|rows|, i requires 0 <= i < |rows| => if rows[i].rfid == rfid then f(rows[i]) else rows[i])
  }

  /** An UPDATE that leaves the rfid column alone keeps the tags unique. */
  lemma UpdateKeepsUnique(rows: seq<MemberRow>, rfid: string, f: MemberRow -> MemberRow)
    requires UniqueRfids(rows)
    requires forall m :: f(m).rfid == m.rfid
    ensures UniqueRfids(UpdateWhere(rows, rfid, f))
  {
  }

  /** Re-tagging keeps the tags unique unless the new tag is already taken
      by a different row, which is when the database refuses the UPDATE. */
  lemma {:induction false} RetagKeepsUnique(rows: seq<MemberRow>, current: string, newRfid: string)
    requires UniqueRfids(rows)
    requires current == newRfid || RowIndex(rows, current).None? || RowIndex(rows, newRfid).None?
    ensures UniqueRfids(UpdateWhere(rows, current, (m: MemberRow) => m.(rfid := newRfid)))
  {
    var r := UpdateWhere(rows, current, (m: MemberRow) => m.(rfid := newRfid));
    forall i, j | 0 <= i < j < |r|
      ensures r[i].rfid != r[j].rfid
    {
      assert rows[i].rfid != rows[j].rfid;
      if rows[i].rfid == current && rows[j].rfid != current {
        assert RowIndex(rows, current).Some?;
        assert RowIndex(rows, newRfid).None? ==> rows[j].rfid != newRfid;
      } else if rows[j].rfid == current && rows[i].rfid != current {
        assert RowIndex(rows, current).Some?;
        assert RowIndex(rows, newRfid).None? ==> rows[i].rfid != newRfid;
      }
    }
  }

  function InfoOf(m: MemberRow): MemberInfo {
    MemberInfo(m.fullName, m.rfid, m.active, m.mmsId)
  }

  function SearchRowOf(m: MemberRow): SearchRow {
    SearchRow(m.rfid, m.fullName, m.active, m.mmsId)
  }

  function JoinDateOf(m: MemberRow): int { m.joinDate }

  /** `full_name ILIKE name || '%'`: a case-insensitive prefix match (ASCII). */
  predicate NameMatchesPrefix(m: MemberRow, name: string) {
    StartsWith(Lower(m.fullName), Lower(name))
  }

  /** The WHERE clause `search_members` assembles: a case-insensitive
      substring match on the name when a name is given, tag equality when
      a tag is given (the empty string, like None, means "not given"). */
  predicate MatchesSearch(m: MemberRow, fullName: string, rfid: string) {
    (fullName == "" || Contains(Lower(m.fullName), Lower(fullName))) && (rfid == "" || m.rfid == rfid)
  }

  /** Re-casing the search argument changes neither match. */
  lemma SearchIgnoresArgumentCase(m: MemberRow, a: string, b: string, rfid: string)
    requires EqualIgnoringCase(a, b)
    ensures MatchesSearch(m, a, rfid) <==> MatchesSearch(m, b, rfid)
    ensures NameMatchesPrefix(m, a) <==> NameMatchesPrefix(m, b)
  {
    LowerEqual(a, b);
  }

  /** Re-casing the stored name changes neither match. */
  lemma SearchIgnoresStoredCase(m: MemberRow, n: string, name: string, rfid: string)
    requires EqualIgnoringCase(m.fullName, n)
    ensures MatchesSearch(m, name, rfid) <==> MatchesSearch(m.(fullName := n), name, rfid)
    ensures NameMatchesPrefix(m, name) <==> NameMatchesPrefix(m.(fullName := n), name)
  {
    LowerEqual(m.fullName, n);
  }

  /** "foo" finds "Foo Bar" by prefix, and "bar" finds it by substring. */
  lemma LowerCaseArgumentFinds(m: MemberRow)
    requires m.fullName == "Foo Bar"
    ensures NameMatchesPrefix(m, "foo")
    ensures MatchesSearch(m, "bar", "")
  {
    assert Lower(m.fullName) == "foo bar";
    assert Lower("foo") == "foo";
    assert Lower("bar") == "bar";
    assert OccursAt("foo bar", "bar", 4);
  }

  function Matching(rows: seq<MemberRow>, fullName: string, rfid: string): seq<MemberRow> {
    Filter(rows, (m: MemberRow) => MatchesSearch(m, fullName, rfid))
  }

  lemma MatchingMembership(rows: seq<MemberRow>, fullName: string, rfid: string, m: MemberRow)
    ensures m in Matching(rows, fullName, rfid) <==> m in rows && MatchesSearch(m, fullName, rfid)
  {
    FilterMembership(rows, (m: MemberRow) => MatchesSearch(m, fullName, rfid), m);
  }

  /** `OFFSET` only when offset is nonzero, `LIMIT` only when limit is nonzero. */
  function SearchWindow<T>(s: seq<T>, offset: nat, limit: nat): (r: seq<T>)
    ensures limit != 0 ==> |r| <= limit
    ensures limit == 0 && offset == 0 ==> r == s
  {
    Page(s, offset, if limit == 0 then |s| else limit)
  }

  /** Whether `s` is an order the SELECT of `search_members` can produce:
      by join date when an ORDER BY was added (limit or offset nonzero),
      otherwise any order of the matching rows. */
  ghost predicate IsSearchOrder(s: seq<MemberRow>, matching: seq<MemberRow>, paged: bool) {
    if paged then IsOrderingBy(s, matching, JoinDateOf) else multiset(s) == multiset(matching)
  }

  ghost predicate IsSearchResult(rows: seq<MemberRow>, fullName: string, rfid: string, offset: nat, limit: nat, r: seq<SearchRow>) {
    exists s :: IsSearchOrder(s, Matching(rows, fullName, rfid), limit != 0 || offset != 0)
           && r == MapSeq(SearchWindow(s, offset, limit), SearchRowOf)
  }

  /** `(SELECT id FROM locations WHERE name = %s LIMIT 1)`: NULL when no location has that name. */
  function ResolveLocation(locations: set<string>, name: Option<string>): (r: Option<string>)
    ensures r.Some? <==> name.Some? && name.value in locations
    ensures r.Some? ==> r == name
  {
    if name.Some? && name.value in locations then name else None
  }

  /** The LEFT OUTER JOIN of FETCH_ENTRIES_START: the member's current name, if the tag is known. */
  function JoinEntry(rows: seq<MemberRow>, e: LogRow): EntryInfo {
    EntryInfo(
      match StoredRow(rows, e.rfid) case None => None case Some(m) => Some(m.fullName),
      e.rfid, e.location, e.entryTime, e.isActiveTag, e.isFoundTag)
  }

  function EntriesForTag(log: seq<LogRow>, tag: string): seq<LogRow> {
    if tag != "" then Filter(log, (e: LogRow) => e.rfid == tag) else log
  }

  function Joined(rows: seq<MemberRow>, log: seq<LogRow>, tag: string): seq<EntryInfo> {
    MapSeq(EntriesForTag(log, tag), (e: LogRow) => JoinEntry(rows, e))
  }

  /** `ORDER BY entry_log.entry_time DESC` as an ascending key. */
  function NewestFirst(e: EntryInfo): int { -e.entryTime }

  ghost predicate IsEntriesResult(rows: seq<MemberRow>, log: seq<LogRow>, limit: nat, offset: nat, tag: string, r: seq<EntryInfo>) {
    exists s :: IsOrderingBy(s, Joined(rows, log, tag), NewestFirst) && r == Page(s, offset, limit)
  }

  /** What INSERT_MEMBER writes: active by default, no password yet. */
  function NewMember(name: string, rfid: string, mmsId: Option<string>, now: int): MemberRow {
    MemberRow(rfid, name, true, mmsId, now, None, None)
  }

  /** What SET_MEMBER_PASSWORD writes into a row. */
  function WithPassword(m: MemberRow, plaintext: string, cfg: Config, c: Crypto, salt: string): MemberRow {
    m.(passwordType := PasswordName(cfg), encodedPassword := Some(EncodePassword(plaintext, cfg, c, salt)))
  }

  class Database {
    var members: seq<MemberRow>
    var entryLog: seq<LogRow>
    var locations: set<string>

    ghost predicate Valid()
      reads this
    {
      UniqueRfids(members)
    }

    /** Empty tables, with the given locations seeded. */
    constructor (locationNames: set<string>)
      ensures Valid()
      ensures members == [] && entryLog == [] && locations == locationNames
    {
      members, entryLog, locations := [], [], locationNames;
    }

    /** `add_member`: the INSERT fails on a tag that is already taken. */
    method AddMember(name: string, rfid: string, mmsId: Option<string>, now: int) returns (r: Result<()>)
      requires Valid()
      modifies this
      ensures Valid()
      ensures r.Ok? <==> RowIndex(old(members), rfid).None?
      ensures r.Ok? ==> members == old(members) + [NewMember(name, rfid, mmsId, now)]
      ensures r.Err? ==> r.error == IntegrityError && members == old(members)
      ensures entryLog == old(entryLog) && locations == old(locations)
    {
      if RowIndex(members, rfid).Some? {
        return Err(IntegrityError);
      }
      members := members + [NewMember(name, rfid, mmsId, now)];
      r := Ok(());
    }

    /** `change_tag`: re-tags the row holding `current`; refused when
        another row already holds `new`; a no-op for an unknown tag. */
    method ChangeTag(current: string, newRfid: string) returns (r: Result<()>)
      requires Valid()
      modifies this
      ensures Valid()
      ensures r.Err? <==> current != newRfid && RowIndex(old(members), current).Some? && RowIndex(old(members), newRfid).Some?
      ensures r.Err? ==> r.error == IntegrityError && members == old(members)
      ensures r.Ok? ==> |members| == |old(members)|
      ensures r.Ok? ==> forall i :: 0 <= i < |members| ==>
                members[i] == if old(members)[i].rfid == current then old(members)[i].(rfid := newRfid) else old(members)[i]
      ensures entryLog == old(entryLog) && locations == old(locations)
    {
      if current != newRfid && RowIndex(members, current).Some? && RowIndex(members, newRfid).Some? {
        return Err(IntegrityError);
      }
      RetagKeepsUnique(members, current, newRfid);
      members := UpdateWhere(members, current, (m: MemberRow) => m.(rfid := newRfid));
      r := Ok(());
    }

    /** `change_name`. */
    method ChangeName(rfid: string, newName: string)
      requires Valid()
      modifies this
      ensures Valid()
      ensures |members| == |old(members)|
      ensures forall i :: 0 <= i < |members| ==>
                members[i] == if old(members)[i].rfid == rfid then old(members)[i].(fullName := newName) else old(members)[i]
      ensures entryLog == old(entryLog) && locations == old(locations)
    {
      UpdateKeepsUnique(members, rfid, (m: MemberRow) => m.(fullName := newName));
      members := UpdateWhere(members, rfid, (m: MemberRow) => m.(fullName := newName));
    }

    /** SET_MEMBER_ACTIVE_STATUS, shared by `activate_member` and `deactivate_member`. */
    method SetActiveStatus(rfid: string, active: bool)
      requires Valid()
      modifies this
      ensures Valid()
      ensures |members| == |old(members)|
      ensures forall i :: 0 <= i < |members| ==>
                members[i] == if old(members)[i].rfid == rfid then old(members)[i].(active := active) else old(members)[i]
      ensures entryLog == old(entryLog) && locations == old(locations)
    {
      UpdateKeepsUnique(members, rfid, (m: MemberRow) => m.(active := active));
      members := UpdateWhere(members, rfid, (m: MemberRow) => m.(active := active));
    }

    method ActivateMember(rfid: string)
      requires Valid()
      modifies this
      ensures Valid()
      ensures |members| == |old(members)|
      ensures forall i :: 0 <= i < |members| ==>
                members[i] == if old(members)[i].rfid == rfid then old(members)[i].(active := true) else old(members)[i]
      ensures entryLog == old(entryLog) && locations == old(locations)
    {
      SetActiveStatus(rfid, true);
    }

    method DeactivateMember(rfid: string)
      requires Valid()
      modifies this
      ensures Valid()
      ensures |members| == |old(members)|
      ensures forall i :: 0 <= i < |members| ==>
                members[i] == if old(members)[i].rfid == rfid then old(members)[i].(active := false) else old(members)[i]
      ensures entryLog == old(entryLog) && locations == old(locations)
    {
      SetActiveStatus(rfid, false);
    }

    /** `fetch_member_by_rfid`. */
    method FetchMemberByRfid(rfid: string) returns (r: Option<MemberInfo>)
      ensures r.None? <==> forall i :: 0 <= i < |members| ==> members[i].rfid != rfid
      ensures r.Some? ==> exists i :: 0 <= i < |members| && members[i].rfid == rfid && r.value == InfoOf(members[i])
    {
      var idx := RowIndex(members, rfid);
      if idx.None? {
        return None;
      }
      r := Some(InfoOf(members[idx.value]));
    }

    /** `fetch_member_by_name`: the first row whose name starts with `name`,
        ignoring case (the SELECT has no ORDER BY; this model scans in table order). */
    method FetchMemberByName(name: string) returns (r: Option<MemberInfo>)
      ensures r.None? <==> forall i :: 0 <= i < |members| ==> !NameMatchesPrefix(members[i], name)
      ensures r.Some? ==> exists i :: 0 <= i < |members| && NameMatchesPrefix(members[i], name) && r.value == InfoOf(members[i])
    {
      var idx := FirstIndex(members, (m: MemberRow) => NameMatchesPrefix(m, name));
      if idx.None? {
        return None;
      }
      r := Some(InfoOf(members[idx.value]));
    }

    /** `log_entry`: appends exactly one row; an unknown (or None) location is stored as NULL. */
    method LogEntry(rfid: string, location: Option<string>, isActiveTag: bool, isFoundTag: bool, now: int)
      requires Valid()
      modifies this
      ensures Valid()
      ensures entryLog == old(entryLog) + [LogRow(rfid, ResolveLocation(locations, location), now, isActiveTag, isFoundTag)]
      ensures members == old(members) && locations == old(locations)
    {
      entryLog := entryLog + [LogRow(rfid, ResolveLocation(locations, location), now, isActiveTag, isFoundTag)];
    }

    /** `fetch_entries`: newest first, filtered by tag when one is given,
        `offset` rows skipped, at most `limit` returned (default 100). */
    method FetchEntries(limit: nat := 100, offset: nat := 0, tag: string := "") returns (r: seq<EntryInfo>)
      ensures IsEntriesResult(members, entryLog, limit, offset, tag, r)
      ensures |r| == Min(limit, if offset <= |Joined(members, entryLog, tag)| then |Joined(members, entryLog, tag)| - offset else 0)
      ensures forall i :: 0 <= i < |r| && tag != "" ==> r[i].rfid == tag
      ensures forall i, j :: 0 <= i < j < |r| ==> r[i].entryTime >= r[j].entryTime
    {
      var joined := Joined(members, entryLog, tag);
      var ordered := SortBy(joined, NewestFirst);
      SortByOrders(joined, NewestFirst);
      r := Page(ordered, offset, limit);
      forall i | 0 <= i < |r| && tag != ""
        ensures r[i].rfid == tag
      {
        var e := ordered[offset + i];
        assert e in multiset(joined);
        var k :| 0 <= k < |joined| && joined[k] == e;
        var matching := EntriesForTag(entryLog, tag);
        FilterAllSatisfy(entryLog, (e: LogRow) => e.rfid == tag);
        assert joined[k].rfid == matching[k].rfid;
      }
      forall i, j | 0 <= i < j < |r|
        ensures r[i].entryTime >= r[j].entryTime
      {
        assert NewestFirst(ordered[offset + i]) <= NewestFirst(ordered[offset + j]);
      }
    }

    /** `search_members`: the WHERE clause of MatchesSearch, ORDER BY join_date
        only when limit or offset is nonzero, then the optional OFFSET and LIMIT. */
    method SearchMembers(fullName: string, rfid: string, offset: nat, limit: nat) returns (r: seq<SearchRow>)
      ensures IsSearchResult(members, fullName, rfid, offset, limit, r)
      ensures limit != 0 ==> |r| <= limit
      ensures forall x :: x in r ==> exists m :: m in members && MatchesSearch(m, fullName, rfid) && x == SearchRowOf(m)
      ensures limit == 0 && offset == 0 ==>
                forall m :: m in members && MatchesSearch(m, fullName, rfid) ==> SearchRowOf(m) in r
    {
      var matching := Matching(members, fullName, rfid);
      var paged := limit != 0 || offset != 0;
      var ordered := if paged then SortBy(matching, JoinDateOf) else matching;
      SortByOrders(matching, JoinDateOf);
      assert IsSearchOrder(ordered, matching, paged);
      var window := SearchWindow(ordered, offset, limit);
      r := MapSeq(window, SearchRowOf);
      forall x | x in r
        ensures exists m :: m in members && MatchesSearch(m, fullName, rfid) && x == SearchRowOf(m)
      {
        var i :| 0 <= i < |r| && r[i] == x;
        var m := window[i];
        assert m in multiset(ordered);
        assert m in matching;
        MatchingMembership(members, fullName, rfid, m);
      }
      if !paged {
        forall m | m in members && MatchesSearch(m, fullName, rfid)
          ensures SearchRowOf(m) in r
        {
          MatchingMembership(members, fullName, rfid, m);
          var i :| 0 <= i < |matching| && matching[i] == m;
          assert r[i] == SearchRowOf(m);
        }
      }
    }

    /** `dump_active_members`: `{rfid: True}` for exactly the active rows. */
    method DumpActiveMembers() returns (r: map<string, bool>)
      ensures forall k :: k in r <==> exists i :: 0 <= i < |members| && members[i].active && members[i].rfid == k
      ensures forall k :: k in r ==> r[k]
    {
      var rows := Filter(members, (m: MemberRow) => m.active);
      r := map[];
      for i := 0 to |rows|
        invariant forall k :: k in r <==> exists j :: 0 <= j < i && rows[j].rfid == k
        invariant forall k :: k in r ==> r[k]
      {
        r := r[rows[i].rfid := true];
      }
      forall k
        ensures k in r <==> exists i :: 0 <= i < |members| && members[i].active && members[i].rfid == k
      {
        if k in r {
          var j :| 0 <= j < |rows| && rows[j].rfid == k;
          FilterMembership(members, (m: MemberRow) => m.active, rows[j]);
          var i :| 0 <= i < |members| && members[i] == rows[j];
        }
        if exists i :: 0 <= i < |members| && members[i].active && members[i].rfid == k {
          var i :| 0 <= i < |members| && members[i].active && members[i].rfid == k;
          FilterMembership(members, (m: MemberRow) => m.active, members[i]);
          var j :| 0 <= j < |rows| && rows[j] == members[i];
        }
      }
    }

    /** `set_password`: stores `_password_name(config)` and the new encoding in the row with that tag. */
    method SetPassword(rfid: string, plaintext: string, cfg: Config, c: Crypto, salt: string)
      requires Valid()
      modifies this
      ensures Valid()
      ensures members == UpdateWhere(old(members), rfid, (m: MemberRow) => WithPassword(m, plaintext, cfg, c, salt))
      ensures entryLog == old(entryLog) && locations == old(locations)
    {
      UpdateKeepsUnique(members, rfid, (m: MemberRow) => WithPassword(m, plaintext, cfg, c, salt));
      members := UpdateWhere(members, rfid, (m: MemberRow) => WithPassword(m, plaintext, cfg, c, salt));
    }

    /** `auth_password`: checks the stored credential and, only after a
        successful match with a non-preferred stored type, re-encodes the
        plaintext under the configured scheme. */
    method AuthPassword(rfid: string, plaintext: string, cfg: Config, c: Crypto, salt: string) returns (r: Result<bool>)
      requires Valid()
      modifies this
      ensures Valid()
      ensures entryLog == old(entryLog) && locations == old(locations)
      ensures StoredRow(old(members), rfid).None? ==> r == Ok(false)
      ensures StoredRow(old(members), rfid).Some? ==>
                var m := StoredRow(old(members), rfid).value;
                r == MatchPassword(m.passwordType, plaintext, m.encodedPassword, c)
      // a failed or raising check never writes
      ensures r != Ok(true) ==> members == old(members)
      ensures r == Ok(true) ==>
                var m := StoredRow(old(members), rfid).value;
                members == if IsPreferredAuth(m.passwordType.value, cfg) then old(members)
                           else UpdateWhere(old(members), rfid, (m: MemberRow) => WithPassword(m, plaintext, cfg, c, salt))
      // upgrade on verify: the row now carries the configured type …
      ensures r == Ok(true) && !IsPreferredAuth(StoredRow(old(members), rfid).value.passwordType.value, cfg) ==>
                StoredRow(members, rfid).Some? && StoredRow(members, rfid).value.passwordType == PasswordName(cfg)
      // … and the same plaintext still verifies
      ensures r == Ok(true) && (cfg.kind == PlaintextType || cfg.kind == BcryptType) && Sound(c) ==>
                StoredRow(members, rfid).Some? &&
                MatchPassword(StoredRow(members, rfid).value.passwordType, plaintext, StoredRow(members, rfid).value.encodedPassword, c) == Ok(true)
    {
      var idx := RowIndex(members, rfid);
      if idx.None? {
        return Ok(false);
      }
      var row := members[idx.value];
      r := MatchPassword(row.passwordType, plaintext, row.encodedPassword, c);
      if r == Ok(true) && !IsPreferredAuth(row.passwordType.value, cfg) {
        ghost var before := members;
        SetPassword(rfid, plaintext, cfg, c, salt);
        assert members[idx.value] == WithPassword(before[idx.value], plaintext, cfg, c, salt);
        assert StoredRow(members, rfid) == Some(members[idx.value]);
        if (cfg.kind == PlaintextType || cfg.kind == BcryptType) && Sound(c) {
          EncodeThenMatch(plaintext, cfg, c, salt);
        }
      }
    }
  }
}
