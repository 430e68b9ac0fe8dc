/** build_cache2.py: the reconciliation of the external membership system
    (MMS, read from its web API) with the local member table.  External
    members are reduced to one record per display name, paired with the
    local records of the same name, sorted into five buckets and projected
    into the report rows. */
module Reconcile {
  import opened Common
  import opened Text
  import opened Seqs
  import opened PyDict

  /** One entry of an external member's `recent_transactions`; `expiresAt`
      is the text timestamp, compared as a string. */
  datatype Transaction = Transaction(expiresAt: string, status: string, membership: int)

  /** An external member as the web API delivers it; `activeMemberships`
      stands for the list of active membership records. */
  datatype MmsMember = MmsMember(
    id: int,
    firstName: string,
    lastName: string,
    activeMemberships: seq<int>,
    recentTransactions: seq<Transaction>)

  /** The record `reformat_mms_members` builds for an external member. */
  datatype MmsRecord = MmsRecord(
    displayName: string,
    mmsId: int,
    activeTag: bool,
    activeMemberships: seq<int>,
    mbrship: int,
    endDate: string)

  /** The record `fetch_members_db` builds for a local member (mms_id "" when unset). */
  datatype DbRecord = DbRecord(displayName: string, mmsId: string, activeTag: bool, rfid: string)

  /** A bucket entry `{'mms': …, 'db': …}`; either side may be None. */
  datatype Pair = Pair(mms: Option<MmsRecord>, db: Option<DbRecord>)

  /** The starting value of `end_date`. */
  const NoEndDate := "0000-00-00 00:00:00"

  predicate Complete(t: Transaction) { t.status == "complete" }

  /** No completed transaction expires after e. */
  predicate Bounds(ts: seq<Transaction>, e: string) {
    forall i :: 0 <= i < |ts| && Complete(ts[i]) ==> !LexLess(e, ts[i].expiresAt)
  }

  /** ts[i] is the first completed transaction that expires at e. */
  predicate FirstReaching(ts: seq<Transaction>, e: string, i: nat) {
    i < |ts| && Complete(ts[i]) && ts[i].expiresAt == e &&
    forall j :: 0 <= j < i && Complete(ts[j]) ==> ts[j].expiresAt != e
  }

  /** (e, m) is the latest completed expiry and its membership, for a scan
      that starts from (start, 0): e is the greatest `expires_at` of a
      completed transaction and m the membership of the first transaction
      reaching it, or, when no completed transaction expires after start,
      the starting pair. */
  ghost predicate IsLatestFrom(ts: seq<Transaction>, start: string, e: string, m: int) {
    Bounds(ts, e) &&
    ((e == start && m == 0) ||
     (LexLess(start, e) && exists i: nat :: FirstReaching(ts, e, i) && ts[i].membership == m))
  }

  /** The scan `reformat_mms_members` performs, which starts from NoEndDate. */
  ghost predicate IsLatest(ts: seq<Transaction>, e: string, m: int) {
    IsLatestFrom(ts, NoEndDate, e, m)
  }

  /** The inner loop of `reformat_mms_members`, as a fold: a transaction
      replaces the running pair when it is complete and expires strictly later. */
  function LatestFrom(ts: seq<Transaction>, start: string): (string, int)
    decreases |ts|
  {
    if |ts| == 0 then (start, 0)
    else
      var acc := LatestFrom(ts[..|ts| - 1], start);
      var t := ts[|ts| - 1];
      if LexLess(acc.0, t.expiresAt) && Complete(t) then (t.expiresAt, t.membership) else acc
  }

  function Latest(ts: seq<Transaction>): (string, int) {
    LatestFrom(ts, NoEndDate)
  }

  /** A completed transaction expiring strictly later takes over. */
  lemma LatestStepTaken(init: seq<Transaction>, t: Transaction, start: string, e: string, m: int)
    requires IsLatestFrom(init, start, e, m) && LexLess(e, t.expiresAt) && Complete(t)
    ensures IsLatestFrom(init + [t], start, t.expiresAt, t.membership)
  {
    var ts := init + [t];
    forall i | 0 <= i < |ts| && Complete(ts[i])
      ensures !LexLess(t.expiresAt, ts[i].expiresAt)
    {
      LexLessTransitive(e, t.expiresAt, ts[i].expiresAt);
      LexLessIrreflexive(t.expiresAt);
    }
    LexLessTransitive(start, e, t.expiresAt);
    assert FirstReaching(ts, t.expiresAt, |init|);
  }

  /** Any other transaction leaves the pair as it was. */
  lemma LatestStepKept(init: seq<Transaction>, t: Transaction, start: string, e: string, m: int)
    requires IsLatestFrom(init, start, e, m) && !(LexLess(e, t.expiresAt) && Complete(t))
    ensures IsLatestFrom(init + [t], start, e, m)
  {
    var ts := init + [t];
    if exists i: nat :: FirstReaching(init, e, i) && init[i].membership == m {
      var i: nat :| FirstReaching(init, e, i) && init[i].membership == m;
      assert FirstReaching(ts, e, i);
    }
  }

  lemma {:induction false} LatestFromIsLatest(ts: seq<Transaction>, start: string)
    ensures IsLatestFrom(ts, start, LatestFrom(ts, start).0, LatestFrom(ts, start).1)
    decreases |ts|
  {
    if |ts| > 0 {
      var init, t := ts[..|ts| - 1], ts[|ts| - 1];
      assert ts == init + [t];
      LatestFromIsLatest(init, start);
      var e, m := LatestFrom(init, start).0, LatestFrom(init, start).1;
      if LexLess(e, t.expiresAt) && Complete(t) {
        assert LatestFrom(ts, start) == (t.expiresAt, t.membership);
        LatestStepTaken(init, t, start, e, m);
      } else {
        assert LatestFrom(ts, start) == (e, m);
        LatestStepKept(init, t, start, e, m);
      }
    }
  }

  lemma LatestIsLatest(ts: seq<Transaction>)
    ensures IsLatest(ts, Latest(ts).0, Latest(ts).1)
  {
    LatestFromIsLatest(ts, NoEndDate);
  }

  /** The strict `<` settles whether anything replaced the starting pair. */
  lemma LatestReplacedFrom(ts: seq<Transaction>, start: string, e: string, m: int)
    requires IsLatestFrom(ts, start, e, m)
    ensures LexLess(start, e) <==> exists i :: 0 <= i < |ts| && Complete(ts[i]) && LexLess(start, ts[i].expiresAt)
  {
    LexLessIrreflexive(start);
    if LexLess(start, e) {
      var i: nat :| FirstReaching(ts, e, i) && ts[i].membership == m;
      assert Complete(ts[i]) && LexLess(start, ts[i].expiresAt);
    }
  }

  /** The pair is determined by the transactions: the loop's choice is THE latest. */
  lemma LatestUniqueFrom(ts: seq<Transaction>, start: string, e1: string, m1: int, e2: string, m2: int)
    requires IsLatestFrom(ts, start, e1, m1) && IsLatestFrom(ts, start, e2, m2)
    ensures e1 == e2 && m1 == m2
  {
    LatestReplacedFrom(ts, start, e1, m1);
    LatestReplacedFrom(ts, start, e2, m2);
    if LexLess(start, e1) {
      var i: nat :| FirstReaching(ts, e1, i) && ts[i].membership == m1;
      var j: nat :| FirstReaching(ts, e2, j) && ts[j].membership == m2;
      assert !LexLess(e1, ts[j].expiresAt) && !LexLess(e2, ts[i].expiresAt);
      LexLessTotal(e1, e2);
      assert i <= j && j <= i;
    }
  }

  /** The inner `for trans in member['recent_transactions']` loop. */
  method LatestCompletedTransaction(ts: seq<Transaction>) returns (endDate: string, mbrship: int)
    ensures IsLatest(ts, endDate, mbrship)
    ensures (endDate, mbrship) == Latest(ts)
  {
    endDate, mbrship := NoEndDate, 0;
    for i := 0 to |ts|
      invariant (endDate, mbrship) == LatestFrom(ts[..i], NoEndDate)
    {
      assert ts[..i + 1][..i] == ts[..i];
      if LexLess(endDate, ts[i].expiresAt) && ts[i].status == "complete" {
        endDate, mbrship := ts[i].expiresAt, ts[i].membership;
      }
    }
    assert ts[..|ts|] == ts;
    LatestIsLatest(ts);
  }

  /** Python's `s[:n]`. */
  function Head(s: string, n: nat): string {
    if |s| <= n then s else s[..n]
  }

  /** Members without recent transactions are skipped. */
  predicate Kept(m: MmsMember) { |m.recentTransactions| > 0 }

  function DisplayName(m: MmsMember): string { m.firstName + " " + m.lastName }

  /** The record of one kept external member. */
  function RecordOf(m: MmsMember): (r: MmsRecord)
    ensures r.displayName == DisplayName(m) && r.mmsId == m.id && r.activeMemberships == m.activeMemberships
    ensures r.activeTag <==> |m.activeMemberships| > 0
    ensures exists e :: IsLatest(m.recentTransactions, e, r.mbrship) && r.endDate == Head(e, 10)
    ensures |r.endDate| <= 10
  {
    var latest := Latest(m.recentTransactions);
    LatestIsLatest(m.recentTransactions);
    MmsRecord(DisplayName(m), m.id, |m.activeMemberships| != 0, m.activeMemberships, latest.1, Head(latest.0, 10))
  }

  /** The dictionary `reformat_mms_members` returns. */
  function Reformat(members: seq<MmsMember>): (d: Dict<MmsRecord>)
    ensures PyDict.Valid(d)
  {
    PutAll(Filter(members, Kept), DisplayName, RecordOf)
  }

  /** One more member: `reformat_mms_members`' loop body, stated on the result. */
  lemma ReformatSnoc(init: seq<MmsMember>, last: MmsMember)
    ensures Reformat(init + [last]) ==
            if Kept(last) then Put(Reformat(init), DisplayName(last), RecordOf(last)) else Reformat(init)
  {
    FilterSnoc(init, last, Kept);
    var kept := Filter(init, Kept);
    if Kept(last) {
      var xs := kept + [last];
      assert xs[..|xs| - 1] == kept;
      assert PutAll(xs, DisplayName, RecordOf) == Put(PutAll(kept, DisplayName, RecordOf), DisplayName(last), RecordOf(last));
    } else {
      assert Filter(init + [last], Kept) == kept;
    }
  }

  /** `reformat_mms_members`. */
  method ReformatMmsMembers(members: seq<MmsMember>) returns (d: Dict<MmsRecord>)
    ensures PyDict.Valid(d)
    ensures d == Reformat(members)
  {
    d := Empty();
    for i := 0 to |members|
      invariant d == Reformat(members[..i])
    {
      var m := members[i];
      assert members[..i + 1] == members[..i] + [m];
      ReformatSnoc(members[..i], m);
      if |m.recentTransactions| != 0 {
        var displayName := m.firstName + " " + m.lastName;
        var endDate, mbrship := LatestCompletedTransaction(m.recentTransactions);
        var rec := MmsRecord(displayName, m.id, |m.activeMemberships| != 0, m.activeMemberships, mbrship, Head(endDate, 10));
        assert rec == RecordOf(m);
        d := Put(d, displayName, rec);
      }
    }
    assert members[..|members|] == members;
  }

  /** The keys are the names of the members with recent transactions, and
      each record carries its key as its display name. */
  lemma ReformatKeys(members: seq<MmsMember>, k: string)
    ensures k in Reformat(members).entries <==> exists m :: m in members && Kept(m) && DisplayName(m) == k
    ensures k in Reformat(members).entries ==> Reformat(members).entries[k].displayName == k
  {
    var kept := Filter(members, Kept);
    PutAllKeys(kept, DisplayName, RecordOf, k);
    if k in Reformat(members).entries {
      var i :| 0 <= i < |kept| && DisplayName(kept[i]) == k;
      FilterMembership(members, Kept, kept[i]);
      PutAllValues(kept, DisplayName, RecordOf, k);
    }
    if exists m :: m in members && Kept(m) && DisplayName(m) == k {
      var m :| m in members && Kept(m) && DisplayName(m) == k;
      FilterMembership(members, Kept, m);
      var i :| 0 <= i < |kept| && kept[i] == m;
    }
  }

  /** A member without recent transactions never produces a record. */
  lemma ReformatSkipsEmpty(members: seq<MmsMember>, m: MmsMember)
    requires m in members && !Kept(m)
    requires forall x :: x in members && DisplayName(x) == DisplayName(m) ==> !Kept(x)
    ensures DisplayName(m) !in Reformat(members).entries
  {
    ReformatKeys(members, DisplayName(m));
  }

  /** Of several kept members with one name, the last one's record is kept. */
  lemma {:induction false} ReformatLastWins(members: seq<MmsMember>, i: nat)
    requires i < |members| && Kept(members[i])
    requires forall j :: i < j < |members| && Kept(members[j]) ==> DisplayName(members[j]) != DisplayName(members[i])
    ensures DisplayName(members[i]) in Reformat(members).entries
    ensures Reformat(members).entries[DisplayName(members[i])] == RecordOf(members[i])
    decreases |members|
  {
    var n := |members|;
    var init, last := members[..n - 1], members[n - 1];
    assert members == init + [last];
    ReformatSnoc(init, last);
    if i < n - 1 {
      assert forall j :: 0 <= j < |init| ==> init[j] == members[j];
      ReformatLastWins(init, i);
    }
  }

  /** Whether an external record's name is a local key. */
  predicate InDb(db: Dict<DbRecord>, m: MmsRecord) { m.displayName in db.entries }

  predicate IsClear(db: Dict<DbRecord>, m: MmsRecord) {
    InDb(db, m) && m.activeTag == db.entries[m.displayName].activeTag
  }

  predicate IsWrongActive(db: Dict<DbRecord>, m: MmsRecord) {
    InDb(db, m) && m.activeTag != db.entries[m.displayName].activeTag
  }

  predicate IsWrongName(db: Dict<DbRecord>, m: MmsRecord) {
    !InDb(db, m) && m.activeTag
  }

  /** `not db_member['mms_id']`. */
  predicate LacksMmsId(db: Dict<DbRecord>, m: MmsRecord) {
    InDb(db, m) && db.entries[m.displayName].mmsId == ""
  }

  predicate IsWrongRfidName(mms: Dict<MmsRecord>, r: DbRecord) {
    r.displayName !in mms.entries && r.activeTag
  }

  /** The entry built for an external record: its local namesake, or None. */
  function PairWith(db: Dict<DbRecord>, m: MmsRecord): (p: Pair)
    ensures p.mms == Some(m)
    ensures p.db.Some? <==> InDb(db, m)
    ensures p.db.Some? ==> p.db.value == db.entries[m.displayName]
  {
    Pair(Some(m), if InDb(db, m) then Some(db.entries[m.displayName]) else None)
  }

  function DbOnly(r: DbRecord): Pair { Pair(None, Some(r)) }

  function ClearBucket(db: Dict<DbRecord>, mv: seq<MmsRecord>): (r: seq<Pair>)
    ensures forall i :: 0 <= i < |r| ==> r[i].mms.Some? && r[i].db.Some? && r[i].mms.value.activeTag == r[i].db.value.activeTag
  {
    FilterAllSatisfy(mv, (m: MmsRecord) => IsClear(db, m));
    MapSeq(Filter(mv, (m: MmsRecord) => IsClear(db, m)), (m: MmsRecord) => PairWith(db, m))
  }

  function WrongActiveBucket(db: Dict<DbRecord>, mv: seq<MmsRecord>): (r: seq<Pair>)
    ensures forall i :: 0 <= i < |r| ==> r[i].mms.Some? && r[i].db.Some? && r[i].mms.value.activeTag != r[i].db.value.activeTag
  {
    FilterAllSatisfy(mv, (m: MmsRecord) => IsWrongActive(db, m));
    MapSeq(Filter(mv, (m: MmsRecord) => IsWrongActive(db, m)), (m: MmsRecord) => PairWith(db, m))
  }

  function WrongNameBucket(db: Dict<DbRecord>, mv: seq<MmsRecord>): (r: seq<Pair>)
    ensures forall i :: 0 <= i < |r| ==> r[i].mms.Some? && r[i].db.None? && r[i].mms.value.activeTag && r[i].mms.value.displayName !in db.entries
  {
    FilterAllSatisfy(mv, (m: MmsRecord) => IsWrongName(db, m));
    MapSeq(Filter(mv, (m: MmsRecord) => IsWrongName(db, m)), (m: MmsRecord) => PairWith(db, m))
  }

  function NoMmsIdBucket(db: Dict<DbRecord>, mv: seq<MmsRecord>): (r: seq<Pair>)
    ensures forall i :: 0 <= i < |r| ==> r[i].mms.Some? && r[i].db.Some? && r[i].db.value.mmsId == ""
  {
    FilterAllSatisfy(mv, (m: MmsRecord) => LacksMmsId(db, m));
    MapSeq(Filter(mv, (m: MmsRecord) => LacksMmsId(db, m)), (m: MmsRecord) => PairWith(db, m))
  }

  function WrongRfidNameBucket(mms: Dict<MmsRecord>, dv: seq<DbRecord>): (r: seq<Pair>)
    ensures forall i :: 0 <= i < |r| ==> r[i].mms.None? && r[i].db.Some? && r[i].db.value.activeTag && r[i].db.value.displayName !in mms.entries
  {
    FilterAllSatisfy(dv, (r: DbRecord) => IsWrongRfidName(mms, r));
    MapSeq(Filter(dv, (r: DbRecord) => IsWrongRfidName(mms, r)), DbOnly)
  }

  /** One more external record: what each of the four buckets gains. */
  lemma BucketsSnoc(db: Dict<DbRecord>, mv: seq<MmsRecord>, m: MmsRecord)
    ensures ClearBucket(db, mv + [m]) == ClearBucket(db, mv) + (if IsClear(db, m) then [PairWith(db, m)] else [])
    ensures WrongNameBucket(db, mv + [m]) == WrongNameBucket(db, mv) + (if IsWrongName(db, m) then [PairWith(db, m)] else [])
    ensures WrongActiveBucket(db, mv + [m]) == WrongActiveBucket(db, mv) + (if IsWrongActive(db, m) then [PairWith(db, m)] else [])
    ensures NoMmsIdBucket(db, mv + [m]) == NoMmsIdBucket(db, mv) + (if LacksMmsId(db, m) then [PairWith(db, m)] else [])
  {
    MapFilterSnoc(mv, m, (m: MmsRecord) => IsClear(db, m), (m: MmsRecord) => PairWith(db, m));
    MapFilterSnoc(mv, m, (m: MmsRecord) => IsWrongName(db, m), (m: MmsRecord) => PairWith(db, m));
    MapFilterSnoc(mv, m, (m: MmsRecord) => IsWrongActive(db, m), (m: MmsRecord) => PairWith(db, m));
    MapFilterSnoc(mv, m, (m: MmsRecord) => LacksMmsId(db, m), (m: MmsRecord) => PairWith(db, m));
  }

  lemma WrongRfidNameSnoc(mms: Dict<MmsRecord>, dv: seq<DbRecord>, r: DbRecord)
    ensures WrongRfidNameBucket(mms, dv + [r]) == WrongRfidNameBucket(mms, dv) + (if IsWrongRfidName(mms, r) then [DbOnly(r)] else [])
  {
    MapFilterSnoc(dv, r, (r: DbRecord) => IsWrongRfidName(mms, r), DbOnly);
  }

  /** The first loop of `filter_members`, over the external records. */
  method FilterExternal(db: Dict<DbRecord>, mv: seq<MmsRecord>)
      returns (clear: seq<Pair>, wrongName: seq<Pair>, wrongActive: seq<Pair>, noMmsId: seq<Pair>)
    ensures clear == ClearBucket(db, mv)
    ensures wrongName == WrongNameBucket(db, mv)
    ensures wrongActive == WrongActiveBucket(db, mv)
    ensures noMmsId == NoMmsIdBucket(db, mv)
  {
    clear, wrongName, wrongActive, noMmsId := [], [], [], [];
    for i := 0 to |mv|
      invariant clear == ClearBucket(db, mv[..i])
      invariant wrongName == WrongNameBucket(db, mv[..i])
      invariant wrongActive == WrongActiveBucket(db, mv[..i])
      invariant noMmsId == NoMmsIdBucket(db, mv[..i])
    {
      var m := mv[i];
      assert mv[..i + 1] == mv[..i] + [m];
      BucketsSnoc(db, mv[..i], m);
      if m.displayName !in db.entries {
        if m.activeTag {
          wrongName := wrongName + [Pair(Some(m), None)];
        }
      } else {
        var dbMember := db.entries[m.displayName];
        var entry := Pair(Some(m), Some(dbMember));
        if m.activeTag != dbMember.activeTag {
          wrongActive := wrongActive + [entry];
        } else {
          clear := clear + [entry];
        }
        if dbMember.mmsId == "" {
          noMmsId := noMmsId + [entry];
        }
      }
    }
    assert mv[..|mv|] == mv;
  }

  /** The second loop of `filter_members`, over the local records. */
  method FilterLocal(mms: Dict<MmsRecord>, dv: seq<DbRecord>) returns (wrongRfidName: seq<Pair>)
    ensures wrongRfidName == WrongRfidNameBucket(mms, dv)
  {
    wrongRfidName := [];
    for i := 0 to |dv|
      invariant wrongRfidName == WrongRfidNameBucket(mms, dv[..i])
    {
      var r := dv[i];
      assert dv[..i + 1] == dv[..i] + [r];
      WrongRfidNameSnoc(mms, dv[..i], r);
      if r.displayName !in mms.entries && r.activeTag {
        wrongRfidName := wrongRfidName + [Pair(None, Some(r))];
      }
    }
    assert dv[..|dv|] == dv;
  }

  /** `filter_members`: the two loops, returning the five lists. */
  method FilterMembers(db: Dict<DbRecord>, mms: Dict<MmsRecord>)
      returns (clear: seq<Pair>, wrongName: seq<Pair>, wrongRfidName: seq<Pair>, wrongActive: seq<Pair>, noMmsId: seq<Pair>)
    requires PyDict.Valid(db) && PyDict.Valid(mms)
    ensures clear == ClearBucket(db, Values(mms))
    ensures wrongName == WrongNameBucket(db, Values(mms))
    ensures wrongRfidName == WrongRfidNameBucket(mms, Values(db))
    ensures wrongActive == WrongActiveBucket(db, Values(mms))
    ensures noMmsId == NoMmsIdBucket(db, Values(mms))
  {
    clear, wrongName, wrongActive, noMmsId := FilterExternal(db, Values(mms));
    wrongRfidName := FilterLocal(mms, Values(db));
  }

  /** Every external record whose name is a local key lands in exactly one
      of the clear and wrong-active buckets, by whether the flags agree. */
  lemma MatchedSplit(db: Dict<DbRecord>, mv: seq<MmsRecord>, m: MmsRecord)
    requires m in mv && InDb(db, m)
    ensures PairWith(db, m) in ClearBucket(db, mv) <==> m.activeTag == db.entries[m.displayName].activeTag
    ensures PairWith(db, m) in WrongActiveBucket(db, mv) <==> m.activeTag != db.entries[m.displayName].activeTag
  {
    MapFilterMembership(mv, (m: MmsRecord) => IsClear(db, m), (m: MmsRecord) => PairWith(db, m), PairWith(db, m));
    MapFilterMembership(mv, (m: MmsRecord) => IsWrongActive(db, m), (m: MmsRecord) => PairWith(db, m), PairWith(db, m));
  }

  /** An external record with no local namesake is reported, with `db` None,
      exactly when it is active, and is in neither matched bucket. */
  lemma UnmatchedGoesToWrongName(db: Dict<DbRecord>, mv: seq<MmsRecord>, m: MmsRecord)
    requires m in mv && !InDb(db, m)
    ensures PairWith(db, m) == Pair(Some(m), None)
    ensures PairWith(db, m) in WrongNameBucket(db, mv) <==> m.activeTag
    ensures PairWith(db, m) !in ClearBucket(db, mv) && PairWith(db, m) !in WrongActiveBucket(db, mv)
  {
    MapFilterMembership(mv, (m: MmsRecord) => IsWrongName(db, m), (m: MmsRecord) => PairWith(db, m), PairWith(db, m));
    MapFilterMembership(mv, (m: MmsRecord) => IsClear(db, m), (m: MmsRecord) => PairWith(db, m), PairWith(db, m));
    MapFilterMembership(mv, (m: MmsRecord) => IsWrongActive(db, m), (m: MmsRecord) => PairWith(db, m), PairWith(db, m));
  }

  /** The no-mms-id bucket holds exactly the matched pairs whose local mms_id is empty. */
  lemma NoMmsIdContents(db: Dict<DbRecord>, mv: seq<MmsRecord>, p: Pair)
    ensures p in NoMmsIdBucket(db, mv) <==>
              exists m :: m in mv && InDb(db, m) && db.entries[m.displayName].mmsId == "" && p == PairWith(db, m)
  {
    MapFilterMembership(mv, (m: MmsRecord) => LacksMmsId(db, m), (m: MmsRecord) => PairWith(db, m), p);
  }

  /** The wrong-rfid-name bucket holds exactly the active local records whose name is not an external key. */
  lemma WrongRfidNameContents(mms: Dict<MmsRecord>, dv: seq<DbRecord>, r: DbRecord)
    ensures DbOnly(r) in WrongRfidNameBucket(mms, dv) <==> r in dv && r.activeTag && r.displayName !in mms.entries
  {
    MapFilterMembership(dv, (r: DbRecord) => IsWrongRfidName(mms, r), DbOnly, DbOnly(r));
  }

  datatype ClearRow = ClearRow(rfid: string, activeMms: bool, nameMms: string)
  datatype WrongNameRow = WrongNameRow(mmsId: int, nameMms: string)
  datatype WrongRfidNameRow = WrongRfidNameRow(rfid: string, nameRfid: string)
  datatype WrongActiveRow = WrongActiveRow(rfid: string, nameMms: string, activeMms: bool, activeDb: bool, mbrship: int, endDate: string)
  datatype NoMmsIdRow = NoMmsIdRow(rfid: string, mmsId: int, nameDb: string, endDate: string)

  /** `handle_clear_members`: one row per pair, in order. */
  function HandleClear(ps: seq<Pair>): (r: seq<ClearRow>)
    requires forall i :: 0 <= i < |ps| ==> ps[i].mms.Some? && ps[i].db.Some?
    ensures |r| == |ps|
    ensures forall i :: 0 <= i < |ps| ==>
              r[i].rfid == ps[i].db.value.rfid && r[i].activeMms == ps[i].mms.value.activeTag && r[i].nameMms == ps[i].mms.value.displayName
  {
    seq(|ps|, i requires 0 <= i < |ps| => ClearRow(ps[i].db.value.rfid, ps[i].mms.value.activeTag, ps[i].mms.value.displayName))
  }

  /** `handle_wrong_name_members`. */
  function HandleWrongName(ps: seq<Pair>): (r: seq<WrongNameRow>)
    requires forall i :: 0 <= i < |ps| ==> ps[i].mms.Some?
    ensures |r| == |ps|
    ensures forall i :: 0 <= i < |ps| ==> r[i].mmsId == ps[i].mms.value.mmsId && r[i].nameMms == ps[i].mms.value.displayName
  {
    seq(|ps|, i requires 0 <= i < |ps| => WrongNameRow(ps[i].mms.value.mmsId, ps[i].mms.value.displayName))
  }

  /** `handle_wrong_rfid_name_members`. */
  function HandleWrongRfidName(ps: seq<Pair>): (r: seq<WrongRfidNameRow>)
    requires forall i :: 0 <= i < |ps| ==> ps[i].db.Some?
    ensures |r| == |ps|
    ensures forall i :: 0 <= i < |ps| ==> r[i].rfid == ps[i].db.value.rfid && r[i].nameRfid == ps[i].db.value.displayName
  {
    seq(|ps|, i requires 0 <= i < |ps| => WrongRfidNameRow(ps[i].db.value.rfid, ps[i].db.value.displayName))
  }

  /** `handle_wrong_active_members`. */
  function HandleWrongActive(ps: seq<Pair>): (r: seq<WrongActiveRow>)
    requires forall i :: 0 <= i < |ps| ==> ps[i].mms.Some? && ps[i].db.Some?
    ensures |r| == |ps|
    ensures forall i :: 0 <= i < |ps| ==>
              r[i].rfid == ps[i].db.value.rfid && r[i].nameMms == ps[i].mms.value.displayName &&
              r[i].activeMms == ps[i].mms.value.activeTag && r[i].activeDb == ps[i].db.value.activeTag &&
              r[i].mbrship == ps[i].mms.value.mbrship && r[i].endDate == ps[i].mms.value.endDate
  {
    seq(|ps|, i requires 0 <= i < |ps| =>
      WrongActiveRow(ps[i].db.value.rfid, ps[i].mms.value.displayName, ps[i].mms.value.activeTag,
                     ps[i].db.value.activeTag, ps[i].mms.value.mbrship, ps[i].mms.value.endDate))
  }

  /** `handle_no_mms_id_in_db_members`. */
  function HandleNoMmsId(ps: seq<Pair>): (r: seq<NoMmsIdRow>)
    requires forall i :: 0 <= i < |ps| ==> ps[i].mms.Some? && ps[i].db.Some?
    ensures |r| == |ps|
    ensures forall i :: 0 <= i < |ps| ==>
              r[i].rfid == ps[i].db.value.rfid && r[i].mmsId == ps[i].mms.value.mmsId &&
              r[i].nameDb == ps[i].db.value.displayName && r[i].endDate == ps[i].mms.value.endDate
  {
    seq(|ps|, i requires 0 <= i < |ps| =>
      NoMmsIdRow(ps[i].db.value.rfid, ps[i].mms.value.mmsId, ps[i].db.value.displayName, ps[i].mms.value.endDate))
  }

  /** The `formatted_members` report. */
  datatype Report = Report(
    clearMembers: seq<ClearRow>,
    wrongNameMembers: seq<WrongNameRow>,
    wrongRfidNameMembers: seq<WrongRfidNameRow>,
    wrongActiveMembers: seq<WrongActiveRow>,
    noMmsIdInDbMembers: seq<NoMmsIdRow>)

  /** The keys of the report as it is written out. */
  const ReportKeys: set<string> := {"clear_members", "wrong_name_members", "wrong_rfid_name_members", "wrong_active_members", "no_mms_id_in_db_members"}

  /** The script's top level, from the fetched external members and the
      local records (keyed by name) to the report. */
  method BuildCache(raw: seq<MmsMember>, db: Dict<DbRecord>) returns (report: Report)
    requires PyDict.Valid(db)
    ensures var mv := Values(Reformat(raw));
            report == Report(
              HandleClear(ClearBucket(db, mv)),
              HandleWrongName(WrongNameBucket(db, mv)),
              HandleWrongRfidName(WrongRfidNameBucket(Reformat(raw), Values(db))),
              HandleWrongActive(WrongActiveBucket(db, mv)),
              HandleNoMmsId(NoMmsIdBucket(db, mv)))
  {
    var mms := ReformatMmsMembers(raw);
    var clear, wrongName, wrongRfidName, wrongActive, noMmsId := FilterMembers(db, mms);
    report := Report(HandleClear(clear), HandleWrongName(wrongName), HandleWrongRfidName(wrongRfidName),
                     HandleWrongActive(wrongActive), HandleNoMmsId(noMmsId));
  }

  /** Every wrong-active row reports two different flags. */
  lemma WrongActiveRowsDiffer(db: Dict<DbRecord>, mv: seq<MmsRecord>)
    ensures forall row :: row in HandleWrongActive(WrongActiveBucket(db, mv)) ==> row.activeMms != row.activeDb
  {
    var wa := WrongActiveBucket(db, mv);
    forall row | row in HandleWrongActive(wa)
      ensures row.activeMms != row.activeDb
    {
      var i :| 0 <= i < |wa| && HandleWrongActive(wa)[i] == row;
    }
  }

  /** Every clear row names a local record whose flag and tag it reports. */
  lemma ClearRowsAgree(db: Dict<DbRecord>, mv: seq<MmsRecord>)
    ensures forall row :: row in HandleClear(ClearBucket(db, mv)) ==>
              row.nameMms in db.entries && db.entries[row.nameMms].activeTag == row.activeMms && db.entries[row.nameMms].rfid == row.rfid
  {
    var cl := ClearBucket(db, mv);
    forall row | row in HandleClear(cl)
      ensures row.nameMms in db.entries && db.entries[row.nameMms].activeTag == row.activeMms && db.entries[row.nameMms].rfid == row.rfid
    {
      var i :| 0 <= i < |cl| && HandleClear(cl)[i] == row;
      MapFilterMembership(mv, (m: MmsRecord) => IsClear(db, m), (m: MmsRecord) => PairWith(db, m), cl[i]);
    }
  }
}
