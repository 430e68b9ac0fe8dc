/** build_active_member_cache.py, less its network fetch: the members the
    membership site returns are keyed by their keyfob id, and the values
    that pass `is_active_member` are kept. */
module ActiveCache {
  import opened Seqs
  import opened PyDict

  /** The fields of one member object the script reads; `keyfobId` is
      `member['profile']['mepr_keyfob_id']`.  Only the length of
      `active_memberships` is ever looked at. */
  datatype SiteMember = SiteMember(
    id: int,
    displayName: string,
    email: string,
    activeMemberships: seq<int>,
    keyfobId: string)

  /** The dictionary `map_members_by_rfid` stores per keyfob. */
  datatype CacheEntry = CacheEntry(
    mmsId: int,
    displayName: string,
    email: string,
    activeMemberships: seq<int>,
    rfid: string)

  /** The keyfob id the membership site reports for a member who was never given one. */
  const DefaultKeyfob := "0000000000"

  function Keyfob(m: SiteMember): string { m.keyfobId }

  function EntryOf(m: SiteMember): (e: CacheEntry)
    ensures e.rfid == m.keyfobId && e.mmsId == m.id && e.displayName == m.displayName
    ensures e.email == m.email && e.activeMemberships == m.activeMemberships
  {
    CacheEntry(m.id, m.displayName, m.email, m.activeMemberships, m.keyfobId)
  }

  /** The dictionary `map_members_by_rfid` returns. */
  function ByRfid(members: seq<SiteMember>): (d: Dict<CacheEntry>)
    ensures PyDict.Valid(d)
  {
    PutAll(members, Keyfob, EntryOf)
  }

  /** `map_members_by_rfid`. */
  method MapMembersByRfid(members: seq<SiteMember>) returns (byRfid: Dict<CacheEntry>)
    ensures PyDict.Valid(byRfid)
    ensures byRfid == ByRfid(members)
  {
    byRfid := Empty();
    for i := 0 to |members|
      invariant byRfid == PutAll(members[..i], Keyfob, EntryOf)
    {
      var member := members[i];
      var rfid := member.keyfobId;
      var xs := members[..i + 1];
      assert xs[..|xs| - 1] == members[..i];
      byRfid := Put(byRfid, rfid, CacheEntry(member.id, member.displayName, member.email, member.activeMemberships, rfid));
    }
    assert members[..|members|] == members;
  }

  /** The keys are exactly the keyfob ids seen, and each value records its own key. */
  lemma ByRfidKeys(members: seq<SiteMember>, k: string)
    ensures k in ByRfid(members).entries <==> exists i :: 0 <= i < |members| && members[i].keyfobId == k
    ensures k in ByRfid(members).entries ==> ByRfid(members).entries[k].rfid == k
  {
    PutAllKeys(members, Keyfob, EntryOf, k);
    if k in ByRfid(members).entries {
      PutAllValues(members, Keyfob, EntryOf, k);
    }
  }

  /** Of several members sharing a keyfob, the last one is kept. */
  lemma ByRfidLastWins(members: seq<SiteMember>, i: nat)
    requires i < |members|
    requires forall j :: i < j < |members| ==> members[j].keyfobId != members[i].keyfobId
    ensures members[i].keyfobId in ByRfid(members).entries
    ensures ByRfid(members).entries[members[i].keyfobId] == EntryOf(members[i])
  {
    PutAllLastWins(members, Keyfob, EntryOf, i);
  }

  /** Every value comes from the last member with its keyfob. */
  lemma ByRfidValues(members: seq<SiteMember>, k: string)
    requires k in ByRfid(members).entries
    ensures exists i: nat :: LastWithKey(members, Keyfob, k, i) && ByRfid(members).entries[k] == EntryOf(members[i])
  {
    PutAllValues(members, Keyfob, EntryOf, k);
  }

  /** `is_active_member`: a member counts when it holds a membership and a
      keyfob other than the empty one and the site's all-zero default. */
  function IsActiveMember(e: CacheEntry): (r: bool)
    ensures |e.activeMemberships| == 0 ==> !r
    ensures e.rfid == "" ==> !r
    ensures e.rfid == DefaultKeyfob ==> !r
    ensures r <==> |e.activeMemberships| > 0 && e.rfid != "" && e.rfid != DefaultKeyfob
  {
    if |e.activeMemberships| == 0 then false
    else if e.rfid == "" then false
    else if e.rfid == DefaultKeyfob then false
    else true
  }

  /** `list(filter(is_active_member, members_by_rfid.values()))`. */
  function ActiveMembers(d: Dict<CacheEntry>): (r: seq<CacheEntry>)
    requires PyDict.Valid(d)
    ensures IsSubsequence(r, Values(d))
    ensures forall i :: 0 <= i < |r| ==> IsActiveMember(r[i])
  {
    FilterIsSubsequence(Values(d), IsActiveMember);
    FilterAllSatisfy(Values(d), IsActiveMember);
    Filter(Values(d), IsActiveMember)
  }

  /** Nothing active in the map is dropped. */
  lemma ActiveMembersComplete(d: Dict<CacheEntry>, e: CacheEntry)
    requires PyDict.Valid(d)
    ensures e in ActiveMembers(d) <==> e in Values(d) && IsActiveMember(e)
  {
    FilterMembership(Values(d), IsActiveMember, e);
  }

  /** The whole script: an entry is in the cache exactly when it was made
      from a member that is the last one with its keyfob and passes the test. */
  lemma ActiveCacheContents(members: seq<SiteMember>, e: CacheEntry)
    ensures e in ActiveMembers(ByRfid(members)) <==>
            IsActiveMember(e) && exists i: nat :: LastWithKey(members, Keyfob, e.rfid, i) && e == EntryOf(members[i])
  {
    var d := ByRfid(members);
    ActiveMembersComplete(d, e);
    if e in Values(d) {
      var j :| 0 <= j < |d.order| && Values(d)[j] == e;
      var k := d.order[j];
      ByRfidKeys(members, k);
      ByRfidValues(members, k);
    }
    if exists i: nat :: LastWithKey(members, Keyfob, e.rfid, i) && e == EntryOf(members[i]) {
      var i: nat :| LastWithKey(members, Keyfob, e.rfid, i) && e == EntryOf(members[i]);
      ByRfidLastWins(members, i);
      ValuesListsEveryEntry(d, e.rfid);
    }
  }
}
