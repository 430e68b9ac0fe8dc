/** filter.py: given the report build_cache2.py writes (read back as a
    dictionary of buckets) and the command-line flags, pick one bucket.
    The flags are tested one after the other and each set flag overwrites
    the choice, so the set flag latest in the order below wins; a set flag
    whose bucket is missing raises KeyError. */
module BucketFilter {
  import opened Common
  import Reconcile

  /** `--clear`, `--zerod`, `--wrong-name`, `--wrong-active`, `--add-to-db`,
      `--add-to-mms`, `--no-mms-id`, in the order they are tested. */
  datatype Flags = Flags(
    clear: bool,
    zerod: bool,
    wrongName: bool,
    wrongActive: bool,
    addToDb: bool,
    addToMms: bool,
    noMmsId: bool)

  const ClearKey := "clear_members"
  const ZerodKey := "zerod_members"
  const WrongNameKey := "wrong_name_members"
  const WrongActiveKey := "wrong_active_members"
  const AddToDbKey := "add_to_db_members"
  const AddToMmsKey := "add_to_mms_members"
  const NoMmsIdKey := "no_mms_id_in_db_members"

  /** One `if args[flag]: want = got[key]`: a set flag replaces the choice
      with its bucket, or raises KeyError when the bucket is missing, which
      ends the script. */
  function Pick<J>(prev: Result<seq<J>>, on: bool, key: string, got: map<string, seq<J>>): Result<seq<J>> {
    if prev.Err? || !on then prev
    else if key in got then Ok(got[key])
    else Err(KeyError)
  }

  /** The i-th flag tested, and the bucket it asks for. */
  function FlagAt(f: Flags, i: nat): bool
    requires i < 7
  {
    match i
    case 0 => f.clear
    case 1 => f.zerod
    case 2 => f.wrongName
    case 3 => f.wrongActive
    case 4 => f.addToDb
    case 5 => f.addToMms
    case _ => f.noMmsId
  }

  function KeyAt(i: nat): string
    requires i < 7
  {
    match i
    case 0 => ClearKey
    case 1 => ZerodKey
    case 2 => WrongNameKey
    case 3 => WrongActiveKey
    case 4 => AddToDbKey
    case 5 => AddToMmsKey
    case _ => NoMmsIdKey
  }

  /** `want` after the first n statements, starting from `want = []`. */
  function After<J>(f: Flags, got: map<string, seq<J>>, n: nat): Result<seq<J>>
    requires n <= 7
  {
    if n == 0 then Ok([]) else Pick(After(f, got, n - 1), FlagAt(f, n - 1), KeyAt(n - 1), got)
  }

  /** The first n statements fail exactly when one of them asks for a
      missing bucket, and then with KeyError; otherwise `want` is [] or one
      of the buckets. */
  lemma {:induction false} AfterOutcome<J>(f: Flags, got: map<string, seq<J>>, n: nat)
    requires n <= 7
    ensures After(f, got, n).Err? <==> exists i :: 0 <= i < n && FlagAt(f, i) && KeyAt(i) !in got
    ensures After(f, got, n).Err? ==> After(f, got, n) == Err(KeyError)
    ensures After(f, got, n).Ok? ==> After(f, got, n).value == [] || exists k :: k in got && After(f, got, n).value == got[k]
  {
    if n > 0 {
      AfterOutcome(f, got, n - 1);
    }
  }

  /** When nothing fails, the last set flag among the first n decides. */
  lemma {:induction false} AfterLastSet<J>(f: Flags, got: map<string, seq<J>>, n: nat, i: nat)
    requires n <= 7 && After(f, got, n).Ok?
    requires i < n && FlagAt(f, i) && forall j :: i < j < n ==> !FlagAt(f, j)
    ensures KeyAt(i) in got && After(f, got, n) == Ok(got[KeyAt(i)])
  {
    if i < n - 1 {
      AfterLastSet(f, got, n - 1, i);
    }
  }

  /** With no flag set among the first n, `want` is still []. */
  lemma {:induction false} AfterNoneSet<J>(f: Flags, got: map<string, seq<J>>, n: nat)
    requires n <= 7
    ensures (forall j :: 0 <= j < n ==> !FlagAt(f, j)) ==> After(f, got, n) == Ok([])
  {
    if n > 0 {
      AfterNoneSet(f, got, n - 1);
    }
  }

  /** Once KeyError has been raised, nothing after it runs. */
  lemma {:induction false} ErrSticks<J>(f: Flags, got: map<string, seq<J>>, n: nat)
    requires n <= 7 && After(f, got, n).Err?
    ensures After(f, got, 7) == After(f, got, n)
    decreases 7 - n
  {
    if n < 7 {
      ErrSticks(f, got, n + 1);
    }
  }

  /** What the script writes: KeyError when a set flag's bucket is missing,
      otherwise the bucket of the last set flag, or [] when none is set. */
  function Chosen<J>(f: Flags, got: map<string, seq<J>>): (r: Result<seq<J>>)
    ensures r.Err? <==> exists i :: 0 <= i < 7 && FlagAt(f, i) && KeyAt(i) !in got
    ensures r.Err? ==> r.error == KeyError
    ensures r.Ok? ==> r.value == [] || exists k :: k in got && r.value == got[k]
    ensures (forall i :: 0 <= i < 7 ==> !FlagAt(f, i)) ==> r == Ok([])
  {
    AfterOutcome(f, got, 7);
    AfterNoneSet(f, got, 7);
    After(f, got, 7)
  }

  /** The chain of `if args[...]: want = got[...]` statements. */
  method Select<J>(f: Flags, got: map<string, seq<J>>) returns (r: Result<seq<J>>)
    ensures r == Chosen(f, got)
  {
    var want: seq<J> := [];
    if f.clear {
      if ClearKey !in got { ErrSticks(f, got, 1); return Err(KeyError); }
      want := got[ClearKey];
    }
    assert After(f, got, 1) == Ok(want);
    if f.zerod {
      if ZerodKey !in got { ErrSticks(f, got, 2); return Err(KeyError); }
      want := got[ZerodKey];
    }
    assert After(f, got, 2) == Ok(want);
    if f.wrongName {
      if WrongNameKey !in got { ErrSticks(f, got, 3); return Err(KeyError); }
      want := got[WrongNameKey];
    }
    assert After(f, got, 3) == Ok(want);
    if f.wrongActive {
      if WrongActiveKey !in got { ErrSticks(f, got, 4); return Err(KeyError); }
      want := got[WrongActiveKey];
    }
    assert After(f, got, 4) == Ok(want);
    if f.addToDb {
      if AddToDbKey !in got { ErrSticks(f, got, 5); return Err(KeyError); }
      want := got[AddToDbKey];
    }
    assert After(f, got, 5) == Ok(want);
    if f.addToMms {
      if AddToMmsKey !in got { ErrSticks(f, got, 6); return Err(KeyError); }
      want := got[AddToMmsKey];
    }
    assert After(f, got, 6) == Ok(want);
    if f.noMmsId {
      if NoMmsIdKey !in got { ErrSticks(f, got, 7); return Err(KeyError); }
      want := got[NoMmsIdKey];
    }
    assert After(f, got, 7) == Ok(want);
    r := Ok(want);
  }

  /** The set flag tested last decides. */
  lemma LatestFlagWins<J>(f: Flags, got: map<string, seq<J>>)
    requires Chosen(f, got).Ok?
    ensures f.noMmsId ==> NoMmsIdKey in got && Chosen(f, got) == Ok(got[NoMmsIdKey])
    ensures !f.noMmsId && f.addToMms ==> AddToMmsKey in got && Chosen(f, got) == Ok(got[AddToMmsKey])
    ensures !f.noMmsId && !f.addToMms && f.addToDb ==> AddToDbKey in got && Chosen(f, got) == Ok(got[AddToDbKey])
    ensures !f.noMmsId && !f.addToMms && !f.addToDb && f.wrongActive ==>
              WrongActiveKey in got && Chosen(f, got) == Ok(got[WrongActiveKey])
    ensures !f.noMmsId && !f.addToMms && !f.addToDb && !f.wrongActive && f.wrongName ==>
              WrongNameKey in got && Chosen(f, got) == Ok(got[WrongNameKey])
    ensures !f.noMmsId && !f.addToMms && !f.addToDb && !f.wrongActive && !f.wrongName && f.zerod ==>
              ZerodKey in got && Chosen(f, got) == Ok(got[ZerodKey])
    ensures !f.noMmsId && !f.addToMms && !f.addToDb && !f.wrongActive && !f.wrongName && !f.zerod && f.clear ==>
              ClearKey in got && Chosen(f, got) == Ok(got[ClearKey])
  {
    if f.noMmsId { AfterLastSet(f, got, 7, 6); }
    else if f.addToMms { AfterLastSet(f, got, 7, 5); }
    else if f.addToDb { AfterLastSet(f, got, 7, 4); }
    else if f.wrongActive { AfterLastSet(f, got, 7, 3); }
    else if f.wrongName { AfterLastSet(f, got, 7, 2); }
    else if f.zerod { AfterLastSet(f, got, 7, 1); }
    else if f.clear { AfterLastSet(f, got, 7, 0); }
  }

  /** With exactly one flag set, the output is that flag's bucket. */
  lemma OneFlag<J>(f: Flags, got: map<string, seq<J>>, i: nat)
    requires i < 7 && FlagAt(f, i) && KeyAt(i) in got
    requires forall j :: 0 <= j < 7 && j != i ==> !FlagAt(f, j)
    ensures Chosen(f, got) == Ok(got[KeyAt(i)])
  {
    AfterOutcome(f, got, 7);
    AfterLastSet(f, got, 7, i);
  }

  /** The buckets build_cache2.py writes have the keys `Reconcile.ReportKeys`:
      three of the flags name a bucket that is never written, so asking for
      any of them raises KeyError, and every other request succeeds. */
  lemma ReportRequests<J>(f: Flags, got: map<string, seq<J>>)
    requires got.Keys == Reconcile.ReportKeys
    ensures Chosen(f, got).Err? <==> f.zerod || f.addToDb || f.addToMms
  {
    if f.zerod { assert FlagAt(f, 1) && KeyAt(1) !in got; }
    if f.addToDb { assert FlagAt(f, 4) && KeyAt(4) !in got; }
    if f.addToMms { assert FlagAt(f, 5) && KeyAt(5) !in got; }
  }
}
