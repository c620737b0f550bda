/** The two list scans of the two-phase-locking engine exactly as written:
    both iterate over a Python list by position while removing entries from
    that same list, so the entry after a removed one is never looked at.
    Each as-written definition comes with an input on which it breaks the
    property the corrected definition in TwoPhaseLocking keeps. */
module TwoPhaseLockingFindings {
  import opened Seqs
  import opened TwoPhaseLocking

  /** The inner loop of `_release_locks`: the iterator sits at position `i`
      of the live list; an entry of `num` is removed (its first equal entry)
      and the iterator still moves on by one. */
  function ReleaseListAsWritten(s: seq<Lock>, num: char, i: nat): (r: seq<Lock>)
    ensures |r| <= |s|
    ensures forall l | l in r :: l in s
    decreases |s| - i
  {
    if i >= |s| then s
    else if s[i].holder == num then ReleaseListAsWritten(RemoveFirst(s, s[i]), num, i + 1)
    else ReleaseListAsWritten(s, num, i + 1)
  }

  /** `_release_locks(num)` as written. */
  function ReleaseAsWritten(t: Table, num: char): (r: Table)
    ensures r.Keys == t.Keys
    ensures forall item | item in t :: |r[item]| <= |t[item]|
  {
    map item | item in t :: ReleaseListAsWritten(t[item], num, 0)
  }

  /** A transaction that read an item it had already written holds X then S
      on it. */
  lemma ReadAfterOwnWrite()
    ensures Acquire(State(map['A' := [Lock(Exclusive, '1')]], [], ["W1(A)"], ['1']), false, '1', 'A').1.locks
            == map['A' := [Lock(Exclusive, '1'), Lock(Shared, '1')]]
  {
    var st := State(map['A' := [Lock(Exclusive, '1')]], [], ["W1(A)"], ['1']);
    assert !Conflicts(false, '1', Lock(Exclusive, '1'));
    assert Scan(st, false, '1', 'A', [Lock(Exclusive, '1')]) == (true, st);
    assert [Lock(Exclusive, '1')] + [Lock(Shared, '1')] == [Lock(Exclusive, '1'), Lock(Shared, '1')];
  }

  /** Committing that transaction leaves its Shared entry behind as written;
      the filter removes both. */
  lemma ReleaseKeepsCommittedEntry()
    ensures ReleaseAsWritten(map['A' := [Lock(Exclusive, '1'), Lock(Shared, '1')]], '1')['A'] == [Lock(Shared, '1')]
    ensures Release(map['A' := [Lock(Exclusive, '1'), Lock(Shared, '1')]], '1')['A'] == []
  {
    var s := [Lock(Exclusive, '1'), Lock(Shared, '1')];
    assert RemoveFirst(s, s[0]) == [Lock(Shared, '1')];
    assert ReleaseListAsWritten([Lock(Shared, '1')], '1', 1) == [Lock(Shared, '1')];
    assert ReleaseListAsWritten(s, '1', 0) == [Lock(Shared, '1')];
  }

  /** `_rollback(num)` as written: the result entries are handled on a copy
      of the list, so only the lock release differs from `Rollback`. */
  function RollbackAsWritten(st: State, num: char): (r: State)
    ensures r.locks.Keys == st.locks.Keys
    ensures r.results == Disowned(st.results, num) && r.queue == Owned(st.results, num) + st.queue
  {
    st.(locks := ReleaseAsWritten(st.locks, num),
        results := Disowned(st.results, num),
        queue := Owned(st.results, num) + st.queue)
  }

  /** The conflict scan of `_acquire_lock` as written: position `i` of the
      live entry list, which each rollback shortens under the iterator. */
  function ScanAsWritten(st: State, write: bool, num: char, item: char, i: nat): (r: (bool, State))
    ensures !r.0 ==> exists l | l in Entries(r.1.locks, item) :: Conflicts(write, num, l) && !Older(st.order, num, l.holder)
    decreases |Entries(st.locks, item)| - i
  {
    var e := Entries(st.locks, item);
    if i >= |e| then (true, st)
    else if Conflicts(write, num, e[i]) then
      if Older(st.order, num, e[i].holder) then
        var st' := RollbackAsWritten(st, e[i].holder);
        assert |Entries(st'.locks, item)| <= |e|;
        var r := ScanAsWritten(st', write, num, item, i + 1);
        r
      else
        assert e[i] in Entries(st.locks, item);
        (false, st)
    else ScanAsWritten(st, write, num, item, i + 1)
  }

  /** `_acquire_lock(op, num, item)` as written. */
  function AcquireAsWritten(st: State, write: bool, num: char, item: char): (r: (bool, State))
    ensures r.0 ==> var e := Entries(r.1.locks, item);
                    |e| > 0 && e[|e| - 1] == Lock(if write then Mode.Exclusive else Shared, num)
  {
    var (ok, st') := ScanAsWritten(st, write, num, item, 0);
    if ok then (true, st'.(locks := Grant(st'.locks, write, num, item))) else (false, st')
  }

  /** The state after the log R1(B) R2(A) R3(A): T2 and T3 share A. */
  const SharedByTwo: State :=
    State(map['A' := [Lock(Shared, '2'), Lock(Shared, '3')], 'B' := [Lock(Shared, '1')]],
          [], ["R1(B)", "R2(A)", "R3(A)"], ['1', '2', '3'])

  lemma SharedByTwoWellLocked()
    ensures WellLocked(SharedByTwo.locks)
  {
  }

  /** The same state after T2 is rolled back as written. */
  const RolledBack: State :=
    State(map['A' := [Lock(Shared, '3')], 'B' := [Lock(Shared, '1')]],
          ["R2(A)"], ["R1(B)", "R3(A)"], ['1', '2', '3'])

  lemma ListReleasedAsWritten()
    ensures ReleaseListAsWritten([Lock(Shared, '2'), Lock(Shared, '3')], '2', 0) == [Lock(Shared, '3')]
    ensures ReleaseListAsWritten([Lock(Shared, '1')], '2', 0) == [Lock(Shared, '1')]
  {
    var s := [Lock(Shared, '2'), Lock(Shared, '3')];
    assert RemoveFirst(s, s[0]) == [Lock(Shared, '3')];
    assert ReleaseListAsWritten([Lock(Shared, '3')], '2', 1) == [Lock(Shared, '3')];
    assert ReleaseListAsWritten([Lock(Shared, '1')], '2', 1) == [Lock(Shared, '1')];
  }

  /** The release of a two-item table, item by item. */
  lemma ReleaseTwoItems(t: Table, num: char, a: char, b: char, ra: seq<Lock>, rb: seq<Lock>)
    requires t.Keys == {a, b}
    requires ReleaseListAsWritten(t[a], num, 0) == ra && ReleaseListAsWritten(t[b], num, 0) == rb
    ensures ReleaseAsWritten(t, num) == map[a := ra, b := rb]
  {
  }

  lemma TableReleasedAsWritten()
    ensures ReleaseAsWritten(SharedByTwo.locks, '2') == RolledBack.locks
  {
    ListReleasedAsWritten();
    ReleaseTwoItems(SharedByTwo.locks, '2', 'A', 'B', [Lock(Shared, '3')], [Lock(Shared, '1')]);
  }

  lemma ResultsRolledBack()
    ensures Disowned(SharedByTwo.results, '2') == RolledBack.results
    ensures Owned(SharedByTwo.results, '2') == RolledBack.queue
  {
    var s := SharedByTwo.results;
    assert s[1..][1..] == ["R3(A)"];
    assert Owned(["R3(A)"], '2') == [] && Disowned(["R3(A)"], '2') == ["R3(A)"];
    assert Owned(s[1..], '2') == ["R2(A)"];
    assert Disowned(s[1..], '2') == ["R3(A)"];
  }

  lemma RolledBackAsWritten()
    ensures RollbackAsWritten(SharedByTwo, '2') == RolledBack
  {
    TableReleasedAsWritten();
    ResultsRolledBack();
  }

  /** One step of the scan that rolls back the holder of a younger
      conflicting entry. */
  lemma ScanRollsBack(st: State, write: bool, num: char, item: char, i: nat)
    requires i < |Entries(st.locks, item)|
    requires Conflicts(write, num, Entries(st.locks, item)[i])
    requires Older(st.order, num, Entries(st.locks, item)[i].holder)
    ensures ScanAsWritten(st, write, num, item, i)
            == ScanAsWritten(RollbackAsWritten(st, Entries(st.locks, item)[i].holder), write, num, item, i + 1)
  {
  }

  /** T2's shared entry conflicts with W1(A) and T1 is the older, so the
      scan rolls T2 back and moves on to position 1. */
  lemma ScanRollsBackFirst()
    ensures ScanAsWritten(SharedByTwo, true, '1', 'A', 0) == ScanAsWritten(RolledBack, true, '1', 'A', 1)
  {
    var st := SharedByTwo;
    assert IndexOf(st.order, '1') == 0 && IndexOf(st.order, '2') == 1;
    assert Entries(st.locks, 'A')[0] == Lock(Shared, '2');
    ScanRollsBack(st, true, '1', 'A', 0);
    RolledBackAsWritten();
  }

  /** Position 1 is already past the end of the shortened list [S3]. */
  lemma ScanStopsEarly()
    ensures ScanAsWritten(RolledBack, true, '1', 'A', 1) == (true, RolledBack)
  {
    assert Entries(RolledBack.locks, 'A') == [Lock(Shared, '3')];
  }

  /** The rollback of T2 shortens A's list to [S3] under the iterator, which
      then stops: T3 keeps its entry. */
  lemma ScanSkipsSecondHolder()
    ensures ScanAsWritten(SharedByTwo, true, '1', 'A', 0) == (true, RolledBack)
  {
    ScanRollsBackFirst();
    ScanStopsEarly();
  }

  lemma GrantedAfterRollback()
    ensures Grant(RolledBack.locks, true, '1', 'A') == RolledBack.locks['A' := [Lock(Shared, '3'), Lock(Exclusive, '1')]]
  {
    assert Entries(RolledBack.locks, 'A') == [Lock(Shared, '3')];
    assert Lock(Shared, '1') !in [Lock(Shared, '3')];
    assert RemoveFirst([Lock(Shared, '3')], Lock(Shared, '1')) == [Lock(Shared, '3')];
    assert [Lock(Shared, '3')] + [Lock(Exclusive, '1')] == [Lock(Shared, '3'), Lock(Exclusive, '1')];
  }

  lemma AcquiredAsWritten()
    ensures AcquireAsWritten(SharedByTwo, true, '1', 'A')
            == (true, RolledBack.(locks := RolledBack.locks['A' := [Lock(Shared, '3'), Lock(Exclusive, '1')]]))
  {
    ScanSkipsSecondHolder();
    GrantedAfterRollback();
  }

  /** W1(A) on that state is granted as written and leaves T1's Exclusive
      entry next to T3's Shared one; the corrected `Acquire` keeps the
      lock-compatibility invariant on every state. */
  lemma AcquireBreaksExclusivity()
    ensures WellLocked(SharedByTwo.locks)
    ensures AcquireAsWritten(SharedByTwo, true, '1', 'A').0
    ensures !WellLocked(AcquireAsWritten(SharedByTwo, true, '1', 'A').1.locks)
    ensures WellLocked(Acquire(SharedByTwo, true, '1', 'A').1.locks)
  {
    SharedByTwoWellLocked();
    AcquiredAsWritten();
    var t := AcquireAsWritten(SharedByTwo, true, '1', 'A').1.locks;
    var e := t['A'];
    assert e == [Lock(Shared, '3'), Lock(Exclusive, '1')];
    assert e[1] in e && e[0] in e && e[1].mode == Exclusive && e[0].holder != e[1].holder;
    assert !Compatible(e);
  }
}
