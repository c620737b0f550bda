/** The two-phase-locking simulator of 2pl/twoPL.py (2pl/main.py is the same
    class without coloured output).

    A command is the raw log string: its letter is `cmd[0]`, its transaction
    id the single character `cmd[1]`, and a read or write names the single
    character item `cmd[3]`. The engine keeps a lock table (item to a list of
    Shared/Exclusive entries), a queue of postponed commands, the list of
    executed commands ("final result"), and the order in which transaction ids
    were first seen, which decides every conflict: an older requester rolls the
    younger holder back, a younger requester is refused and queued.

    Two list scans in the source remove entries from the list they iterate
    over; the model scans a snapshot and releases with a filter (see the
    as-written versions in TwoPhaseLockingFindings). */
module TwoPhaseLocking {
  import opened Outcomes
  import opened Seqs
  import opened Text

  datatype Mode = Shared | Exclusive

  datatype Lock = Lock(mode: Mode, holder: char)

  type Table = map<char, seq<Lock>>

  /** What `_execute` reports: 0 = done, 1 = refused (to be queued), 2 = a commit released locks. */
  datatype Code = Done | Refused | Released

  datatype State = State(locks: Table, queue: seq<string>, results: seq<string>, order: seq<char>)

  /** The state `__init__` builds and the end of `simulate` restores. */
  function Init(): State {
    State(map[], [], [], [])
  }

  /** `lock_list.get(item)`, read as no entries when the item is not registered. */
  function Entries(t: Table, item: char): seq<Lock> {
    if item in t then t[item] else []
  }

  /** A command or result string belongs to transaction `num` (`trans[1] == num`). */
  predicate OwnedBy(cmd: string, num: char) {
    |cmd| >= 2 && cmd[1] == num
  }

  /** The entries of `s` held by `h`, in order. */
  function HeldBy(s: seq<Lock>, h: char): seq<Lock> {
    if s == [] then [] else (if s[0].holder == h then [s[0]] else []) + HeldBy(s[1..], h)
  }

  /** `s` without the entries held by `num`. */
  function Without(s: seq<Lock>, num: char): (r: seq<Lock>)
    ensures forall l | l in r :: l in s && l.holder != num
    ensures forall l | l in s && l.holder != num :: l in r
    ensures forall h | h != num :: HeldBy(r, h) == HeldBy(s, h)
  {
    if s == [] then []
    else if s[0].holder == num then Without(s[1..], num)
    else
      var rest := Without(s[1..], num);
      assert ([s[0]] + rest)[1..] == rest;
      [s[0]] + rest
  }

  /** `_release_locks(num)`: every entry of `num` leaves every item's list;
      the other holders keep their entries, in their order. */
  function Release(t: Table, num: char): (r: Table)
    ensures r.Keys == t.Keys
    ensures forall item | item in r :: forall l | l in r[item] :: l.holder != num
    ensures forall item | item in r :: forall l | l in t[item] && l.holder != num :: l in r[item]
    ensures forall item, h | item in r && h != num :: HeldBy(r[item], h) == HeldBy(t[item], h)
  {
    map item | item in t :: Without(t[item], num)
  }

  /** The result entries of `num`, in order. */
  function Owned(s: seq<string>, num: char): seq<string> {
    if s == [] then [] else (if OwnedBy(s[0], num) then [s[0]] else []) + Owned(s[1..], num)
  }

  /** The result entries of every transaction but `num`, in order. */
  function Disowned(s: seq<string>, num: char): (r: seq<string>)
    ensures forall t | t in r :: !OwnedBy(t, num)
    ensures forall h | h != num :: Owned(r, h) == Owned(s, h)
  {
    if s == [] then []
    else
      var rest := Disowned(s[1..], num);
      if OwnedBy(s[0], num) then rest
      else
        assert ([s[0]] + rest)[1..] == rest;
        [s[0]] + rest
  }

  /** Splitting a result list by owner loses and invents no entry. */
  lemma {:induction false} DisownedConserves(s: seq<string>, num: char)
    ensures multiset(Disowned(s, num)) + multiset(Owned(s, num)) == multiset(s)
  {
    if s != [] {
      DisownedConserves(s[1..], num);
      assert s == [s[0]] + s[1..];
    }
  }

  /** Disowning goes through the results in order: the entries left of a
      concatenation are those left of each part, and a single entry stays
      exactly when it is not `num`'s. */
  lemma {:induction false} DisownedAppend(a: seq<string>, b: seq<string>, num: char)
    ensures Disowned(a + b, num) == Disowned(a, num) + Disowned(b, num)
    ensures |a| == 1 ==> Disowned(a, num) == (if OwnedBy(a[0], num) then [] else a)
    decreases |a|
  {
    if a != [] {
      assert (a + b)[1..] == a[1..] + b;
      DisownedAppend(a[1..], b, num);
      if |a| == 1 {
        assert a[1..] == [];
      }
    } else {
      assert a + b == b;
    }
  }

  /** The entry belongs to one of the transactions in `gone`. */
  predicate OwnedByAny(cmd: string, gone: set<char>) {
    |cmd| >= 2 && cmd[1] in gone
  }

  /** The results without the entries of any transaction in `gone`, in order. */
  function Keep(s: seq<string>, gone: set<char>): seq<string> {
    if s == [] then [] else (if OwnedByAny(s[0], gone) then [] else [s[0]]) + Keep(s[1..], gone)
  }

  lemma {:induction false} KeepNone(s: seq<string>)
    ensures Keep(s, {}) == s
  {
    if s != [] {
      KeepNone(s[1..]);
      assert s == [s[0]] + s[1..];
    }
  }

  /** Filtering out one set and then another is filtering out both. */
  lemma {:induction false} KeepTwice(s: seq<string>, a: set<char>, b: set<char>)
    ensures Keep(Keep(s, a), b) == Keep(s, a + b)
  {
    if s != [] {
      KeepTwice(s[1..], a, b);
      var k := Keep(s[1..], a);
      if !OwnedByAny(s[0], a) {
        assert Keep(s, a) == [s[0]] + k;
        assert ([s[0]] + k)[1..] == k;
        assert OwnedByAny(s[0], a + b) == OwnedByAny(s[0], b);
        assert Keep([s[0]] + k, b) == (if OwnedByAny(s[0], b) then [] else [s[0]]) + Keep(k, b);
      } else {
        assert Keep(s, a) == [] + k == k;
        assert Keep(s, a + b) == [] + Keep(s[1..], a + b);
      }
    }
  }

  /** Disowning one transaction is the filter on that one. */
  lemma {:induction false} DisownedKeep(s: seq<string>, num: char)
    ensures Disowned(s, num) == Keep(s, {num})
  {
    if s != [] {
      DisownedKeep(s[1..], num);
    }
  }

  /** A rollback of `h` followed by the filter of some set not holding
      `num` is itself such a filter of the results before the rollback. */
  lemma KeepAfterRollback(s: seq<string>, h: char, num: char, res: seq<string>)
    requires h != num
    requires exists g | num !in g :: res == Keep(Disowned(s, h), g)
    ensures exists g | num !in g :: res == Keep(s, g)
  {
    var g :| num !in g && res == Keep(Disowned(s, h), g);
    DisownedKeep(s, h);
    KeepTwice(s, {h}, g);
    assert res == Keep(s, {h} + g);
  }

  /** A filtered list with one entry appended is the filter with the entry after it. */
  lemma KeepThenAppend(s: seq<string>, res: seq<string>, num: char, x: string)
    requires exists g | num !in g :: res == Keep(s, g)
    ensures exists g | num !in g :: res + [x] == Keep(s, g) + [x]
  {
    var g :| num !in g && res == Keep(s, g);
    assert res + [x] == Keep(s, g) + [x];
  }

  /** `_rollback(num)`: release `num`'s locks, take its entries out of the
      results and put them, in their original order, at the front of the queue. */
  function Rollback(st: State, num: char): (r: State)
    ensures r.order == st.order
    ensures r.locks == Release(st.locks, num)
    ensures r.results == Keep(st.results, {num})
    ensures forall t | t in r.results :: !OwnedBy(t, num)
    ensures forall h | h != num :: Owned(r.results, h) == Owned(st.results, h)
    ensures r.queue == Owned(st.results, num) + st.queue
    ensures multiset(r.results) + multiset(r.queue) == multiset(st.results) + multiset(st.queue)
  {
    DisownedConserves(st.results, num);
    DisownedKeep(st.results, num);
    st.(locks := Release(st.locks, num),
        results := Disowned(st.results, num),
        queue := Owned(st.results, num) + st.queue)
  }

  /** A request by `num` (a write when `write`) conflicts with entry `l`:
      reads only with another transaction's Exclusive entry, writes with any
      entry of another transaction. */
  predicate Conflicts(write: bool, num: char, l: Lock) {
    l.holder != num && (write || l.mode == Exclusive)
  }

  /** `transactionOrder.index(a) < transactionOrder.index(b)`; an id missing
      from the order ranks after every present one. */
  predicate Older(order: seq<char>, a: char, b: char) {
    IndexOf(order, a) < IndexOf(order, b)
  }


  /** The lock-compatibility invariant: an Exclusive entry shares its item
      with entries of its own holder only. */
  ghost predicate Compatible(e: seq<Lock>) {
    forall a, b | a in e && b in e :: a.mode == Exclusive ==> b.holder == a.holder
  }

  ghost predicate WellLocked(t: Table) {
    forall item | item in t :: Compatible(t[item])
  }

  /** Owning is decided entry by entry. */
  lemma {:induction false} OwnedAppend(s: seq<string>, x: string)
    ensures forall h :: Owned(s + [x], h) == Owned(s, h) + (if OwnedBy(x, h) then [x] else [])
  {
    if s != [] {
      OwnedAppend(s[1..], x);
      assert (s + [x])[1..] == s[1..] + [x];
    }
  }

  /** A list with no entry of `num` has nothing of `num` to give up. */
  lemma {:induction false} OwnedNone(s: seq<string>, num: char)
    requires forall t | t in s :: !OwnedBy(t, num)
    ensures Owned(s, num) == [] && Disowned(s, num) == s
  {
    if s != [] {
      OwnedNone(s[1..], num);
    }
  }

  lemma {:induction false} WithoutNone(s: seq<Lock>, num: char)
    requires forall l | l in s :: l.holder != num
    ensures Without(s, num) == s
  {
    if s != [] {
      WithoutNone(s[1..], num);
    }
  }

  /** Rolling a transaction back twice is rolling it back once: the first
      call leaves it no locks and no results. */
  lemma RollbackTwice(st: State, num: char)
    ensures Rollback(Rollback(st, num), num) == Rollback(st, num)
  {
    var r := Rollback(st, num);
    OwnedNone(r.results, num);
    forall item | item in r.locks ensures Without(r.locks[item], num) == r.locks[item] {
      WithoutNone(r.locks[item], num);
    }
  }

  /** Releasing a transaction's locks keeps the invariant. */
  lemma ReleaseKeepsWellLocked(t: Table, num: char)
    ensures WellLocked(t) ==> WellLocked(Release(t, num))
  {
  }

  /** Granting a lock that conflicts with no entry keeps the invariant. */
  lemma GrantKeepsWellLocked(t: Table, write: bool, num: char, item: char)
    ensures WellLocked(t) && (forall l | l in Entries(t, item) :: !Conflicts(write, num, l))
            ==> WellLocked(Grant(t, write, num, item))
  {
    if WellLocked(t) && (forall l | l in Entries(t, item) :: !Conflicts(write, num, l)) {
      var e := Entries(t, item);
      var e' := Grant(t, write, num, item)[item];
      if write {
        assert forall l | l in e' :: l.holder == num;
      } else {
        assert forall a | a in e' && a.mode == Exclusive :: a.holder == num;
      }
    }
  }

  /** `list.append` of the granted entry; a write first gives up the
      requester's first Shared entry (the upgrade). */
  function Grant(t: Table, write: bool, num: char, item: char): (r: Table)
    ensures r.Keys == t.Keys + {item}
    ensures forall it | it in t && it != item :: r[it] == t[it]
    ensures var e := Entries(t, item);
            && (!write ==> r[item] == e + [Lock(Shared, num)])
            && (write && Lock(Shared, num) in e ==>
                  multiset(r[item]) == multiset(e) - multiset{Lock(Shared, num)} + multiset{Lock(Exclusive, num)})
            && (write && Lock(Shared, num) !in e ==> r[item] == e + [Lock(Exclusive, num)])
  {
    var e := Entries(t, item);
    t[item := if write then RemoveFirst(e, Lock(Shared, num)) + [Lock(Exclusive, num)]
              else e + [Lock(Shared, num)]]
  }

  /** The scan of `_acquire_lock` over the snapshot `snap` of the item's
      entries: each conflicting holder younger than `num` is rolled back and
      the scan goes on; the first conflicting holder that is not younger ends
      it with a refusal, keeping the rollbacks already done. The requirement
      says the snapshot still lists every conflicting live entry. */
  function Scan(st: State, write: bool, num: char, item: char, snap: seq<Lock>): (r: (bool, State))
    requires forall l | l in Entries(st.locks, item) && Conflicts(write, num, l) :: l in snap
    ensures r.0 <==> forall l | l in snap && Conflicts(write, num, l) :: Older(st.order, num, l.holder)
    ensures r.0 ==> forall l | l in Entries(r.1.locks, item) :: !Conflicts(write, num, l)
    ensures r.1.order == st.order
    ensures r.1.locks.Keys == st.locks.Keys
    ensures forall it | it in st.locks :: HeldBy(r.1.locks[it], num) == HeldBy(st.locks[it], num)
    ensures Owned(r.1.results, num) == Owned(st.results, num)
    ensures forall h | h != num :: Owned(r.1.results, h) == Owned(st.results, h) || Owned(r.1.results, h) == []
    ensures multiset(st.queue) <= multiset(r.1.queue)
    ensures exists gone | num !in gone :: r.1.results == Keep(st.results, gone)
    ensures WellLocked(st.locks) ==> WellLocked(r.1.locks)
    decreases |snap|
  {
    if snap == [] then
      KeepNone(st.results);
      assert st.results == Keep(st.results, {});
      (true, st)
    else
      var l := snap[0];
      if Conflicts(write, num, l) then
        if Older(st.order, num, l.holder) then
          var st' := Rollback(st, l.holder);
          ReleaseKeepsWellLocked(st.locks, l.holder);
          OwnedNone(st'.results, l.holder);
          assert forall x | x in Entries(st'.locks, item) && Conflicts(write, num, x) :: x in snap[1..] by {
            forall x | x in Entries(st'.locks, item) && Conflicts(write, num, x) ensures x in snap[1..] {
              assert x in Entries(st.locks, item) && x.holder != l.holder;
              assert x in snap && x != snap[0];
            }
          }
          var r := Scan(st', write, num, item, snap[1..]);
          KeepAfterRollback(st.results, l.holder, num, r.1.results);
          r
        else
          KeepNone(st.results);
          assert st.results == Keep(st.results, {});
          (false, st)
      else
        assert forall x | x in Entries(st.locks, item) && Conflicts(write, num, x) :: x in snap[1..] by {
          forall x | x in Entries(st.locks, item) && Conflicts(write, num, x) ensures x in snap[1..] {
            assert x in snap && x != snap[0];
          }
        }
        Scan(st, write, num, item, snap[1..])
  }

  /** `_acquire_lock(op, num, item)`: granted exactly when every conflicting
      holder is younger than `num`, those holders having been rolled back; the
      granted entry goes last and nothing left conflicts with it. A refusal
      adds no lock and keeps `num`'s results. */
  function Acquire(st: State, write: bool, num: char, item: char): (r: (bool, State))
    ensures r.0 <==> forall l | l in Entries(st.locks, item) && Conflicts(write, num, l) :: Older(st.order, num, l.holder)
    ensures r.0 ==> var e := Entries(r.1.locks, item);
                    && |e| > 0
                    && e[|e| - 1] == Lock(if write then Mode.Exclusive else Shared, num)
                    && forall l | l in e :: !Conflicts(write, num, l)
    ensures !r.0 ==> r.1.locks.Keys == st.locks.Keys
    ensures !r.0 ==> forall it | it in st.locks :: HeldBy(r.1.locks[it], num) == HeldBy(st.locks[it], num)
    ensures r.1.order == st.order
    ensures Owned(r.1.results, num) == Owned(st.results, num)
    ensures forall h | h != num :: Owned(r.1.results, h) == Owned(st.results, h) || Owned(r.1.results, h) == []
    ensures multiset(st.queue) <= multiset(r.1.queue)
    ensures exists gone | num !in gone :: r.1.results == Keep(st.results, gone)
    ensures WellLocked(st.locks) ==> WellLocked(r.1.locks)
  {
    var (ok, st') := Scan(st, write, num, item, Entries(st.locks, item));
    if ok then
      GrantLast(st'.locks, write, num, item);
      (true, st'.(locks := Grant(st'.locks, write, num, item)))
    else (false, st')
  }

  /** A lock granted where nothing conflicts with it goes last, and then
      nothing on the item conflicts with it and the invariant is kept. */
  lemma GrantLast(t: Table, write: bool, num: char, item: char)
    requires forall l | l in Entries(t, item) :: !Conflicts(write, num, l)
    ensures var e := Entries(Grant(t, write, num, item), item);
            && |e| > 0
            && e[|e| - 1] == Lock(if write then Mode.Exclusive else Shared, num)
            && forall l | l in e :: !Conflicts(write, num, l)
    ensures WellLocked(t) ==> WellLocked(Grant(t, write, num, item))
  {
    GrantKeepsWellLocked(t, write, num, item);
    var e := Entries(Grant(t, write, num, item), item);
    assert forall l | l in e :: !Conflicts(write, num, l);
  }

  /** The result entry of a granted read or write: `op + num + "(" + item + ")"`. */
  function Echo(cmd: string): (r: string)
    requires |cmd| >= 4
    ensures |r| == 5 && OwnedBy(r, cmd[1]) && r[3] == cmd[3]
  {
    [Upper(cmd[0]), cmd[1], '(', cmd[3], ')']
  }

  /** The operation letter, case-folded as `str.upper` does. */
  function Letter(cmd: string): char
    requires |cmd| >= 1
  {
    Upper(cmd[0])
  }

  predicate IsAccess(cmd: string) {
    |cmd| >= 1 && (Letter(cmd) == 'R' || Letter(cmd) == 'W')
  }

  /** `_execute(trans)`: a read or write either is granted (code 0, one
      result entry for `num`) or refused (code 1, nothing of `num` changes);
      a commit releases every lock of `num` and records `C` + num (code 2);
      any other letter raises. */
  function Execute(st: State, cmd: string): (r: Result<(Code, State)>)
    ensures r.Err? <==> |cmd| < 2 || (IsAccess(cmd) && |cmd| < 4) || (!IsAccess(cmd) && Letter(cmd) != 'C')
    ensures r.Ok? ==> r.value.1.order == st.order && multiset(st.queue) <= multiset(r.value.1.queue)
    ensures r.Ok? && IsAccess(cmd) ==>
              var write := Letter(cmd) == 'W';
              && r.value.0 != Released
              && (r.value.0 == Done <==>
                    forall l | l in Entries(st.locks, cmd[3]) && Conflicts(write, cmd[1], l) :: Older(st.order, cmd[1], l.holder))
    ensures r.Ok? && r.value.0 == Done ==>
              && |cmd| >= 4 && IsAccess(cmd)
              && (exists gone | cmd[1] !in gone :: r.value.1.results == Keep(st.results, gone) + [Echo(cmd)])
              && Owned(r.value.1.results, cmd[1]) == Owned(st.results, cmd[1]) + [Echo(cmd)]
              && var e := Entries(r.value.1.locks, cmd[3]);
                 |e| > 0 && e[|e| - 1].holder == cmd[1]
    ensures r.Ok? && r.value.0 == Refused ==>
              && (exists gone | cmd[1] !in gone :: r.value.1.results == Keep(st.results, gone))
              && r.value.1.locks.Keys == st.locks.Keys
              && Owned(r.value.1.results, cmd[1]) == Owned(st.results, cmd[1])
              && forall it | it in st.locks :: HeldBy(r.value.1.locks[it], cmd[1]) == HeldBy(st.locks[it], cmd[1])
    ensures r.Ok? && !IsAccess(cmd) ==>
              && r.value.0 == Released
              && r.value.1 == st.(locks := Release(st.locks, cmd[1]), results := st.results + [['C', cmd[1]]])
    ensures r.Ok? ==> forall h | h != cmd[1] ::
              Owned(r.value.1.results, h) == Owned(st.results, h) || Owned(r.value.1.results, h) == []
    ensures r.Ok? && WellLocked(st.locks) ==> WellLocked(r.value.1.locks)
  {
    if |cmd| < 2 then Err(Malformed)
    else
      var num := cmd[1];
      if IsAccess(cmd) then
        if |cmd| < 4 then Err(Malformed)
        else
          var (ok, st') := Acquire(st, Letter(cmd) == 'W', num, cmd[3]);
          if ok then
            OwnedAppend(st'.results, Echo(cmd));
            KeepThenAppend(st.results, st'.results, num, Echo(cmd));
            Ok((Done, st'.(results := st'.results + [Echo(cmd)])))
          else Ok((Refused, st'))
      else if Letter(cmd) == 'C' then
        OwnedAppend(st.results, ['C', num]);
        ReleaseKeepsWellLocked(st.locks, num);
        Ok((Released, st.(locks := Release(st.locks, num), results := st.results + [['C', num]])))
      else Err(UnknownCommand)
  }

  /** One entry of the drain pass, already taken out of the queue: a
      transaction in `refused` has the entry put back at the end without
      running; any other entry runs, and when refused goes back to the end of
      the queue and its transaction joins `refused`. */
  function Retry(st: State, t: string, refused: seq<char>, last: Code): (r: Result<(Code, State, seq<char>)>)
    requires |t| >= 2
    ensures r.Ok? && t[1] in refused ==> r.value == (last, st.(queue := st.queue + [t]), refused)
    ensures r.Ok? ==> r.value.1.order == st.order && multiset(st.queue) <= multiset(r.value.1.queue)
    ensures r.Ok? ==> forall n | n in refused :: n in r.value.2
    ensures r.Ok? ==> forall n | n in r.value.2 ::
              Owned(r.value.1.results, n) == Owned(st.results, n) || Owned(r.value.1.results, n) == []
    ensures r.Ok? && WellLocked(st.locks) ==> WellLocked(r.value.1.locks)
  {
    if t[1] in refused then Ok((last, st.(queue := st.queue + [t]), refused))
    else
      var x :- Execute(st, t);
      if x.0 == Refused then Ok((x.0, x.1.(queue := x.1.queue + [t]), refused + [t[1]]))
      else Ok((x.0, x.1, refused))
  }

  /** The drain pass that follows a commit: each entry of the snapshot `snap`
      of the queue is taken out of the live queue (its first equal entry) and
      retried. Once a transaction is refused, its results can only shrink
      (through a rollback) for the rest of the pass. The requirement, kept
      along the pass, is what makes every `remove` of the source find its
      entry. */
  function Drain(st: State, snap: seq<string>, refused: seq<char>, last: Code): (r: Result<(Code, State)>)
    requires multiset(snap) <= multiset(st.queue)
    ensures r.Ok? ==> r.value.1.order == st.order
    ensures r.Ok? ==> forall n | n in refused ::
              Owned(r.value.1.results, n) == Owned(st.results, n) || Owned(r.value.1.results, n) == []
    ensures r.Ok? && WellLocked(st.locks) ==> WellLocked(r.value.1.locks)
    decreases |snap|
  {
    if snap == [] then Ok((last, st))
    else
      var t := snap[0];
      assert t in multiset(snap);
      var q := RemoveFirst(st.queue, t);
      assert multiset(snap[1..]) <= multiset(q) by {
        assert snap == [t] + snap[1..];
      }
      if |t| < 2 then Err(Malformed)
      else
        var x :- Retry(st.(queue := q), t, refused, last);
        Drain(x.1, snap[1..], x.2, x.0)
  }

  /** Some queued entry belongs to `num`: the transaction is waiting. */
  predicate Waiting(queue: seq<string>, num: char) {
    exists t | t in queue :: OwnedBy(t, num)
  }

  /** A command's transaction id joins the arrival order, and its item gets
      an empty lock list, when first seen; nothing else changes. */
  function Register(st: State, comm: string): (r: State)
    requires |comm| >= 2 && (IsAccess(comm) ==> |comm| >= 4)
    ensures r.order == AddAbsent(st.order, comm[1])
    ensures r.queue == st.queue && r.results == st.results
    ensures r.locks.Keys == st.locks.Keys + (if IsAccess(comm) then {comm[3]} else {})
    ensures forall item | item in st.locks :: r.locks[item] == st.locks[item]
    ensures IsAccess(comm) && comm[3] !in st.locks ==> r.locks[comm[3]] == []
  {
    var locks := if IsAccess(comm) && comm[3] !in st.locks then st.locks[comm[3] := []] else st.locks;
    st.(order := AddAbsent(st.order, comm[1]), locks := locks)
  }

  /** One command of the log as `simulate` takes it: its transaction id is
      added to the arrival order at first sight, its item gets an empty lock
      list at first sight, then the command either waits behind an entry of
      its own transaction already queued, or runs and is queued when refused. */
  function Admit(st: State, comm: string, last: Code): (r: Result<(Code, State)>)
    ensures r.Err? <==> |comm| < 2 || (IsAccess(comm) && |comm| < 4) || (!Waiting(st.queue, comm[1]) && !IsAccess(comm) && Letter(comm) != 'C')
    ensures r.Ok? ==> r.value.1.order == AddAbsent(st.order, comm[1])
    ensures r.Ok? && IsAccess(comm) ==> comm[3] in r.value.1.locks
    ensures r.Ok? && Waiting(st.queue, comm[1]) ==>
              r.value.0 == last && r.value.1.results == st.results && r.value.1.queue == st.queue + [comm]
    ensures r.Ok? ==> forall h | h != comm[1] ::
              Owned(r.value.1.results, h) == Owned(st.results, h) || Owned(r.value.1.results, h) == []
    ensures r.Ok? && WellLocked(st.locks) ==> WellLocked(r.value.1.locks)
  {
    if |comm| < 2 then Err(Malformed)
    else if IsAccess(comm) && |comm| < 4 then Err(Malformed)
    else
      var st1 := Register(st, comm);
      if Waiting(st.queue, comm[1]) then Ok((last, st1.(queue := st.queue + [comm])))
      else
        var x :- Execute(st1, comm);
        Ok((x.0, if x.0 == Refused then x.1.(queue := x.1.queue + [comm]) else x.1))
  }

  /** One iteration of the main loop of `simulate`: drain the queue first when
      the previous step released locks. */
  function Step(st: State, last: Code, comm: string): (r: Result<(Code, State)>)
    ensures r.Ok? ==> |comm| >= 2 && comm[1] in r.value.1.order
    ensures r.Ok? ==> forall n | n in st.order :: n in r.value.1.order
    ensures r.Ok? && NoDup(st.order) ==> NoDup(r.value.1.order)
    ensures r.Ok? && WellLocked(st.locks) ==> WellLocked(r.value.1.locks)
  {
    if last == Released then
      var d :- Drain(st, st.queue, [], last);
      Admit(d.1, comm, d.0)
    else Admit(st, comm, last)
  }

  /** The main loop of `simulate` over `log`. */
  function Pass(st: State, log: seq<string>, last: Code): (r: Result<State>)
    ensures r.Ok? ==> forall i | 0 <= i < |log| :: |log[i]| >= 2 && log[i][1] in r.value.order
    ensures r.Ok? ==> forall n | n in st.order :: n in r.value.order
    ensures r.Ok? && NoDup(st.order) ==> NoDup(r.value.order)
    ensures r.Ok? && WellLocked(st.locks) ==> WellLocked(r.value.locks)
    decreases |log|
  {
    if log == [] then Ok(st)
    else
      var x :- Step(st, last, log[0]);
      Pass(x.1, log[1..], x.0)
  }

  /** `simulate(transaction)`: run the log; while entries are left in the
      queue, empty it and run them again as a new log with the same locks,
      results and arrival order. Each re-run uses one unit of `fuel`. A
      finished run leaves the queue empty, every transaction of the log in the
      arrival order once, and never an Exclusive entry beside another
      transaction's entry. */
  function Simulate(st: State, log: seq<string>, fuel: nat): (r: Result<State>)
    ensures r.Ok? ==> r.value.queue == []
    ensures r.Ok? ==> forall i | 0 <= i < |log| :: |log[i]| >= 2 && log[i][1] in r.value.order
    ensures r.Ok? ==> forall n | n in st.order :: n in r.value.order
    ensures r.Ok? && NoDup(st.order) ==> NoDup(r.value.order)
    ensures r.Ok? && WellLocked(st.locks) ==> WellLocked(r.value.locks)
    decreases fuel
  {
    var st1 :- Pass(st, log, Done);
    if |st1.queue| == 0 then Ok(st1)
    else if fuel == 0 then Err(OutOfFuel)
    else Simulate(st1.(queue := []), st1.queue, fuel - 1)
  }

  /** The final result list `simulate` reports for `log` on a fresh engine. */
  function Run(log: seq<string>, fuel: nat): (r: Result<seq<string>>)
  {
    var st :- Simulate(Init(), log, fuel);
    Ok(st.results)
  }
}
