/** The multiversion timestamp-ordering engine of mvcc/Mvcc.py.

    Every item has a chain of versions; a transaction's timestamp is its own
    number when first seen and a fresh counter value after each restart. A
    read marks the newest version whose read timestamp is below the reader's;
    a write creates a version unless every version was read by a younger
    transaction, in which case the writer aborts. An abort removes the
    versions of every transaction reachable from the aborting one through the
    readers ("dependents") of versions it created, and then every one of those
    transactions restarts and replays its operations. */
module Mvcc {
  import opened Outcomes
  import opened Seqs
  import opened Operations
  import opened Versions
  import Closure

  /** A created version, by item label and id (`created_items`). */
  datatype Ref = Ref(name: string, id: nat)

  /** `MVCCTransaction`: number, timestamp, operations so far (`arr_process`), created versions. */
  datatype Txn = Txn(tnum: int, ts: int, process: seq<Op>, created: seq<Ref>)

  /** A restart of transaction `tnum` with the new timestamp `ts`. */
  datatype Restart = Restart(tnum: int, ts: int)

  /** The engine: `current_timestamp`, the transactions in first-seen order,
      the version store, the next version id, and every restart so far. */
  datatype State = State(counter: nat, txns: seq<Txn>, store: Store, nextId: nat, restarts: seq<Restart>)

  function Init(): State {
    State(0, [], map[], 0, [])
  }

  /** `find_transaction(t_num)`: the position of the first transaction with that number. */
  function Find(txns: seq<Txn>, t: int): (r: Option<nat>)
    ensures r.Some? ==> r.value < |txns| && txns[r.value].tnum == t
    ensures r.Some? ==> forall j | 0 <= j < r.value :: txns[j].tnum != t
    ensures r.None? <==> forall j | 0 <= j < |txns| :: txns[j].tnum != t
  {
    FirstWith(txns, (x: Txn) => x.tnum, t)
  }

  /** The lookup finds the first position holding the number. */
  lemma FindAt(txns: seq<Txn>, t: int, i: nat)
    requires i < |txns| && txns[i].tnum == t
    requires forall j | 0 <= j < i :: txns[j].tnum != t
    ensures Find(txns, t) == Some(i)
  {
  }

  /** `prepare_item(op)`: before anything runs, an item named by a
      non-commit operation gets the one-version chain of a fresh
      `TransactionItem`, unless it already has a chain. A non-commit
      operation without an item is the AttributeError of the source. */
  function PrepareItem(st: State, op: Op): (r: Result<State>)
    ensures r.Ok? <==> op.kind == 'C' || op.item.Some?
    ensures r.Ok? ==> r.value.counter == st.counter && r.value.txns == st.txns && r.value.restarts == st.restarts
    ensures r.Ok? ==> st.nextId <= r.value.nextId
    ensures r.Ok? ==> forall n | n in st.store :: n in r.value.store && r.value.store[n] == st.store[n]
    ensures r.Ok? ==> forall n | n in r.value.store && n !in st.store ::
              |r.value.store[n]| == 1 && r.value.store[n][0] == Fresh(st.nextId, n)
    ensures r.Ok? && op.kind != 'C' ==> op.item.value in r.value.store
  {
    if op.kind == 'C' then Ok(st)
    else if op.item.None? then Err(Malformed)
    else if op.item.value in st.store then Ok(st)
    else
      var name := op.item.value;
      Ok(st.(store := AddNewVersion(st.store, Fresh(st.nextId, name)), nextId := st.nextId + 1))
  }

  /** The first loop of `run`: `prepare_item` over the whole log. Every
      item of a read or write ends up with a chain; a chain created here is
      one version with timestamps 0, and chains already present are kept. */
  function PrepareItems(st: State, ops: seq<Op>): (r: Result<State>)
    ensures r.Ok? <==> forall i | 0 <= i < |ops| :: ops[i].kind == 'C' || ops[i].item.Some?
    ensures r.Ok? ==> r.value.counter == st.counter && r.value.txns == st.txns && r.value.restarts == st.restarts
    ensures r.Ok? ==> forall i | 0 <= i < |ops| && ops[i].kind != 'C' :: ops[i].item.value in r.value.store
    ensures r.Ok? ==> forall n | n in st.store :: n in r.value.store && r.value.store[n] == st.store[n]
    ensures r.Ok? ==> forall n | n in r.value.store && n !in st.store ::
              && |r.value.store[n]| == 1
              && var v := r.value.store[n][0];
                 v.name == n && v.version == 0 && v.readTs == 0 && v.writeTs == 0 && v.dependents == []
    decreases |ops|
  {
    if ops == [] then Ok(st)
    else
      match PrepareItem(st, ops[0])
      case Err(f) => Err(f)
      case Ok(st1) => PrepareItems(st1, ops[1..])
  }

  /** `prepare(op)`: a transaction seen for the first time is added with
      its own number as timestamp and the counter goes up by one; otherwise
      the operation is only added to its list of operations. */
  function Prepare(st: State, op: Op): (r: State)
    ensures Find(st.txns, op.tnum).None? ==>
              && r.counter == st.counter + 1
              && r.txns == st.txns + [Txn(op.tnum, op.tnum, [op], [])]
    ensures Find(st.txns, op.tnum).Some? ==>
              && r.counter == st.counter
              && |r.txns| == |st.txns|
              && var i := Find(st.txns, op.tnum).value;
                 && r.txns[i].process == st.txns[i].process + [op]
                 && r.txns[i].ts == st.txns[i].ts && r.txns[i].created == st.txns[i].created
                 && forall j | 0 <= j < |st.txns| && j != i :: r.txns[j] == st.txns[j]
    ensures r.store == st.store && r.nextId == st.nextId && r.restarts == st.restarts
  {
    match Find(st.txns, op.tnum)
    case None => st.(txns := st.txns + [Txn(op.tnum, op.tnum, [op], [])], counter := st.counter + 1)
    case Some(i) => st.(txns := st.txns[i := st.txns[i].(process := st.txns[i].process + [op])])
  }

  /** Newest first, the first version whose read timestamp is below `ts`. */
  function LastBelow(c: seq<Version>, ts: int): (r: Option<nat>)
    ensures r.Some? ==> r.value < |c| && c[r.value].readTs < ts
    ensures r.Some? ==> forall j | r.value < j < |c| :: c[j].readTs >= ts
    ensures r.None? <==> forall j | 0 <= j < |c| :: c[j].readTs >= ts
    decreases |c|
  {
    if |c| == 0 then None
    else if c[|c| - 1].readTs < ts then Some(|c| - 1)
    else LastBelow(c[..|c| - 1], ts)
  }

  /** Newest first, the first version whose read timestamp is at most `ts`. */
  function LastAtMost(c: seq<Version>, ts: int): (r: Option<nat>)
    ensures r.Some? ==> r.value < |c| && c[r.value].readTs <= ts
    ensures r.Some? ==> forall j | r.value < j < |c| :: c[j].readTs > ts
    ensures r.None? <==> forall j | 0 <= j < |c| :: c[j].readTs > ts
    decreases |c|
  {
    if |c| == 0 then None
    else if c[|c| - 1].readTs <= ts then Some(|c| - 1)
    else LastAtMost(c[..|c| - 1], ts)
  }

  /** The chain after `process_read` by transaction `tnum` with timestamp
      `ts`: the version `LastBelow` picks gets read timestamp `ts` and
      `tnum` as a new dependent; nothing else changes, so no read timestamp
      goes down. */
  function ReadChain(c: seq<Version>, ts: int, tnum: int): (r: seq<Version>)
    ensures |r| == |c|
    ensures forall i | 0 <= i < |c| :: c[i].readTs <= r[i].readTs && r[i].id == c[i].id
    ensures LastBelow(c, ts).None? ==> r == c
    ensures LastBelow(c, ts).Some? ==>
              var k := LastBelow(c, ts).value;
              && r[k] == c[k].(readTs := ts, dependents := c[k].dependents + [tnum])
              && forall i | 0 <= i < |c| && i != k :: r[i] == c[i]
  {
    match LastBelow(c, ts)
    case None => c
    case Some(k) => c[k := c[k].(readTs := ts, dependents := c[k].dependents + [tnum])]
  }

  /** The version `process_write` adds: version, read and write timestamps
      all the writer's timestamp, and the writer as only dependent. */
  function Written(id: nat, name: string, ts: int, tnum: int): Version {
    Version(id, name, ts, ts, ts, [tnum])
  }

  /** `process_write` by transaction `i` on item `name`: it fails exactly
      when every version was read by a younger transaction, and then changes
      nothing; otherwise the version `LastAtMost` picks is overwritten in
      place (nothing to record) when it carries the writer's timestamp, and
      a new version is appended to the chain and to the writer's created
      versions when it does not. */
  function Write(st: State, i: nat, name: string): (r: (bool, State))
    requires i < |st.txns| && name in st.store
    ensures var c := st.store[name];
            !r.0 <==> forall j | 0 <= j < |c| :: st.txns[i].ts < c[j].readTs
    ensures !r.0 ==> r.1 == st
    ensures r.0 ==>
              var c := st.store[name];
              var t := st.txns[i];
              var k := LastAtMost(c, t.ts).value;
              && (c[k].writeTs == t.ts ==> r.1 == st)
              && (c[k].writeTs != t.ts ==>
                    && r.1.store == AddNewVersion(st.store, Written(st.nextId, name, t.ts, t.tnum))
                    && r.1.nextId == st.nextId + 1
                    && r.1.txns == st.txns[i := t.(created := t.created + [Ref(name, st.nextId)])])
    ensures r.1.counter == st.counter && r.1.restarts == st.restarts
  {
    var c := st.store[name];
    var t := st.txns[i];
    match LastAtMost(c, t.ts)
    case None => (false, st)
    case Some(k) =>
      if c[k].writeTs == t.ts then (true, st)
      else
        (true, st.(store := AddNewVersion(st.store, Written(st.nextId, name, t.ts, t.tnum)),
                   nextId := st.nextId + 1,
                   txns := st.txns[i := t.(created := t.created + [Ref(name, st.nextId)])]))
  }

  /** `process(op)`: reads always succeed, commits always succeed and change
      nothing, writes succeed as `Write` says, and any other letter fails
      without a change. A read or write of an unknown item or transaction is
      the KeyError or AttributeError of the source. */
  function Process(st: State, op: Op): (r: Result<(bool, State)>)
    ensures op.kind == 'C' ==> r == Ok((true, st))
    ensures op.kind != 'R' && op.kind != 'W' && op.kind != 'C' ==> r == Ok((false, st))
    ensures (op.kind == 'R' || op.kind == 'W') ==>
              (r.Ok? <==> op.item.Some? && op.item.value in st.store && Find(st.txns, op.tnum).Some?)
    ensures op.kind == 'R' && r.Ok? ==>
              var i := Find(st.txns, op.tnum).value;
              var name := op.item.value;
              && r.value.0
              && r.value.1 == st.(store := st.store[name := ReadChain(st.store[name], st.txns[i].ts, op.tnum)])
    ensures op.kind == 'W' && r.Ok? ==> r.value == Write(st, Find(st.txns, op.tnum).value, op.item.value)
    ensures r.Ok? && !r.value.0 ==> r.value.1 == st
    ensures r.Ok? ==> r.value.1.counter == st.counter && r.value.1.restarts == st.restarts
  {
    if op.kind == 'R' || op.kind == 'W' then
      if op.item.None? then Err(Malformed)
      else if op.item.value !in st.store then Err(MissingKey)
      else
        match Find(st.txns, op.tnum)
        case None => Err(MissingTxn)
        case Some(i) =>
          var name := op.item.value;
          if op.kind == 'R' then
            Ok((true, st.(store := st.store[name := ReadChain(st.store[name], st.txns[i].ts, op.tnum)])))
          else Ok(Write(st, i, name))
    else if op.kind == 'C' then Ok((true, st))
    else Ok((false, st))
  }

  /** The dependents of a created version; a version no longer in its
      chain contributes none (the abort fails on it anyway). */
  function DependentsOf(vc: Store, ref: Ref): seq<int> {
    if ref.name in vc && HasId(vc[ref.name], ref.id) then vc[ref.name][Position(vc[ref.name], ref.id)].dependents
    else []
  }

  /** The dependents of all the versions in `refs`, in order. */
  function DependentsAll(vc: Store, refs: seq<Ref>): seq<int> {
    if refs == [] then [] else DependentsOf(vc, refs[0]) + DependentsAll(vc, refs[1..])
  }

  function Tnums(txns: seq<Txn>): set<int> {
    set i | 0 <= i < |txns| :: txns[i].tnum
  }

  /** The graph `handle_abort` walks: a transaction's successors are the
      dependents of the versions it created. */
  function Graph(st: State): Closure.Graph {
    map t | t in Tnums(st.txns) :: DependentsAll(st.store, st.txns[Find(st.txns, t).value].created)
  }

  /** The store still holds the version `ref` names. */
  predicate Holds(vc: Store, ref: Ref) {
    ref.name in vc && HasId(vc[ref.name], ref.id)
  }

  /** A version that is gone stays gone when versions are only removed. */
  lemma GoneStaysGone(vc: Store, vc': Store, ref: Ref)
    requires !Holds(vc, ref)
    requires vc'.Keys == vc.Keys && forall n, v | n in vc' && v in vc'[n] :: v in vc[n]
    ensures !Holds(vc', ref)
  {
    if ref.name in vc' {
      forall j | 0 <= j < |vc'[ref.name]| ensures vc'[ref.name][j].id != ref.id {
        assert vc'[ref.name][j] in vc[ref.name];
      }
    }
  }

  /** Removing every version of `refs` from its chain, one `versions.remove` each. */
  function RemoveRefs(vc: Store, refs: seq<Ref>): (r: Result<Store>)
    ensures r.Ok? ==> r.value.Keys == vc.Keys
    ensures r.Ok? ==> forall n, v | n in r.value && v in r.value[n] :: v in vc[n]
    ensures r.Ok? && (forall n | n in vc :: Distinct(vc[n])) ==>
              && (forall n | n in r.value :: Distinct(r.value[n]))
              && (forall ref | ref in refs :: !Holds(r.value, ref))
              && (forall n, v | n in vc && v in vc[n] && Ref(n, v.id) !in refs :: v in r.value[n])
    decreases |refs|
  {
    if refs == [] then Ok(vc)
    else
      var ref := refs[0];
      if ref.name !in vc then Err(MissingKey)
      else
        match RemoveId(vc[ref.name], ref.id)
        case Err(f) => Err(f)
        case Ok(c) =>
          var r := RemoveRefs(vc[ref.name := c], refs[1..]);
          assert r.Ok? && (forall n | n in vc :: Distinct(vc[n])) ==> !Holds(r.value, ref) by {
            if r.Ok? && (forall n | n in vc :: Distinct(vc[n])) {
              GoneStaysGone(vc[ref.name := c], r.value, ref);
            }
          }
          assert r.Ok? && (forall n | n in vc :: Distinct(vc[n])) ==>
                   forall n, v | n in vc && v in vc[n] && Ref(n, v.id) !in refs :: v in r.value[n] by {
            if r.Ok? && (forall n | n in vc :: Distinct(vc[n])) {
              var vc1 := vc[ref.name := c];
              forall n, v | n in vc && v in vc[n] && Ref(n, v.id) !in refs ensures v in r.value[n] {
                assert Ref(n, v.id) !in refs[1..];
                if n == ref.name {
                  assert v.id != ref.id;
                }
                assert v in vc1[n];
              }
            }
          }
          r
  }

  /** Some transaction of `ids` created the version `ref`. */
  predicate CreatedByAny(txns: seq<Txn>, ids: seq<int>, ref: Ref) {
    exists i | 0 <= i < |ids| :: Find(txns, ids[i]).Some? && ref in txns[Find(txns, ids[i]).value].created
  }

  /** A version that survives the removals for `ids[0]` and is kept by
      those for the rest of `ids` is kept by the removals for all of `ids`. */
  lemma KeptThroughStep(vc: Store, vc1: Store, rv: Store, txns: seq<Txn>, ids: seq<int>, k: nat)
    requires |ids| > 0 && Find(txns, ids[0]) == Some(k)
    requires vc1.Keys == vc.Keys && rv.Keys == vc.Keys
    requires forall n, v | n in vc && v in vc[n] && Ref(n, v.id) !in txns[k].created :: v in vc1[n]
    requires forall n, v | n in vc1 && v in vc1[n] && !CreatedByAny(txns, ids[1..], Ref(n, v.id)) :: v in rv[n]
    ensures forall n, v | n in vc && v in vc[n] && !CreatedByAny(txns, ids, Ref(n, v.id)) :: v in rv[n]
  {
    forall n, v | n in vc && v in vc[n] && !CreatedByAny(txns, ids, Ref(n, v.id)) ensures v in rv[n] {
      assert Ref(n, v.id) !in txns[k].created;
      assert !CreatedByAny(txns, ids[1..], Ref(n, v.id));
    }
  }

  /** One step of `RemoveAll`: the removals for `ids[0]` (from `vc` to
      `vc1`) followed by those for the rest of `ids` (from `vc1` to `rv`)
      have the effect the removals for all of `ids` promise. */
  lemma RemoveAllStep(vc: Store, vc1: Store, rv: Store, txns: seq<Txn>, ids: seq<int>, k: nat)
    requires |ids| > 0 && Find(txns, ids[0]) == Some(k)
    requires RemoveRefs(vc, txns[k].created) == Ok(vc1)
    requires rv.Keys == vc1.Keys && forall n, v | n in rv && v in rv[n] :: v in vc1[n]
    requires forall i | 0 <= i < |ids[1..]| :: Find(txns, ids[1..][i]).Some?
    requires (forall n | n in vc1 :: Distinct(vc1[n])) ==>
               && (forall n | n in rv :: Distinct(rv[n]))
               && (forall i, ref | 0 <= i < |ids[1..]| && ref in txns[Find(txns, ids[1..][i]).value].created ::
                     !Holds(rv, ref))
               && (forall n, v | n in vc1 && v in vc1[n] && !CreatedByAny(txns, ids[1..], Ref(n, v.id)) :: v in rv[n])
    ensures forall i | 0 <= i < |ids| :: Find(txns, ids[i]).Some?
    ensures (forall n | n in vc :: Distinct(vc[n])) ==>
              && (forall n | n in rv :: Distinct(rv[n]))
              && (forall i, ref | 0 <= i < |ids| && ref in txns[Find(txns, ids[i]).value].created ::
                    !Holds(rv, ref))
              && (forall n, v | n in vc && v in vc[n] && !CreatedByAny(txns, ids, Ref(n, v.id)) :: v in rv[n])
  {
    forall i | 0 <= i < |ids| ensures Find(txns, ids[i]).Some? {
      if i > 0 { assert ids[i] == ids[1..][i - 1]; }
    }
    if forall n | n in vc :: Distinct(vc[n]) {
      forall ref | ref in txns[k].created ensures !Holds(rv, ref) {
        GoneStaysGone(vc1, rv, ref);
      }
      forall i, ref | 0 <= i < |ids| && ref in txns[Find(txns, ids[i]).value].created ensures !Holds(rv, ref) {
        if i > 0 { assert ids[i] == ids[1..][i - 1]; }
      }
      KeptThroughStep(vc, vc1, rv, txns, ids, k);
    }
  }

  /** Removing the created versions of every transaction in `ids`. */
  function RemoveAll(vc: Store, txns: seq<Txn>, ids: seq<int>): (r: Result<Store>)
    ensures r.Ok? ==> r.value.Keys == vc.Keys
    ensures r.Ok? ==> forall n, v | n in r.value && v in r.value[n] :: v in vc[n]
    ensures r.Ok? ==> forall i | 0 <= i < |ids| :: Find(txns, ids[i]).Some?
    ensures r.Ok? && (forall n | n in vc :: Distinct(vc[n])) ==>
              && (forall n | n in r.value :: Distinct(r.value[n]))
              && (forall i, ref | 0 <= i < |ids| && ref in txns[Find(txns, ids[i]).value].created ::
                    !Holds(r.value, ref))
              && (forall n, v | n in vc && v in vc[n] && !CreatedByAny(txns, ids, Ref(n, v.id)) :: v in r.value[n])
    decreases |ids|
  {
    if ids == [] then Ok(vc)
    else
      match Find(txns, ids[0])
      case None => Err(MissingTxn)
      case Some(k) =>
        match RemoveRefs(vc, txns[k].created)
        case Err(f) => Err(f)
        case Ok(vc1) =>
          var r := RemoveAll(vc1, txns, ids[1..]);
          if r.Ok? then
            RemoveAllStep(vc, vc1, r.value, txns, ids, k);
            r
          else r
  }

  /** `handle_abort(t)` with a visited list: the aborted transactions are
      `t` first, then each transaction reachable from it through the
      dependents of created versions, once each; every version any of them
      created leaves the store, and nothing else in the store changes but
      the removal of versions. */
  function Abort(st: State, t: int): (r: Result<(seq<int>, State)>)
    ensures r.Ok? ==> Find(st.txns, t).Some?
    ensures r.Ok? ==> |r.value.0| > 0 && r.value.0[0] == t && NoDup(r.value.0)
    ensures r.Ok? ==> Closure.SuccClosed(Graph(st), Closure.Elems(r.value.0))
    ensures r.Ok? ==> r.value.1 == st.(store := r.value.1.store)
    ensures r.Ok? ==> r.value.1.store.Keys == st.store.Keys
    ensures r.Ok? ==> forall n, v | n in r.value.1.store && v in r.value.1.store[n] :: v in st.store[n]
    ensures r.Ok? ==> forall i | 0 <= i < |r.value.0| :: Find(st.txns, r.value.0[i]).Some?
    ensures r.Ok? && (forall n | n in st.store :: Distinct(st.store[n])) ==>
              forall i, ref | 0 <= i < |r.value.0| && Find(st.txns, r.value.0[i]).Some?
                              && ref in st.txns[Find(st.txns, r.value.0[i]).value].created ::
                !Holds(r.value.1.store, ref)
    ensures r.Ok? && (forall n | n in st.store :: Distinct(st.store[n])) ==>
              forall n, v | n in st.store && v in st.store[n] && !CreatedByAny(st.txns, r.value.0, Ref(n, v.id)) ::
                v in r.value.1.store[n]
  {
    if Find(st.txns, t).None? then Err(MissingTxn)
    else
      var ids := Closure.Reach(Graph(st), t);
      Closure.ReachClosed(Graph(st), t);
      match RemoveAll(st.store, st.txns, ids)
      case Err(f) => Err(f)
      case Ok(vc) => Ok((ids, st.(store := vc)))
  }

  /** Every transaction that is reachable is aborted: `Abort` returns the
      least set closed under the dependents relation that holds `t`. */
  lemma AbortIsLeast(st: State, t: int, s: set<int>)
    requires t in s && Closure.SuccClosed(Graph(st), s)
    ensures Abort(st, t).Ok? ==> Closure.Elems(Abort(st, t).value.0) <= s
  {
    Closure.ReachIsLeast(Graph(st), t, s);
  }

  /** Every aborted transaction after `t` depends on an earlier one. */
  lemma AbortIsReachable(st: State, t: int)
    ensures Abort(st, t).Ok? ==> Closure.Traced(Graph(st), Abort(st, t).value.0)
  {
    Closure.ReachTraced(Graph(st), t);
  }

  /** The restarts so far took strictly increasing timestamps, none above the counter. */
  ghost predicate Stamped(st: State) {
    && (forall i, j | 0 <= i < j < |st.restarts| :: st.restarts[i].ts < st.restarts[j].ts)
    && (forall i | 0 <= i < |st.restarts| :: st.restarts[i].ts <= st.counter)
  }

  /** One restart in the loop of `run_operation`: the counter goes up by one
      and becomes the transaction's timestamp, its created versions are
      forgotten, and the restart is recorded. */
  function RestartTxn(st: State, id: int): (r: Result<State>)
    ensures r.Ok? <==> Find(st.txns, id).Some?
    ensures r.Ok? ==>
              var i := Find(st.txns, id).value;
              && r.value.counter == st.counter + 1
              && r.value.txns == st.txns[i := st.txns[i].(ts := st.counter + 1, created := [])]
              && r.value.restarts == st.restarts + [Restart(id, st.counter + 1)]
              && r.value.store == st.store && r.value.nextId == st.nextId
    ensures r.Ok? && Stamped(st) ==> Stamped(r.value)
  {
    match Find(st.txns, id)
    case None => Err(MissingTxn)
    case Some(i) =>
      var c := st.counter + 1;
      Ok(st.(counter := c,
             txns := st.txns[i := st.txns[i].(ts := c, created := [])],
             restarts := st.restarts + [Restart(id, c)]))
  }

  /** A failed operation and the abort that follows change only the store:
      the counter and the restarts are those before the operation. */
  lemma AbortKeepsStamps(st: State, op: Op, st1: State, ids: seq<int>, st2: State)
    requires Process(st, op) == Ok((false, st1)) && Abort(st1, op.tnum) == Ok((ids, st2))
    ensures st2.counter == st.counter && st2.restarts == st.restarts
    ensures Stamped(st) ==> Stamped(st2)
  {
    assert st1 == st;
    assert st2 == st.(store := st2.store);
  }

  /** `run_operation(op)`: process the operation; when it fails, abort its
      transaction and restart every aborted one. A restart replays operations
      that can fail and restart again, with one unit of `fuel` less. */
  function RunOp(st: State, op: Op, fuel: nat): (r: Result<State>)
    ensures r.Ok? ==> st.counter <= r.value.counter && |st.restarts| <= |r.value.restarts|
    ensures r.Ok? ==> r.value.restarts[..|st.restarts|] == st.restarts
    ensures r.Ok? && Stamped(st) ==> Stamped(r.value)
    decreases fuel, 0, 0
  {
    match Process(st, op)
    case Err(f) => Err(f)
    case Ok((ok, st1)) =>
      if ok then Ok(st1)
      else if fuel == 0 then Err(OutOfFuel)
      else
        match Abort(st1, op.tnum)
        case Err(f) => Err(f)
        case Ok((ids, st2)) =>
          AbortKeepsStamps(st, op, st1, ids, st2);
          RestartAll(st2, ids, fuel - 1)
  }

  /** The loop of `run_operation` over the aborted transactions: each one
      restarts, then replays its operations in their original order. */
  function RestartAll(st: State, ids: seq<int>, fuel: nat): (r: Result<State>)
    ensures r.Ok? ==> st.counter + |ids| <= r.value.counter && |st.restarts| + |ids| <= |r.value.restarts|
    ensures r.Ok? ==> r.value.restarts[..|st.restarts|] == st.restarts
    ensures r.Ok? && Stamped(st) ==> Stamped(r.value)
    decreases fuel, 2, |ids|
  {
    if ids == [] then Ok(st)
    else
      match RestartTxn(st, ids[0])
      case Err(f) => Err(f)
      case Ok(st1) =>
        var i := Find(st.txns, ids[0]).value;
        match RunOps(st1, st1.txns[i].process, fuel)
        case Err(f) => Err(f)
        case Ok(st2) =>
          var r := RestartAll(st2, ids[1..], fuel);
          assert r.Ok? ==> r.value.restarts[..|st.restarts|] == st.restarts by {
            if r.Ok? {
              assert r.value.restarts[..|st1.restarts|] == st1.restarts;
              assert st1.restarts[..|st.restarts|] == st.restarts;
            }
          }
          r
  }

  /** Replaying `ops` in order. */
  function RunOps(st: State, ops: seq<Op>, fuel: nat): (r: Result<State>)
    ensures r.Ok? ==> st.counter <= r.value.counter && |st.restarts| <= |r.value.restarts|
    ensures r.Ok? ==> r.value.restarts[..|st.restarts|] == st.restarts
    ensures r.Ok? && Stamped(st) ==> Stamped(r.value)
    decreases fuel, 1, |ops|
  {
    if ops == [] then Ok(st)
    else
      match RunOp(st, ops[0], fuel)
      case Err(f) => Err(f)
      case Ok(st1) =>
        var r := RunOps(st1, ops[1..], fuel);
        assert r.Ok? ==> r.value.restarts[..|st.restarts|] == st.restarts by {
          if r.Ok? {
            assert r.value.restarts[..|st1.restarts|] == st1.restarts;
            assert st1.restarts[..|st.restarts|] == st.restarts;
          }
        }
        r
  }

  /** The second loop of `run`: `prepare` then `run_operation` for each operation of the log. */
  function RunLog(st: State, ops: seq<Op>, fuel: nat): (r: Result<State>)
    ensures r.Ok? ==> st.counter <= r.value.counter && |st.restarts| <= |r.value.restarts|
    ensures r.Ok? ==> r.value.restarts[..|st.restarts|] == st.restarts
    ensures r.Ok? && Stamped(st) ==> Stamped(r.value)
    decreases |ops|
  {
    if ops == [] then Ok(st)
    else
      var st0 := Prepare(st, ops[0]);
      assert st0.restarts == st.restarts && st.counter <= st0.counter;
      assert Stamped(st) ==> Stamped(st0);
      match RunOp(st0, ops[0], fuel)
      case Err(f) => Err(f)
      case Ok(st1) =>
        var r := RunLog(st1, ops[1..], fuel);
        assert r.Ok? ==> r.value.restarts[..|st.restarts|] == st.restarts by {
          if r.Ok? {
            assert r.value.restarts[..|st1.restarts|] == st1.restarts;
            assert st1.restarts[..|st.restarts|] == st.restarts;
          }
        }
        r
  }

  /** Running a log in two pieces is running it whole. */
  lemma {:induction false} RunLogSplit(st: State, a: seq<Op>, b: seq<Op>, fuel: nat)
    ensures RunLog(st, a + b, fuel) ==
            (match RunLog(st, a, fuel) case Err(f) => Err(f) case Ok(s) => RunLog(s, b, fuel))
    decreases |a|
  {
    if a != [] {
      assert (a + b)[0] == a[0] && (a + b)[1..] == a[1..] + b;
      match RunOp(Prepare(st, a[0]), a[0], fuel)
      case Err(f) =>
      case Ok(st1) => RunLogSplit(st1, a[1..], b, fuel);
    } else {
      assert a + b == b;
    }
  }

  /** `run()` on a parsed log: every restart of the whole run takes a new
      timestamp larger than all earlier ones. */
  function Run(ops: seq<Op>, fuel: nat): (r: Result<State>)
    ensures r.Ok? ==> forall i | 0 <= i < |ops| && ops[i].kind != 'C' :: ops[i].item.Some?
    ensures r.Ok? ==> forall i, j | 0 <= i < j < |r.value.restarts| :: r.value.restarts[i].ts < r.value.restarts[j].ts
  {
    match PrepareItems(Init(), ops)
    case Err(f) => Err(f)
    case Ok(st) => RunLog(st, ops, fuel)
  }
}
