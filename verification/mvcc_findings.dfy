/** `handle_abort` of mvcc/Mvcc.py as written, next to the visited-list
    abort of `Mvcc.Abort`.

    As written, the recursion keeps no record of the transactions it has
    already rolled back, and a rolled-back transaction keeps its list of
    created versions. A transaction reached twice, for instance a reader of
    two versions the aborting transaction created, is rolled back twice; the
    second time `versions.remove` meets a version that is already gone and
    raises ValueError. */
module MvccFindings {
  import opened Outcomes
  import opened Seqs
  import opened Operations
  import opened Versions
  import opened Mvcc

  /** `new_aborted`: the ids of `cur` not in `aborted`, in order. */
  function Unseen(cur: seq<int>, aborted: seq<int>): (r: seq<int>)
    ensures forall x | x in r :: x in cur && x !in aborted
    ensures forall x | x in cur && x !in aborted :: x in r
    decreases |cur|
  {
    if cur == [] then []
    else (if cur[0] in aborted then [] else [cur[0]]) + Unseen(cur[1..], aborted)
  }

  /** The store only lost versions: the same labels, and no version that was not there. */
  ghost predicate Shrunk(vc: Store, vc': Store) {
    vc'.Keys == vc.Keys && forall n, v | n in vc' && v in vc'[n] :: v in vc[n]
  }

  /** `handle_abort(t)` as written, with `fuel` bounding the depth of its
      recursion: the ids it returns start with `t`, and the store only loses
      versions. */
  function AbortAsWritten(txns: seq<Txn>, vc: Store, t: int, fuel: nat): (r: Result<(seq<int>, Store)>)
    ensures r.Ok? ==> Find(txns, t).Some?
    ensures r.Ok? ==> |r.value.0| > 0 && r.value.0[0] == t
    ensures r.Ok? ==> Shrunk(vc, r.value.1)
    decreases fuel, 2, 0
  {
    match Find(txns, t)
    case None => Err(MissingTxn)
    case Some(k) => ItemsAsWritten(txns, vc, t, txns[k].created, [t], fuel)
  }

  /** The loop over `trx.created_items`: remove each version from its chain,
      then roll back the readers recorded on it. */
  function ItemsAsWritten(txns: seq<Txn>, vc: Store, t: int, refs: seq<Ref>, aborted: seq<int>, fuel: nat)
    : (r: Result<(seq<int>, Store)>)
    ensures r.Ok? ==> |r.value.0| >= |aborted| && r.value.0[..|aborted|] == aborted
    ensures r.Ok? ==> Shrunk(vc, r.value.1)
    decreases fuel, 1, |refs|
  {
    if refs == [] then Ok((aborted, vc))
    else
      var ref := refs[0];
      if ref.name !in vc then Err(MissingKey)
      else
        match RemoveId(vc[ref.name], ref.id)
        case Err(f) => Err(f)
        case Ok(c) =>
          var deps := DependentsOf(vc, ref);
          match DepsAsWritten(txns, vc[ref.name := c], t, deps, aborted, fuel)
          case Err(f) => Err(f)
          case Ok((ab, vc2)) =>
            var r := ItemsAsWritten(txns, vc2, t, refs[1..], ab, fuel);
            assert r.Ok? ==> r.value.0[..|aborted|] == aborted by {
              if r.Ok? {
                assert r.value.0[..|ab|] == ab;
                assert ab[..|aborted|] == aborted;
              }
            }
            r
  }

  /** The loop over `item.dependents`: every reader other than `t` is rolled
      back recursively, and the ids it returns that are new are appended. */
  function DepsAsWritten(txns: seq<Txn>, vc: Store, t: int, deps: seq<int>, aborted: seq<int>, fuel: nat)
    : (r: Result<(seq<int>, Store)>)
    ensures r.Ok? ==> |r.value.0| >= |aborted| && r.value.0[..|aborted|] == aborted
    ensures r.Ok? ==> Shrunk(vc, r.value.1)
    decreases fuel, 0, |deps|
  {
    if deps == [] then Ok((aborted, vc))
    else if deps[0] == t then DepsAsWritten(txns, vc, t, deps[1..], aborted, fuel)
    else if fuel == 0 then Err(OutOfFuel)
    else
      match AbortAsWritten(txns, vc, deps[0], fuel - 1)
      case Err(f) => Err(f)
      case Ok((cur, vc1)) =>
        var ab := aborted + Unseen(cur, aborted);
        var r := DepsAsWritten(txns, vc1, t, deps[1..], ab, fuel);
        assert r.Ok? ==> r.value.0[..|aborted|] == aborted by {
          if r.Ok? {
            assert r.value.0[..|ab|] == ab;
            assert ab[..|aborted|] == aborted;
          }
        }
        r
  }

  /** The log `W1(X) W1(Y) R2(X) R2(Y) R2(Z) W2(Z) W1(Z)`, parsed. */
  const Log: seq<Op> := [
    Op('W', 1, Some("X")), Op('W', 1, Some("Y")),
    Op('R', 2, Some("X")), Op('R', 2, Some("Y")), Op('R', 2, Some("Z")), Op('W', 2, Some("Z")),
    Op('W', 1, Some("Z"))]

  /** The engine just before `W1(Z)` runs. T1 (timestamp 1) created X#3 and
      Y#4, both read by T2 (timestamp 2); T2 read Z#2 and created Z#5. */
  const Before := State(
    2,
    [Txn(1, 1, [Log[0], Log[1], Log[6]], [Ref("X", 3), Ref("Y", 4)]),
     Txn(2, 2, [Log[2], Log[3], Log[4], Log[5]], [Ref("Z", 5)])],
    map["X" := [Version(0, "X", 0, 0, 0, []), Version(3, "X", 1, 2, 1, [1, 2])],
        "Y" := [Version(1, "Y", 0, 0, 0, []), Version(4, "Y", 1, 2, 1, [1, 2])],
        "Z" := [Version(2, "Z", 0, 2, 0, [2]), Version(5, "Z", 2, 2, 2, [2])]],
    6,
    [])

  /** The store once T1 and T2 are rolled back: the three created versions are gone. */
  const RolledBack: Store :=
    map["X" := [Version(0, "X", 0, 0, 0, [])],
        "Y" := [Version(1, "Y", 0, 0, 0, [])],
        "Z" := [Version(2, "Z", 0, 2, 0, [2])]]

  /** `W1(Z)` fails: both versions of Z were read by T2, which is younger. */
  lemma WriteFails()
    ensures Process(Before, Log[6]) == Ok((false, Before))
  {
    var c := Before.store["Z"];
    assert LastAtMost(c, 1).None? by {
      assert forall j | 0 <= j < |c| :: c[j].readTs > 1;
    }
  }

  /** T2 alone: it removes Z#5 and reaches no one else (its only reader is itself). */
  lemma SecondRolledBack(vc: Store, fuel: nat)
    requires "Z" in vc && vc["Z"] == Before.store["Z"]
    ensures AbortAsWritten(Before.txns, vc, 2, fuel) == Ok(([2], vc["Z" := [Before.store["Z"][0]]]))
  {
    var c := vc["Z"];
    var vc' := vc["Z" := [c[0]]];
    FindAt(Before.txns, 2, 1);
    assert Before.txns[1].created == [Ref("Z", 5)];
    assert Position(c, 5) == 1;
    assert c[..1] + c[2..] == [c[0]];
    assert RemoveId(c, 5) == Ok([c[0]]);
    assert DependentsOf(vc, Ref("Z", 5)) == [2];
    assert DepsAsWritten(Before.txns, vc', 2, [2], [2], fuel) == Ok(([2], vc'));
    assert ItemsAsWritten(Before.txns, vc', 2, [], [2], fuel) == Ok(([2], vc'));
    assert ItemsAsWritten(Before.txns, vc, 2, [Ref("Z", 5)], [2], fuel) == Ok(([2], vc'));
  }

  /** A second visit of T2 meets Z#5 gone. */
  lemma SecondRevisited(vc: Store, fuel: nat)
    requires "Z" in vc && vc["Z"] == [Before.store["Z"][0]]
    ensures AbortAsWritten(Before.txns, vc, 2, fuel) == Err(StaleVersion)
  {
    var c := vc["Z"];
    FindAt(Before.txns, 2, 1);
    assert Before.txns[1].created == [Ref("Z", 5)];
    assert Position(c, 5) == 1;
  }

  /** Through X#3, T1 reaches T2 and rolls it back. */
  /** A last dependent other than the aborting transaction is rolled back,
      and the ids it returns that are new are appended. */
  lemma DepsLast(txns: seq<Txn>, vc: Store, t: int, d: int, aborted: seq<int>, f: nat, cur: seq<int>, vc1: Store)
    requires d != t && AbortAsWritten(txns, vc, d, f) == Ok((cur, vc1))
    ensures DepsAsWritten(txns, vc, t, [d], aborted, f + 1) == Ok((aborted + Unseen(cur, aborted), vc1))
  {
    assert [d][1..] == [];
  }

  /** The aborting transaction is skipped among the dependents. */
  lemma DepsSelf(txns: seq<Txn>, vc: Store, t: int, rest: seq<int>, aborted: seq<int>, fuel: nat)
    ensures DepsAsWritten(txns, vc, t, [t] + rest, aborted, fuel) == DepsAsWritten(txns, vc, t, rest, aborted, fuel)
  {
    assert ([t] + rest)[1..] == rest;
  }

  lemma ReachedThroughX(vc: Store, fuel: nat)
    requires fuel > 0
    requires "Z" in vc && vc["Z"] == Before.store["Z"]
    ensures DepsAsWritten(Before.txns, vc, 1, [1, 2], [1], fuel) == Ok(([1, 2], vc["Z" := [Before.store["Z"][0]]]))
  {
    var vc' := vc["Z" := [Before.store["Z"][0]]];
    var f: nat :| fuel == f + 1;
    SecondRolledBack(vc, f);
    DepsLast(Before.txns, vc, 1, 2, [1], f, [2], vc');
    assert Unseen([2], [1]) == [2];
    assert [1] + [2] == [1, 2];
    DepsSelf(Before.txns, vc, 1, [2], [1], fuel);
  }

  /** Through Y#4, T1 reaches T2 a second time. */
  lemma ReachedThroughY(vc: Store, fuel: nat)
    requires fuel > 0
    requires "Z" in vc && vc["Z"] == [Before.store["Z"][0]]
    ensures DepsAsWritten(Before.txns, vc, 1, [1, 2], [1, 2], fuel) == Err(StaleVersion)
  {
    var f: nat :| fuel == f + 1;
    SecondRevisited(vc, f);
  }

  /** As written, rolling back T1 visits T2 through X#3, then again through
      Y#4, and the second visit fails; with depth 0 it cannot even reach T2. */
  lemma AbortRevisits(fuel: nat)
    ensures AbortAsWritten(Before.txns, Before.store, 1, fuel) == Err(if fuel == 0 then OutOfFuel else StaleVersion)
  {
    var vc := Before.store;
    FindAt(Before.txns, 1, 0);
    assert Before.txns[0].created == [Ref("X", 3), Ref("Y", 4)];
    var x := vc["X"];
    assert Position(x, 3) == 1;
    assert x[..1] + x[2..] == [x[0]];
    assert RemoveId(x, 3) == Ok([x[0]]);
    assert DependentsOf(vc, Ref("X", 3)) == [1, 2];
    var vc1 := vc["X" := [x[0]]];
    if fuel > 0 {
      ReachedThroughX(vc1, fuel);
      var vc2 := vc1["Z" := [vc["Z"][0]]];
      var y := vc2["Y"];
      assert Position(y, 4) == 1;
      assert y[..1] + y[2..] == [y[0]];
      assert RemoveId(y, 4) == Ok([y[0]]);
      assert DependentsOf(vc2, Ref("Y", 4)) == [1, 2];
      var vc3 := vc2["Y" := [y[0]]];
      ReachedThroughY(vc3, fuel);
      assert ItemsAsWritten(Before.txns, vc2, 1, [Ref("Y", 4)], [1, 2], fuel) == Err(StaleVersion);
    }
  }

  /** The graph of a state with two transactions, from their successor lists. */
  lemma GraphOfTwo(st: State, a: int, b: int, ga: seq<int>, gb: seq<int>)
    requires |st.txns| == 2 && st.txns[0].tnum == a && st.txns[1].tnum == b && a != b
    requires DependentsAll(st.store, st.txns[0].created) == ga
    requires DependentsAll(st.store, st.txns[1].created) == gb
    ensures Graph(st) == map[a := ga, b := gb]
  {
    var txns := st.txns;
    assert Tnums(txns) == {a, b} by {
      assert txns[0].tnum == a && txns[1].tnum == b;
    }
    FindAt(txns, a, 0);
    FindAt(txns, b, 1);
  }

  /** The successors of T1 and of T2 in `Before`. */
  lemma BeforeDependents()
    ensures DependentsAll(Before.store, Before.txns[0].created) == [1, 2, 1, 2]
    ensures DependentsAll(Before.store, Before.txns[1].created) == [2]
  {
    var vc := Before.store;
    assert Position(vc["X"], 3) == 1 && Position(vc["Y"], 4) == 1 && Position(vc["Z"], 5) == 1;
    assert DependentsOf(vc, Ref("X", 3)) == [1, 2];
    assert DependentsOf(vc, Ref("Y", 4)) == [1, 2];
    assert DependentsOf(vc, Ref("Z", 5)) == [2];
    assert DependentsAll(vc, [Ref("Y", 4)]) == [1, 2];
  }

  /** The dependents graph of `Before`: T1 reaches T2 (and itself), T2 only itself. */
  lemma BeforeGraph()
    ensures Graph(Before) == map[1 := [1, 2, 1, 2], 2 := [2]]
  {
    BeforeDependents();
    GraphOfTwo(Before, 1, 2, [1, 2, 1, 2], [2]);
  }

  /** Depth-first from T1 in that graph: T1, then T2. */
  lemma SmallReach(g: Closure.Graph)
    requires g == map[1 := [1, 2, 1, 2], 2 := [2]]
    ensures Closure.Reach(g, 1) == [1, 2]
  {
    assert 1 in Closure.Targets(g) && 2 in Closure.Targets(g) by {
      assert g[1][0] == 1 && g[1][1] == 2;
    }
    assert Closure.Succ(g, 2) == [2] && [1] + [2] == [1, 2];
    assert Closure.VisitAll(g, [], [1, 2]) == [1, 2];
    assert Closure.VisitAll(g, [2], [1, 2]) == [1, 2];
    assert Closure.Visit(g, 2, [1]) == [1, 2];
    assert Closure.VisitAll(g, [1, 2], [1, 2]) == [1, 2];
    assert Closure.VisitAll(g, [2, 1, 2], [1]) == [1, 2];
    assert Closure.VisitAll(g, [1, 2, 1, 2], [1]) == [1, 2];
  }

  /** Removing T1's versions X#3 and Y#4. */
  lemma FirstRemoved(vc: Store)
    requires vc.Keys == {"X", "Y", "Z"}
    requires vc["X"] == Before.store["X"] && vc["Y"] == Before.store["Y"]
    ensures RemoveRefs(vc, [Ref("X", 3), Ref("Y", 4)]) == Ok(vc["X" := [vc["X"][0]]]["Y" := [vc["Y"][0]]])
  {
    var x := vc["X"];
    assert Position(x, 3) == 1;
    assert x[..1] + x[2..] == [x[0]];
    var vc1 := vc["X" := [x[0]]];
    var y := vc1["Y"];
    assert Position(y, 4) == 1;
    assert y[..1] + y[2..] == [y[0]];
    var vc2 := vc1["Y" := [y[0]]];
    assert RemoveRefs(vc2, []) == Ok(vc2);
    assert RemoveRefs(vc1, [Ref("Y", 4)]) == Ok(vc2);
  }

  /** Removing T2's version Z#5. */
  lemma SecondRemoved(vc: Store)
    requires "Z" in vc && vc["Z"] == Before.store["Z"]
    ensures RemoveRefs(vc, [Ref("Z", 5)]) == Ok(vc["Z" := [vc["Z"][0]]])
  {
    var z := vc["Z"];
    assert Position(z, 5) == 1;
    assert z[..1] + z[2..] == [z[0]];
    assert RemoveRefs(vc["Z" := [z[0]]], []) == Ok(vc["Z" := [z[0]]]);
  }

  /** Removing the versions of T1, then those of T2. */
  lemma BothRemoved(vc: Store, txns: seq<Txn>)
    requires vc.Keys == {"X", "Y", "Z"}
    requires vc["X"] == Before.store["X"] && vc["Y"] == Before.store["Y"] && vc["Z"] == Before.store["Z"]
    requires Find(txns, 1) == Some(0) && Find(txns, 2) == Some(1)
    requires txns[0].created == [Ref("X", 3), Ref("Y", 4)] && txns[1].created == [Ref("Z", 5)]
    ensures RemoveAll(vc, txns, [1, 2]) == Ok(vc["X" := [vc["X"][0]]]["Y" := [vc["Y"][0]]]["Z" := [vc["Z"][0]]])
  {
    FirstRemoved(vc);
    var vc2 := vc["X" := [vc["X"][0]]]["Y" := [vc["Y"][0]]];
    SecondRemoved(vc2);
    var vc3 := vc2["Z" := [vc2["Z"][0]]];
    assert RemoveAll(vc3, txns, []) == Ok(vc3);
    assert RemoveAll(vc2, txns, [2]) == Ok(vc3);
  }

  lemma BeforeFound()
    ensures Find(Before.txns, 1) == Some(0) && Find(Before.txns, 2) == Some(1)
  {
    var txns := Before.txns;
    assert txns[0].tnum == 1 && txns[1].tnum == 2;
    assert txns[1..][0].tnum == 2;
  }

  lemma BeforeStripped()
    ensures var vc := Before.store;
            vc["X" := [vc["X"][0]]]["Y" := [vc["Y"][0]]]["Z" := [vc["Z"][0]]] == RolledBack
  {
  }

  /** Removing the versions T1 and T2 created. */
  lemma BeforeRemoved()
    ensures RemoveAll(Before.store, Before.txns, [1, 2]) == Ok(RolledBack)
  {
    BeforeFound();
    BothRemoved(Before.store, Before.txns);
    BeforeStripped();
  }

  /** With a visited list, the same abort succeeds: T1 and T2 are rolled
      back once each, and exactly the three versions they created leave the store. */
  lemma AbortCascades()
    ensures Abort(Before, 1) == Ok(([1, 2], Before.(store := RolledBack)))
  {
    FindAt(Before.txns, 1, 0);
    BeforeGraph();
    SmallReach(Graph(Before));
    BeforeRemoved();
  }

  /** The chains after `prepare_item` over the log: one fresh version per item. */
  const X0 := Version(0, "X", 0, 0, 0, [])
  const Y0 := Version(1, "Y", 0, 0, 0, [])
  const Z0 := Version(2, "Z", 0, 0, 0, [])

  /** The versions T1 writes, then the same versions once T2 has read them. */
  const X3 := Version(3, "X", 1, 1, 1, [1])
  const Y4 := Version(4, "Y", 1, 1, 1, [1])
  const X3Read := Version(3, "X", 1, 2, 1, [1, 2])
  const Y4Read := Version(4, "Y", 1, 2, 1, [1, 2])
  const Z0Read := Version(2, "Z", 0, 2, 0, [2])

  const T1 := Txn(1, 1, [Log[0], Log[1]], [Ref("X", 3), Ref("Y", 4)])

  const Prepared := State(0, [], map["X" := [X0], "Y" := [Y0], "Z" := [Z0]], 3, [])

  /** After `W1(X)`. */
  const WroteX := State(1, [Txn(1, 1, [Log[0]], [Ref("X", 3)])], map["X" := [X0, X3], "Y" := [Y0], "Z" := [Z0]], 4, [])

  /** After `W1(Y)`: T1 (timestamp 1) created X#3 and Y#4. */
  const Wrote1 := State(1, [T1], map["X" := [X0, X3], "Y" := [Y0, Y4], "Z" := [Z0]], 5, [])

  /** After `R2(X)` and after `R2(Y)`. */
  const ReadX := State(2, [T1, Txn(2, 2, [Log[2]], [])], map["X" := [X0, X3Read], "Y" := [Y0, Y4], "Z" := [Z0]], 5, [])
  const ReadY := State(2, [T1, Txn(2, 2, [Log[2], Log[3]], [])], map["X" := [X0, X3Read], "Y" := [Y0, Y4Read], "Z" := [Z0]], 5, [])

  /** After `R2(Z)`: T2 (timestamp 2) read the newest version of each item. */
  const Read2 := State(2, [T1, Txn(2, 2, [Log[2], Log[3], Log[4]], [])],
                       map["X" := [X0, X3Read], "Y" := [Y0, Y4Read], "Z" := [Z0Read]], 5, [])

  /** After `W2(Z)`: T2 created Z#5. */
  const Wrote2 := State(2, [T1, Txn(2, 2, [Log[2], Log[3], Log[4], Log[5]], [Ref("Z", 5)])], Before.store, 6, [])

  lemma LogPrepared()
    ensures PrepareItems(Init(), Log) == Ok(Prepared)
  {
    var s1 := Init().(store := map["X" := [X0]], nextId := 1);
    var s2 := s1.(store := map["X" := [X0], "Y" := [Y0]], nextId := 2);
    assert PrepareItem(Init(), Log[0]) == Ok(s1);
    assert PrepareItem(s1, Log[1]) == Ok(s2);
    assert PrepareItems(Prepared, Log[6..]) == Ok(Prepared);
    assert PrepareItems(Prepared, Log[5..]) == Ok(Prepared);
    assert PrepareItems(Prepared, Log[4..]) == Ok(Prepared);
    assert PrepareItems(s2, Log[4..]) == Ok(Prepared);
    assert PrepareItems(s2, Log[3..]) == Ok(Prepared);
    assert PrepareItems(s2, Log[2..]) == Ok(Prepared);
    assert PrepareItems(s1, Log[1..]) == Ok(Prepared);
  }

  /** A read that finds a version below the reader's timestamp marks it and
      changes nothing else. */
  lemma ReadStep(st: State, op: Op, i: nat, k: nat, fuel: nat)
    requires op.kind == 'R' && op.item.Some? && op.item.value in st.store
    requires Find(st.txns, op.tnum) == Some(i)
    requires LastBelow(st.store[op.item.value], st.txns[i].ts) == Some(k)
    ensures var c := st.store[op.item.value];
            RunOp(st, op, fuel)
            == Ok(st.(store := st.store[op.item.value := c[k := c[k].(readTs := st.txns[i].ts, dependents := c[k].dependents + [op.tnum])]]))
  {
  }

  /** A write whose chosen version carries another timestamp appends a new
      version to the chain and to the writer's created versions. */
  lemma WriteStep(st: State, op: Op, i: nat, k: nat, fuel: nat)
    requires op.kind == 'W' && op.item.Some? && op.item.value in st.store
    requires Find(st.txns, op.tnum) == Some(i)
    requires LastAtMost(st.store[op.item.value], st.txns[i].ts) == Some(k)
    requires st.store[op.item.value][k].writeTs != st.txns[i].ts
    ensures var name := op.item.value;
            var t := st.txns[i];
            RunOp(st, op, fuel)
            == Ok(st.(store := st.store[name := st.store[name] + [Written(st.nextId, name, t.ts, t.tnum)]],
                      nextId := st.nextId + 1,
                      txns := st.txns[i := t.(created := t.created + [Ref(name, st.nextId)])]))
  {
    var name := op.item.value;
    var v := Written(st.nextId, name, st.txns[i].ts, st.txns[i].tnum);
    assert AddNewVersion(st.store, v) == st.store[name := st.store[name] + [v]];
  }

  /** A log that starts with an operation the loop of `run` completes goes on from it. */
  lemma RunCons(s0: State, s1: State, s2: State, op: Op, rest: seq<Op>, fuel: nat)
    requires RunOp(Prepare(s0, op), op, fuel) == Ok(s1) && RunLog(s1, rest, fuel) == Ok(s2)
    ensures RunLog(s0, [op] + rest, fuel) == Ok(s2)
  {
    assert ([op] + rest)[0] == op && ([op] + rest)[1..] == rest;
  }

  lemma RunSingle(s0: State, s1: State, op: Op, fuel: nat)
    requires RunOp(Prepare(s0, op), op, fuel) == Ok(s1)
    ensures RunLog(s0, [op], fuel) == Ok(s1)
  {
    assert [op][1..] == [];
  }

  /** The pieces of the log the run is cut into. */
  lemma LogSlices()
    ensures Log[..2] == [Log[0]] + [Log[1]]
    ensures Log[2..5] == [Log[2]] + ([Log[3]] + [Log[4]])
    ensures Log[5..6] == [Log[5]]
  {
  }

  lemma WriteX(st: State, op: Op, fuel: nat)
    requires st == Prepared && op == Log[0]
    ensures RunOp(Prepare(st, op), op, fuel) == Ok(WroteX)
  {
    var p := Prepare(st, op);
    assert p == st.(counter := 1, txns := [Txn(1, 1, [op], [])]);
    FindAt(p.txns, 1, 0);
    assert LastAtMost([X0], 1) == Some(0);
    WriteStep(p, op, 0, 0, fuel);
    assert [X0] + [Written(3, "X", 1, 1)] == [X0, X3];
    assert p.store["X" := [X0, X3]] == WroteX.store;
    assert [] + [Ref("X", 3)] == [Ref("X", 3)];
    assert p.txns[0 := p.txns[0].(created := [Ref("X", 3)])] == WroteX.txns;
  }

  lemma WriteY(st: State, op: Op, fuel: nat)
    requires st == WroteX && op == Log[1]
    ensures RunOp(Prepare(st, op), op, fuel) == Ok(Wrote1)
  {
    FindAt(st.txns, 1, 0);
    var p := Prepare(st, op);
    assert [Log[0]] + [op] == [Log[0], Log[1]];
    assert p == st.(txns := [Txn(1, 1, [Log[0], Log[1]], [Ref("X", 3)])]);
    FindAt(p.txns, 1, 0);
    assert LastAtMost([Y0], 1) == Some(0);
    WriteStep(p, op, 0, 0, fuel);
    assert [Y0] + [Written(4, "Y", 1, 1)] == [Y0, Y4];
    assert p.store["Y" := [Y0, Y4]] == Wrote1.store;
    assert [Ref("X", 3)] + [Ref("Y", 4)] == [Ref("X", 3), Ref("Y", 4)];
    assert p.txns[0 := p.txns[0].(created := [Ref("X", 3), Ref("Y", 4)])] == Wrote1.txns;
  }

  lemma FirstWrites(fuel: nat)
    ensures RunLog(Prepared, Log[..2], fuel) == Ok(Wrote1)
  {
    WriteX(Prepared, Log[0], fuel);
    WriteY(WroteX, Log[1], fuel);
    RunSingle(WroteX, Wrote1, Log[1], fuel);
    RunCons(Prepared, WroteX, Wrote1, Log[0], [Log[1]], fuel);
    LogSlices();
  }

  lemma ReadsX(st: State, op: Op, fuel: nat)
    requires st == Wrote1 && op == Log[2]
    ensures RunOp(Prepare(st, op), op, fuel) == Ok(ReadX)
  {
    assert Find(st.txns, 2).None?;
    var p := Prepare(st, op);
    assert p == st.(counter := 2, txns := [T1, Txn(2, 2, [op], [])]);
    FindAt(p.txns, 2, 1);
    assert LastBelow([X0, X3], 2) == Some(1);
    ReadStep(p, op, 1, 1, fuel);
    assert [1] + [2] == [1, 2];
    assert [X0, X3][1 := X3Read] == [X0, X3Read];
    assert p.store["X" := [X0, X3Read]] == ReadX.store;
  }

  lemma ReadsY(st: State, op: Op, fuel: nat)
    requires st == ReadX && op == Log[3]
    ensures RunOp(Prepare(st, op), op, fuel) == Ok(ReadY)
  {
    FindAt(st.txns, 2, 1);
    var p := Prepare(st, op);
    assert [Log[2]] + [op] == [Log[2], Log[3]];
    assert p == st.(txns := [T1, Txn(2, 2, [Log[2], Log[3]], [])]);
    FindAt(p.txns, 2, 1);
    assert LastBelow([Y0, Y4], 2) == Some(1);
    ReadStep(p, op, 1, 1, fuel);
    assert [1] + [2] == [1, 2];
    assert [Y0, Y4][1 := Y4Read] == [Y0, Y4Read];
    assert p.store["Y" := [Y0, Y4Read]] == ReadY.store;
  }

  lemma ReadsZ(st: State, op: Op, fuel: nat)
    requires st == ReadY && op == Log[4]
    ensures RunOp(Prepare(st, op), op, fuel) == Ok(Read2)
  {
    FindAt(st.txns, 2, 1);
    var p := Prepare(st, op);
    assert [Log[2], Log[3]] + [op] == [Log[2], Log[3], Log[4]];
    assert p == st.(txns := Read2.txns);
    FindAt(p.txns, 2, 1);
    assert LastBelow([Z0], 2) == Some(0);
    ReadStep(p, op, 1, 0, fuel);
    assert [] + [2] == [2];
    assert [Z0][0 := Z0Read] == [Z0Read];
    assert p.store["Z" := [Z0Read]] == Read2.store;
  }

  lemma SecondReads(fuel: nat)
    ensures RunLog(Wrote1, Log[2..5], fuel) == Ok(Read2)
  {
    ReadsX(Wrote1, Log[2], fuel);
    ReadsY(ReadX, Log[3], fuel);
    ReadsZ(ReadY, Log[4], fuel);
    RunSingle(ReadY, Read2, Log[4], fuel);
    RunCons(ReadX, ReadY, Read2, Log[3], [Log[4]], fuel);
    RunCons(Wrote1, ReadX, Read2, Log[2], [Log[3]] + [Log[4]], fuel);
    LogSlices();
  }

  lemma WritesZ(st: State, op: Op, fuel: nat)
    requires st == Read2 && op == Log[5]
    ensures RunOp(Prepare(st, op), op, fuel) == Ok(Wrote2)
  {
    FindAt(st.txns, 2, 1);
    var p := Prepare(st, op);
    assert [Log[2], Log[3], Log[4]] + [op] == [Log[2], Log[3], Log[4], Log[5]];
    assert p == st.(txns := [T1, Txn(2, 2, [Log[2], Log[3], Log[4], Log[5]], [])]);
    FindAt(p.txns, 2, 1);
    assert LastAtMost([Z0Read], 2) == Some(0);
    WriteStep(p, op, 1, 0, fuel);
    assert [] + [Ref("Z", 5)] == [Ref("Z", 5)];
    assert [Z0Read] + [Written(5, "Z", 2, 2)] == Before.store["Z"];
    assert p.store["Z" := Before.store["Z"]] == Wrote2.store;
    assert p.txns[1 := p.txns[1].(created := [Ref("Z", 5)])] == Wrote2.txns;
  }

  lemma SecondWrite(fuel: nat)
    ensures RunLog(Read2, Log[5..6], fuel) == Ok(Wrote2)
  {
    WritesZ(Read2, Log[5], fuel);
    RunSingle(Read2, Wrote2, Log[5], fuel);
    LogSlices();
  }

  /** The runs of two pieces of a log make the run of the whole. */
  lemma RunThen(s0: State, s1: State, s2: State, a: seq<Op>, b: seq<Op>, fuel: nat)
    requires RunLog(s0, a, fuel) == Ok(s1) && RunLog(s1, b, fuel) == Ok(s2)
    ensures RunLog(s0, a + b, fuel) == Ok(s2)
  {
    RunLogSplit(s0, a, b, fuel);
  }

  lemma SlicesJoin<T>(s: seq<T>, i: nat, j: nat)
    requires i <= j <= |s|
    ensures s[..i] + s[i..j] == s[..j]
  {
  }

  lemma RunSlices(s0: State, s1: State, s2: State, log: seq<Op>, i: nat, j: nat, fuel: nat)
    requires i <= j <= |log|
    requires RunLog(s0, log[..i], fuel) == Ok(s1) && RunLog(s1, log[i..j], fuel) == Ok(s2)
    ensures RunLog(s0, log[..j], fuel) == Ok(s2)
  {
    var a, b := log[..i], log[i..j];
    RunThen(s0, s1, s2, a, b, fuel);
    SlicesJoin(log, i, j);
  }

  lemma LastPrepared()
    ensures Prepare(Wrote2, Log[6]) == Before
  {
    FindAt(Wrote2.txns, 1, 0);
    assert [Log[0], Log[1]] + [Log[6]] == [Log[0], Log[1], Log[6]];
  }

  /** Running the log up to `W2(Z)`, then preparing `W1(Z)`, gives `Before`. */
  lemma LogReachesBefore(fuel: nat)
    ensures PrepareItems(Init(), Log) == Ok(Prepared)
    ensures RunLog(Prepared, Log[..6], fuel) == Ok(Wrote2)
    ensures Prepare(Wrote2, Log[6]) == Before
  {
    LogPrepared();
    LastPrepared();
    RunToSecondWrite(fuel);
  }

  lemma RunToSecondWrite(fuel: nat)
    ensures RunLog(Prepared, Log[..6], fuel) == Ok(Wrote2)
  {
    RunToReads(fuel);
    SecondWrite(fuel);
    RunSlices(Prepared, Read2, Wrote2, Log, 5, 6, fuel);
  }

  lemma RunToReads(fuel: nat)
    ensures RunLog(Prepared, Log[..5], fuel) == Ok(Read2)
  {
    FirstWrites(fuel);
    SecondReads(fuel);
    RunSlices(Prepared, Wrote1, Read2, Log, 2, 5, fuel);
  }
}
