/** The validation of occ/Occ.py as written returns at the first earlier
    transaction, while its comment, the textbook test and occ/main.py require
    every earlier transaction to pass.

    On the log `R1(X) W2(A) C1 R2(B) R3(A) C2 C3`, T1 finished before T3
    started, so it passes; T2 finished inside T3's window after writing A,
    which T3 read, so it fails. T1 comes first in the registry, and the code
    as written lets T3 commit. */
module OccFindings {
  import opened Outcomes
  import opened Seqs
  import opened Operations
  import opened Optimistic
  import opened Occ

  const R1X := Op('R', 1, Some("X"))
  const W2A := Op('W', 2, Some("A"))
  const C1 := Op('C', 1, None)
  const R2B := Op('R', 2, Some("B"))
  const R3A := Op('R', 3, Some("A"))
  const C2 := Op('C', 2, None)
  const C3 := Op('C', 3, None)

  const Log: seq<Op> := [R1X, W2A, C1, R2B, R3A, C2, C3]

  /** After `R1(X)` and `W2(A)`. */
  const S2 := State(4,
    [Txn(1, ["X"], [], Fin(0), Inf, Inf, [R1X]), Txn(2, [], ["A"], Fin(2), Inf, Inf, [W2A])],
    ["A"])

  /** After `C1`: T1 validated at 5 and finished at 7. */
  const S3 := State(7,
    [Txn(1, ["X"], [], Fin(0), Fin(5), Fin(7), [R1X, C1]), Txn(2, [], ["A"], Fin(2), Inf, Inf, [W2A])],
    ["A"])

  /** After `R2(B)` and `R3(A)`: T3 started at 8. */
  const S5 := State(10,
    [Txn(1, ["X"], [], Fin(0), Fin(5), Fin(7), [R1X, C1]), Txn(2, ["B"], ["A"], Fin(2), Inf, Inf, [W2A, R2B]),
     Txn(3, ["A"], [], Fin(8), Inf, Inf, [R3A])],
    ["A"])

  /** After `C2`: T2 validated at 11 and finished at 13. */
  const S6 := State(13,
    [Txn(1, ["X"], [], Fin(0), Fin(5), Fin(7), [R1X, C1]), Txn(2, ["B"], ["A"], Fin(2), Fin(11), Fin(13), [W2A, R2B, C2]),
     Txn(3, ["A"], [], Fin(8), Inf, Inf, [R3A])],
    ["A"])

  /** `C3` prepared: T3 is about to validate. */
  const Before := S6.(txns := S6.txns[2 := S6.txns[2].(process := [R3A, C3])])

  lemma FirstTwo(rule: Rule, fuel: nat)
    ensures RunLog(Init(), Log[..2], rule, fuel) == Ok(S2)
  {
    var t1 := Txn(1, [], [], Fin(0), Inf, Inf, [R1X]);
    var p0 := Prepare(Init(), R1X);
    assert p0 == State(1, [t1], []);
    var s1 := State(2, [t1.(readSet := ["X"])], []);
    assert Find(p0.txns, 1) == Some(0);
    assert AddAbsent(t1.readSet, "X") == ["X"];
    assert p0.txns[0 := t1.(readSet := ["X"])] == s1.txns;
    assert Process(p0, R1X, rule) == Ok((true, s1));
    var t2 := Txn(2, [], [], Fin(2), Inf, Inf, [W2A]);
    var p1 := Prepare(s1, W2A);
    assert Find(s1.txns, 2).None?;
    assert p1 == State(3, [s1.txns[0], t2], []);
    assert Find(p1.txns, 2) == Some(1);
    assert AddAbsent(t2.writeSet, "A") == ["A"];
    assert p1.txns[1 := t2.(writeSet := ["A"])] == S2.txns;
    assert Process(p1, W2A, rule) == Ok((true, S2));
    assert Log[..2][0] == R1X && Log[..2][1..] == [W2A];
    assert RunLog(S2, [], rule, fuel) == Ok(S2);
    assert RunLog(s1, [W2A], rule, fuel) == Ok(S2);
  }

  /** No other transaction has validated yet, so `C1` is valid under either rule. */
  lemma FirstCommit(rule: Rule, fuel: nat)
    ensures RunOp(Prepare(S2, C1), C1, rule, fuel) == Ok(S3)
  {
    var p := Prepare(S2, C1);
    assert Find(S2.txns, 1) == Some(0);
    var t1 := S2.txns[0].(process := [R1X, C1]);
    assert S2.txns[0].process + [C1] == [R1X, C1];
    assert p == S2.(txns := [t1, S2.txns[1]]);
    assert Find(p.txns, 1) == Some(0);
    var tj := t1.(validation := Fin(5));
    var txns := [tj, S2.txns[1]];
    assert p.txns[0 := tj] == txns;
    assert !Earlier(txns[1], tj);
    assert DecideAll(txns, tj);
    EveryThenFirst(txns, tj);
    assert Decide(rule, txns, tj);
    assert p.txns[0 := tj.(finish := Fin(7))] == S3.txns;
    assert Validate(p, 0, rule) == (true, S3);
    assert Process(p, C1, rule) == Ok((true, S3));
  }

  /** `R2(B)`: T2 reads B. */
  const S4 := S3.(counter := 8, txns := [S3.txns[0], Txn(2, ["B"], ["A"], Fin(2), Inf, Inf, [W2A, R2B])])

  lemma SecondReads(rule: Rule, fuel: nat)
    ensures RunOp(Prepare(S3, R2B), R2B, rule, fuel) == Ok(S4)
  {
    assert Find(S3.txns, 2) == Some(1);
    var t2 := S3.txns[1].(process := [W2A, R2B]);
    assert S3.txns[1].process + [R2B] == [W2A, R2B];
    var p := Prepare(S3, R2B);
    assert p == S3.(txns := [S3.txns[0], t2]);
    assert Find(p.txns, 2) == Some(1);
    assert AddAbsent(t2.readSet, "B") == ["B"];
    assert p.txns[1 := t2.(readSet := ["B"])] == S4.txns;
    assert Process(p, R2B, rule) == Ok((true, S4));
  }

  lemma ThirdStarts(rule: Rule, fuel: nat)
    ensures RunOp(Prepare(S4, R3A), R3A, rule, fuel) == Ok(S5)
  {
    assert Find(S4.txns, 3).None?;
    var t3 := Txn(3, [], [], Fin(8), Inf, Inf, [R3A]);
    var p := Prepare(S4, R3A);
    assert p == S4.(counter := 9, txns := [S4.txns[0], S4.txns[1], t3]);
    assert Find(p.txns, 3) == Some(2);
    assert AddAbsent(t3.readSet, "A") == ["A"];
    assert p.txns[2 := t3.(readSet := ["A"])] == S5.txns;
    assert Process(p, R3A, rule) == Ok((true, S5));
  }

  /** T1 is the only transaction validated before T2, and it passes, so `C2`
      is valid under either rule. */
  lemma SecondCommit(rule: Rule, fuel: nat)
    ensures RunOp(Prepare(S5, C2), C2, rule, fuel) == Ok(S6)
  {
    var p := Prepare(S5, C2);
    assert Find(S5.txns, 2) == Some(1);
    var t2 := S5.txns[1].(process := [W2A, R2B, C2]);
    assert S5.txns[1].process + [C2] == [W2A, R2B, C2];
    assert p == S5.(txns := [S5.txns[0], t2, S5.txns[2]]);
    assert Find(p.txns, 2) == Some(1);
    var tj := t2.(validation := Fin(11));
    var txns := [S5.txns[0], tj, S5.txns[2]];
    assert p.txns[1 := tj] == txns;
    assert Earlier(txns[0], tj) && !Earlier(txns[2], tj);
    assert !Meets(txns[0].writeSet, tj.readSet);
    assert Passes(txns[0], tj);
    assert DecideAll(txns, tj);
    EveryThenFirst(txns, tj);
    assert Decide(rule, txns, tj);
    assert p.txns[1 := tj.(finish := Fin(13))] == S6.txns;
    assert Validate(p, 1, rule) == (true, S6);
    assert Process(p, C2, rule) == Ok((true, S6));
  }

  /** A log that starts with an operation the loop of `run` completes goes on from it. */
  lemma RunFront(s0: State, s1: State, s2: State, op: Op, rest: seq<Op>, rule: Rule, fuel: nat)
    requires RunOp(Prepare(s0, op), op, rule, fuel) == Ok(s1) && RunLog(s1, rest, rule, fuel) == Ok(s2)
    ensures RunLog(s0, [op] + rest, rule, fuel) == Ok(s2)
  {
    assert ([op] + rest)[0] == op && ([op] + rest)[1..] == rest;
  }

  lemma RunSingle(s0: State, s1: State, op: Op, rule: Rule, fuel: nat)
    requires RunOp(Prepare(s0, op), op, rule, fuel) == Ok(s1)
    ensures RunLog(s0, [op], rule, fuel) == Ok(s1)
  {
    assert [op][1..] == [];
  }

  /** The pieces of the log the run is cut into. */
  lemma LogSlices()
    ensures Log[2..5] == [C1] + ([R2B] + [R3A])
    ensures Log[5..6] == [C2]
  {
  }

  /** Running a log in two pieces is running it whole. */
  lemma {:induction false} RunLogSplit(st: State, a: seq<Op>, b: seq<Op>, rule: Rule, fuel: nat)
    ensures RunLog(st, a + b, rule, fuel) ==
            (match RunLog(st, a, rule, fuel) case Err(f) => Err(f) case Ok(s) => RunLog(s, b, rule, fuel))
    decreases |a|
  {
    if a != [] {
      assert (a + b)[0] == a[0] && (a + b)[1..] == a[1..] + b;
      match RunOp(Prepare(st, a[0]), a[0], rule, fuel)
      case Err(f) =>
      case Ok(st1) => RunLogSplit(st1, a[1..], b, rule, fuel);
    } else {
      assert a + b == b;
    }
  }

  lemma SlicesJoin<T>(s: seq<T>, i: nat, j: nat)
    requires i <= j <= |s|
    ensures s[..i] + s[i..j] == s[..j]
  {
  }

  lemma RunSlices(s0: State, s1: State, s2: State, log: seq<Op>, i: nat, j: nat, rule: Rule, fuel: nat)
    requires i <= j <= |log|
    requires RunLog(s0, log[..i], rule, fuel) == Ok(s1) && RunLog(s1, log[i..j], rule, fuel) == Ok(s2)
    ensures RunLog(s0, log[..j], rule, fuel) == Ok(s2)
  {
    RunLogSplit(s0, log[..i], log[i..j], rule, fuel);
    SlicesJoin(log, i, j);
  }

  lemma MiddleThree(rule: Rule, fuel: nat)
    ensures RunLog(S2, Log[2..5], rule, fuel) == Ok(S5)
  {
    FirstCommit(rule, fuel);
    SecondReads(rule, fuel);
    ThirdStarts(rule, fuel);
    RunSingle(S4, S5, R3A, rule, fuel);
    RunFront(S3, S4, S5, R2B, [R3A], rule, fuel);
    RunFront(S2, S3, S5, C1, [R2B] + [R3A], rule, fuel);
    LogSlices();
  }

  lemma LastBefore(rule: Rule, fuel: nat)
    ensures RunLog(S5, Log[5..6], rule, fuel) == Ok(S6)
  {
    SecondCommit(rule, fuel);
    RunSingle(S5, S6, C2, rule, fuel);
    LogSlices();
  }

  lemma Prepared3()
    ensures Prepare(S6, C3) == Before
  {
    assert Find(S6.txns, 3) == Some(2);
    assert S6.txns[2].process + [C3] == [R3A, C3];
  }

  /** Under either rule, the first six operations and the preparation of
      `C3` lead to `Before`. */
  lemma LogReachesBefore(rule: Rule, fuel: nat)
    ensures RunLog(Init(), Log[..6], rule, fuel) == Ok(S6)
    ensures Prepare(S6, Log[6]) == Before
  {
    FirstTwo(rule, fuel);
    MiddleThree(rule, fuel);
    RunSlices(Init(), S2, S5, Log, 2, 5, rule, fuel);
    LastBefore(rule, fuel);
    RunSlices(Init(), S5, S6, Log, 5, 6, rule, fuel);
    Prepared3();
  }

  /** T3's validation: T1 passes, T2 does not. */
  lemma ThirdValidation()
    ensures var tj := Before.txns[2].(validation := Fin(14));
            var txns := Before.txns[2 := tj];
            && Earlier(txns[0], tj) && Passes(txns[0], tj)
            && Earlier(txns[1], tj) && !Passes(txns[1], tj)
  {
    var tj := Before.txns[2].(validation := Fin(14));
    var txns := Before.txns[2 := tj];
    assert txns[1].writeSet[0] in tj.readSet;
  }

  /** As written, T3 commits (validation 14, finish 16) although T2 wrote
      the item T3 read and finished inside T3's window; with every earlier
      transaction checked, T3 fails and only its validation timestamp moves. */
  lemma FirstDecidesWrongly()
    ensures Process(Before, C3, FirstEarlier) ==
            Ok((true, Before.(counter := 16, txns := Before.txns[2 := Before.txns[2].(validation := Fin(14), finish := Fin(16))])))
    ensures Process(Before, C3, EveryEarlier) ==
            Ok((false, Before.(counter := 14, txns := Before.txns[2 := Before.txns[2].(validation := Fin(14))])))
  {
    assert Find(Before.txns, 3) == Some(2);
    ThirdValidation();
    var tj := Before.txns[2].(validation := Fin(14));
    var txns := Before.txns[2 := tj];
    assert DecideFirst(txns, tj);
    assert !DecideAll(txns, tj);
  }
}
