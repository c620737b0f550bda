/** The rollback loop of occ/main.py as written never ends on the log
    `R1(A);W3(A);C3;C1;C2`.

    T3 commits first after writing A, which T1 read, so T1 fails its
    validation. T1 waits in the queue with a validation timestamp and no
    finish, and that fails T2's validation. In `rollback_all` each of the two
    replays then fails against the other, which is waiting again, and the
    queue returns to `[1, 2]` every two rounds. When a failed transaction
    drops its validation timestamp, the same log ends with all three committed. */
module OccLogFindings {
  import opened Outcomes
  import opened Seqs
  import opened Text
  import opened Operations
  import opened Optimistic
  import opened OccLog

  const R1A := Op('R', 1, Some("A"))
  const W3A := Op('W', 3, Some("A"))
  const C3 := Op('C', 3, None)
  const C1 := Op('C', 1, None)
  const C2 := Op('C', 2, None)

  const Log: seq<Op> := [R1A, W3A, C3, C1, C2]

  /** T3 as it stands once committed. */
  const T3 := Txn(3, [], ["A"], Fin(2), Fin(5), Fin(7), [])

  /** The states of the rollback loop: T1 and T2 both validated and
      unfinished, the queue holding both numbers. */
  function Looping(c: nat, s1: int, v1: int, s2: int, v2: int, queue: seq<int>): State {
    State(c, [Txn(1, ["A"], [], Fin(s1), Fin(v1), Inf, []), T3, Txn(2, [], [], Fin(s2), Fin(v2), Inf, [])],
          ["A"], queue)
  }

  lemma CommandsOfOne()
    ensures Commands(Log, 1) == [R1A, C1]
  {
    assert [C2][1..] == [];
    assert Commands([C2], 1) == [];
    assert [C1, C2][1..] == [C2];
    assert Commands([C1, C2], 1) == [C1];
    assert [C3, C1, C2][1..] == [C1, C2];
    assert [W3A, C3, C1, C2][1..] == [C3, C1, C2];
    assert Commands([W3A, C3, C1, C2], 1) == [C1];
    assert Log[1..] == [W3A, C3, C1, C2];
    assert [R1A] + [C1] == [R1A, C1];
  }

  lemma CommandsOfTwo()
    ensures Commands(Log, 2) == [C2]
  {
    assert [C2][1..] == [];
    assert Commands([C2], 2) == [C2];
    assert [C1, C2][1..] == [C2];
    assert Commands([C1, C2], 2) == [C2];
    assert [C3, C1, C2][1..] == [C1, C2];
    assert Commands([C3, C1, C2], 2) == [C2];
    assert [W3A, C3, C1, C2][1..] == [C3, C1, C2];
    assert Commands([W3A, C3, C1, C2], 2) == [C2];
    assert Log[1..] == [W3A, C3, C1, C2];
  }

  lemma ReplayOneCommand(st: State, a: Op, s1: State, abandon: Abandon)
    requires Act(st, a, abandon) == Ok(s1)
    ensures Replay(st, [a], abandon) == Ok(Tick(s1))
  {
    assert [a][1..] == [];
  }

  lemma ReplayTwoCommands(st: State, a: Op, b: Op, s1: State, s2: State, abandon: Abandon)
    requires Act(st, a, abandon) == Ok(s1) && Act(Tick(s1), b, abandon) == Ok(s2)
    ensures Replay(st, [a, b], abandon) == Ok(Tick(s2))
  {
    assert [a, b][0] == a && [a, b][1..] == [b];
    ReplayOneCommand(Tick(s1), b, s2, abandon);
    assert Replay(st, [a, b], abandon) == Replay(Tick(s1), [b], abandon);
  }

  lemma ReadAfterReset(c: nat, s2: int, v2: int)
    ensures Act(State(c + 1, [Txn(1, [], [], Fin(c + 1), Inf, Inf, []), T3, Txn(2, [], [], Fin(s2), Fin(v2), Inf, [])], ["A"], [2]),
                R1A, KeepStamp) ==
            Ok(State(c + 2, [Txn(1, ["A"], [], Fin(c + 1), Inf, Inf, []), T3, Txn(2, [], [], Fin(s2), Fin(v2), Inf, [])], ["A"], [2]))
  {
    var reset := State(c + 1, [Txn(1, [], [], Fin(c + 1), Inf, Inf, []), T3, Txn(2, [], [], Fin(s2), Fin(v2), Inf, [])], ["A"], [2]);
    FindAt(reset.txns, 1, 0);
    assert AddAbsent([], "A") == ["A"];
    assert reset.txns[0 := reset.txns[0].(readSet := ["A"])] ==
           [Txn(1, ["A"], [], Fin(c + 1), Inf, Inf, []), T3, Txn(2, [], [], Fin(s2), Fin(v2), Inf, [])];
  }

  lemma FirstBlocked(c: nat, s2: int, v2: int)
    requires v2 <= c
    ensures Act(State(c + 3, [Txn(1, ["A"], [], Fin(c + 1), Inf, Inf, []), T3, Txn(2, [], [], Fin(s2), Fin(v2), Inf, [])], ["A"], [2]),
                C1, KeepStamp) ==
            Ok(Looping(c + 4, c + 1, c + 4, s2, v2, [2, 1]))
  {
    var st := State(c + 3, [Txn(1, ["A"], [], Fin(c + 1), Inf, Inf, []), T3, Txn(2, [], [], Fin(s2), Fin(v2), Inf, [])], ["A"], [2]);
    FindAt(st.txns, 1, 0);
    var tj := st.txns[0].(validation := Fin(c + 4));
    var txns := st.txns[0 := tj];
    assert Earlier(txns[2], tj) && txns[2].finish == Inf;
    PendingFails(txns, tj, 2);
    assert txns == Looping(c + 4, c + 1, c + 4, s2, v2, [2, 1]).txns;
    assert [2] + [1] == [2, 1];
  }

  /** Replaying T1 after its reset: the read succeeds, and the commit fails
      against T2, which is waiting with a validation timestamp below T1's. */
  lemma ReplayOne(c: nat, s2: int, v2: int)
    requires v2 <= c
    ensures var reset := State(c + 1, [Txn(1, [], [], Fin(c + 1), Inf, Inf, []), T3, Txn(2, [], [], Fin(s2), Fin(v2), Inf, [])],
                               ["A"], [2]);
            Replay(reset, [R1A, C1], KeepStamp) == Ok(Looping(c + 5, c + 1, c + 4, s2, v2, [2, 1]))
  {
    var reset := State(c + 1, [Txn(1, [], [], Fin(c + 1), Inf, Inf, []), T3, Txn(2, [], [], Fin(s2), Fin(v2), Inf, [])],
                       ["A"], [2]);
    var read := State(c + 2, [Txn(1, ["A"], [], Fin(c + 1), Inf, Inf, []), T3, Txn(2, [], [], Fin(s2), Fin(v2), Inf, [])], ["A"], [2]);
    ReadAfterReset(c, s2, v2);
    FirstBlocked(c, s2, v2);
    ReplayTwoCommands(reset, R1A, C1, read, Looping(c + 4, c + 1, c + 4, s2, v2, [2, 1]), KeepStamp);
  }

  /** Replaying T2 after its reset: its commit fails against T1. */
  lemma ReplayTwo(d: nat, s1: int, v1: int)
    requires v1 <= d
    ensures var reset := State(d + 1, [Txn(1, ["A"], [], Fin(s1), Fin(v1), Inf, []), T3, Txn(2, [], [], Fin(d + 1), Inf, Inf, [])],
                               ["A"], [1]);
            Replay(reset, [C2], KeepStamp) == Ok(Looping(d + 3, s1, v1, d + 1, d + 2, [1, 2]))
  {
    var reset := State(d + 1, [Txn(1, ["A"], [], Fin(s1), Fin(v1), Inf, []), T3, Txn(2, [], [], Fin(d + 1), Inf, Inf, [])],
                       ["A"], [1]);
    FindAt(reset.txns, 2, 2);
    var tj := reset.txns[2].(validation := Fin(d + 2));
    var txns := reset.txns[2 := tj];
    assert Earlier(txns[0], tj) && txns[0].finish == Inf;
    PendingFails(txns, tj, 0);
    assert txns == Looping(d + 2, s1, v1, d + 1, d + 2, [1, 2]).txns;
    assert [1] + [2] == [1, 2];
    assert Act(reset, C2, KeepStamp) == Ok(Looping(d + 2, s1, v1, d + 1, d + 2, [1, 2]));
    ReplayOneCommand(reset, C2, Looping(d + 2, s1, v1, d + 1, d + 2, [1, 2]), KeepStamp);
  }

  lemma RoundOne(c: nat, s1: int, v1: int, s2: int, v2: int, fuel: nat)
    requires v2 <= c
    ensures RollbackAll(Looping(c, s1, v1, s2, v2, [1, 2]), Log, KeepStamp, fuel + 1) ==
            RollbackAll(Looping(c + 6, c + 1, c + 4, s2, v2, [2, 1]), Log, KeepStamp, fuel)
  {
    var st := Looping(c, s1, v1, s2, v2, [1, 2]);
    FindAt(st.txns, 1, 0);
    var reset := State(c + 1, [Txn(1, [], [], Fin(c + 1), Inf, Inf, []), T3, Txn(2, [], [], Fin(s2), Fin(v2), Inf, [])],
                       ["A"], [2]);
    assert st.txns[0 := st.txns[0].(readSet := [], writeSet := [], start := Fin(c + 1), validation := Inf, finish := Inf)] == reset.txns;
    assert Reset(st) == Ok(reset);
    CommandsOfOne();
    ReplayOne(c, s2, v2);
  }

  lemma RoundTwo(d: nat, s1: int, v1: int, s2: int, v2: int, fuel: nat)
    requires v1 <= d
    ensures RollbackAll(Looping(d, s1, v1, s2, v2, [2, 1]), Log, KeepStamp, fuel + 1) ==
            RollbackAll(Looping(d + 4, s1, v1, d + 1, d + 2, [1, 2]), Log, KeepStamp, fuel)
  {
    var st := Looping(d, s1, v1, s2, v2, [2, 1]);
    FindAt(st.txns, 2, 2);
    var reset := State(d + 1, [Txn(1, ["A"], [], Fin(s1), Fin(v1), Inf, []), T3, Txn(2, [], [], Fin(d + 1), Inf, Inf, [])],
                       ["A"], [1]);
    assert st.txns[2 := st.txns[2].(readSet := [], writeSet := [], start := Fin(d + 1), validation := Inf, finish := Inf)] == reset.txns;
    assert Reset(st) == Ok(reset);
    CommandsOfTwo();
    ReplayTwo(d, s1, v1);
  }

  lemma NoFuel(st: State, input: seq<Op>, abandon: Abandon)
    requires st.rollbacks != []
    ensures RollbackAll(st, input, abandon, 0) == Err(OutOfFuel)
  {
  }

  /** From any state of the loop, with the waiting transaction that blocks
      the one at the head of the queue validated before the counter,
      `rollback_all` uses up whatever fuel it is given: the queue is never
      empty. */
  lemma {:induction false} NeverEmpties(c: nat, s1: int, v1: int, s2: int, v2: int, queue: seq<int>, fuel: nat)
    requires (queue == [1, 2] && v2 <= c) || (queue == [2, 1] && v1 <= c)
    ensures RollbackAll(Looping(c, s1, v1, s2, v2, queue), Log, KeepStamp, fuel) == Err(OutOfFuel)
    decreases fuel, 1
  {
    if fuel == 0 {
      NoFuel(Looping(c, s1, v1, s2, v2, queue), Log, KeepStamp);
    } else if queue == [1, 2] {
      NeverEmptiesOne(c, s1, v1, s2, v2, fuel);
    } else {
      NeverEmptiesTwo(c, s1, v1, s2, v2, fuel);
    }
  }

  /** With T1 at the head of the queue. */
  lemma {:induction false} NeverEmptiesOne(c: nat, s1: int, v1: int, s2: int, v2: int, fuel: nat)
    requires v2 <= c && fuel > 0
    ensures RollbackAll(Looping(c, s1, v1, s2, v2, [1, 2]), Log, KeepStamp, fuel) == Err(OutOfFuel)
    decreases fuel, 0
  {
    var f: nat :| fuel == f + 1;
    RoundOne(c, s1, v1, s2, v2, f);
    NeverEmpties(c + 6, c + 1, c + 4, s2, v2, [2, 1], f);
  }

  /** With T2 at the head of the queue. */
  lemma {:induction false} NeverEmptiesTwo(c: nat, s1: int, v1: int, s2: int, v2: int, fuel: nat)
    requires v1 <= c && fuel > 0
    ensures RollbackAll(Looping(c, s1, v1, s2, v2, [2, 1]), Log, KeepStamp, fuel) == Err(OutOfFuel)
    decreases fuel, 0
  {
    var f: nat :| fuel == f + 1;
    RoundTwo(c, s1, v1, s2, v2, f);
    NeverEmpties(c + 4, s1, v1, c + 1, c + 2, [1, 2], f);
  }

  // ------------------------------------------------------ the main loop

  const P2 := State(4, [Txn(1, ["A"], [], Fin(0), Inf, Inf, []), Txn(3, [], ["A"], Fin(2), Inf, Inf, [])], ["A"], [])

  const P1 := State(2, [Txn(1, ["A"], [], Fin(0), Inf, Inf, [])], [], [])

  lemma FirstRead(abandon: Abandon)
    ensures Step(Init(), R1A, abandon) == Ok(P1)
  {
    var e0 := Ensure(Init(), 1);
    assert e0.txns == [Txn(1, [], [], Fin(0), Inf, Inf, [])];
    FindAt(e0.txns, 1, 0);
    assert AddAbsent([], "A") == ["A"];
    assert e0.txns[0 := e0.txns[0].(readSet := ["A"])] == P1.txns;
    assert Act(e0, R1A, abandon) == Ok(P1.(counter := 1));
  }

  lemma ThirdWrites(abandon: Abandon)
    ensures Step(P1, W3A, abandon) == Ok(P2)
  {
    assert Find(P1.txns, 3).None?;
    var e1 := Ensure(P1, 3);
    assert e1.txns == [P1.txns[0], Txn(3, [], [], Fin(2), Inf, Inf, [])];
    FindAt(e1.txns, 3, 1);
    assert e1.txns[1 := e1.txns[1].(writeSet := ["A"])] == P2.txns;
    assert [] + ["A"] == ["A"];
    assert Act(e1, W3A, abandon) == Ok(P2.(counter := 3));
  }

  const P3 := State(8, [Txn(1, ["A"], [], Fin(0), Inf, Inf, []), T3], ["A"], [])

  lemma ThirdCommits(abandon: Abandon)
    ensures Step(P2, C3, abandon) == Ok(P3)
  {
    FindAt(P2.txns, 3, 1);
    var tj := P2.txns[1].(validation := Fin(5));
    var txns := P2.txns[1 := tj];
    assert !Earlier(txns[0], tj);
    assert DecideAll(txns, tj);
    assert P2.txns[1 := tj.(finish := Fin(7))] == P3.txns;
    assert Validate(P2, 1, abandon) == P3.(counter := 7);
  }

  /** T1's commit fails: T3 finished inside T1's window after writing A, which T1 read. */
  lemma FirstFails(abandon: Abandon)
    ensures Step(P3, C1, abandon) ==
            Ok(P3.(counter := 10, txns := P3.txns[0 := P3.txns[0].(validation := if abandon == KeepStamp then Fin(9) else Inf)],
                   rollbacks := [1]))
  {
    FindAt(P3.txns, 1, 0);
    var tj := P3.txns[0].(validation := Fin(9));
    var txns := P3.txns[0 := tj];
    assert Earlier(txns[1], tj);
    assert txns[1].writeSet[0] in tj.readSet;
    assert !Passes(txns[1], tj);
    assert !DecideAll(txns, tj);
    assert [] + [1] == [1];
  }

  /** As written, T2's commit fails against the waiting T1. */
  lemma SecondFailsAsWritten()
    ensures Step(Looping(10, 0, 9, 0, 0, [1]).(txns := Looping(10, 0, 9, 0, 0, [1]).txns[..2]), C2, KeepStamp) ==
            Ok(Looping(12, 0, 9, 10, 11, [1, 2]))
  {
    var st := Looping(10, 0, 9, 0, 0, [1]).(txns := Looping(10, 0, 9, 0, 0, [1]).txns[..2]);
    assert Find(st.txns, 2).None?;
    var e := Ensure(st, 2);
    assert e.txns == [st.txns[0], T3, Txn(2, [], [], Fin(10), Inf, Inf, [])];
    FindAt(e.txns, 2, 2);
    var tj := e.txns[2].(validation := Fin(11));
    var txns := e.txns[2 := tj];
    assert Earlier(txns[0], tj) && txns[0].finish == Inf;
    PendingFails(txns, tj, 0);
    assert txns == Looping(11, 0, 9, 10, 11, [1, 2]).txns;
    assert [1] + [2] == [1, 2];
    assert Validate(e, 2, KeepStamp) == Looping(11, 0, 9, 10, 11, [1, 2]);
  }

  /** One more command in front of a pass. */
  lemma PassPrepend(st: State, s1: State, op: Op, rest: seq<Op>, r: State, abandon: Abandon)
    requires Step(st, op, abandon) == Ok(s1) && Pass(s1, rest, abandon) == Ok(r)
    ensures Pass(st, [op] + rest, abandon) == Ok(r)
  {
    assert ([op] + rest)[1..] == rest;
  }

  /** T1 waiting with its validation timestamp (as written) or without it
      (the correction), before T2 arrives. */
  function Waiting(abandon: Abandon): State {
    P3.(counter := 10, txns := P3.txns[0 := P3.txns[0].(validation := if abandon == KeepStamp then Fin(9) else Inf)],
        rollbacks := [1])
  }

  /** The state `run` hands to `rollback_all`. */
  function Handed(abandon: Abandon): State {
    if abandon == KeepStamp then Looping(12, 0, 9, 10, 11, [1, 2]) else Q5
  }

  lemma SecondCommand(abandon: Abandon)
    ensures Step(Waiting(abandon), C2, abandon) == Ok(Handed(abandon))
  {
    if abandon == KeepStamp {
      assert Waiting(abandon) == Looping(10, 0, 9, 0, 0, [1]).(txns := Looping(10, 0, 9, 0, 0, [1]).txns[..2]);
      SecondFailsAsWritten();
    } else {
      SecondCommitsCleared();
    }
  }

  lemma PassFromFourth(abandon: Abandon)
    ensures Pass(P3, [C1, C2], abandon) == Ok(Handed(abandon))
  {
    SecondCommand(abandon);
    PassPrepend(Waiting(abandon), Handed(abandon), C2, [], Handed(abandon), abandon);
    FirstFails(abandon);
    assert [C2] + [] == [C2];
    PassPrepend(P3, Waiting(abandon), C1, [C2], Handed(abandon), abandon);
    assert [C1] + [C2] == [C1, C2];
  }

  lemma PassFromThird(abandon: Abandon)
    ensures Pass(P2, [C3, C1, C2], abandon) == Ok(Handed(abandon))
  {
    PassFromFourth(abandon);
    ThirdCommits(abandon);
    PassPrepend(P2, P3, C3, [C1, C2], Handed(abandon), abandon);
    assert [C3] + [C1, C2] == [C3, C1, C2];
  }

  lemma PassFromSecond(abandon: Abandon)
    ensures Pass(P1, [W3A, C3, C1, C2], abandon) == Ok(Handed(abandon))
  {
    PassFromThird(abandon);
    ThirdWrites(abandon);
    PassPrepend(P1, P2, W3A, [C3, C1, C2], Handed(abandon), abandon);
    assert [W3A] + [C3, C1, C2] == [W3A, C3, C1, C2];
  }

  /** The main loop of `run` over the log, as written and corrected. */
  lemma PassLog(ops: seq<Op>, abandon: Abandon)
    requires ops == Log
    ensures Pass(Init(), ops, abandon) == Ok(Handed(abandon))
  {
    PassFromSecond(abandon);
    FirstRead(abandon);
    PassPrepend(Init(), P1, R1A, [W3A, C3, C1, C2], Handed(abandon), abandon);
    assert [R1A] + [W3A, C3, C1, C2] == ops;
  }

  /** `run` is the main loop followed by the rollback loop. */
  lemma RunFrom(ops: seq<Op>, abandon: Abandon, fuel: nat, handed: State, r: Result<State>)
    requires Pass(Init(), ops, abandon) == Ok(handed) && RollbackAll(handed, ops, abandon, fuel) == r
    ensures Run(ops, abandon, fuel) == r
  {
  }

  /** On this log, `run` is the rollback loop from the state the main loop hands it. */
  lemma RunLog(abandon: Abandon, fuel: nat, r: Result<State>)
    requires RollbackAll(Handed(abandon), Log, abandon, fuel) == r
    ensures Run(Log, abandon, fuel) == r
  {
    PassLog(Log, abandon);
    RunFrom(Log, abandon, fuel, Handed(abandon), r);
  }

  /** As written, `run` on this log never finishes: whatever fuel the
      rollback loop is given, it runs out. The log is what
      `R1(A);W3(A);C3;C1;C2` parses to. */
  lemma LivelockAsWritten(fuel: nat)
    ensures ParseLog(Join(Lines(Log), ';')) == Ok(Log)
    ensures Run(Log, KeepStamp, fuel) == Err(OutOfFuel)
  {
    ParseLogRender(Log);
    NeverEmpties(12, 0, 9, 10, 11, [1, 2], fuel);
    RunLog(KeepStamp, fuel, Err(OutOfFuel));
  }

  // ------------------------------------------------------ the correction

  /** With the correction T1 waits without a validation timestamp, so T2's
      commit sees only T3, which finished before T2 started. */
  const Q5 := State(14, [Txn(1, ["A"], [], Fin(0), Inf, Inf, []), T3, Txn(2, [], [], Fin(10), Fin(11), Fin(13), [])],
                    ["A"], [1])

  lemma SecondCommitsCleared()
    ensures Step(P3.(counter := 10, txns := P3.txns[0 := P3.txns[0].(validation := Inf)], rollbacks := [1]), C2, ClearStamp) ==
            Ok(Q5)
  {
    var st := P3.(counter := 10, txns := P3.txns[0 := P3.txns[0].(validation := Inf)], rollbacks := [1]);
    assert st.txns == [Txn(1, ["A"], [], Fin(0), Inf, Inf, []), T3];
    assert Find(st.txns, 2).None?;
    var e := Ensure(st, 2);
    assert e.txns == [st.txns[0], T3, Txn(2, [], [], Fin(10), Inf, Inf, [])];
    FindAt(e.txns, 2, 2);
    var tj := e.txns[2].(validation := Fin(11));
    var txns := e.txns[2 := tj];
    assert !Earlier(txns[0], tj) && Earlier(txns[1], tj) && Passes(txns[1], tj);
    assert DecideAll(txns, tj);
    assert e.txns[2 := tj.(finish := Fin(13))] == Q5.txns;
    assert Validate(e, 2, ClearStamp) == Q5.(counter := 13);
  }

  const Done := State(22, [Txn(1, ["A"], [], Fin(15), Fin(18), Fin(20), []), T3, Txn(2, [], [], Fin(10), Fin(11), Fin(13), [])],
                      ["A"], [])

  const Reset15 := State(15, [Txn(1, [], [], Fin(15), Inf, Inf, []), T3, Q5.txns[2]], ["A"], [])
  const Read16 := State(16, [Txn(1, ["A"], [], Fin(15), Inf, Inf, []), T3, Q5.txns[2]], ["A"], [])

  lemma ResetCleared()
    ensures Reset(Q5) == Ok(Reset15)
  {
    FindAt(Q5.txns, 1, 0);
    assert Q5.rollbacks[1..] == [];
    assert Q5.txns[0 := Q5.txns[0].(readSet := [], writeSet := [], start := Fin(15), validation := Inf, finish := Inf)] == Reset15.txns;
  }

  lemma ReadCleared()
    ensures Act(Reset15, R1A, ClearStamp) == Ok(Read16)
  {
    FindAt(Reset15.txns, 1, 0);
    assert AddAbsent([], "A") == ["A"];
    assert Reset15.txns[0 := Reset15.txns[0].(readSet := ["A"])] == Read16.txns;
  }

  lemma FirstCommitsCleared()
    ensures Act(Tick(Read16), C1, ClearStamp) == Ok(Done.(counter := 20))
  {
    var ticked := Tick(Read16);
    FindAt(ticked.txns, 1, 0);
    var tj := ticked.txns[0].(validation := Fin(18));
    var txns := ticked.txns[0 := tj];
    assert Passes(txns[1], tj) && Passes(txns[2], tj);
    assert DecideAll(txns, tj);
    assert ticked.txns[0 := tj.(finish := Fin(20))] == Done.txns;
    assert Validate(ticked, 0, ClearStamp) == Done.(counter := 20);
  }

  /** The one round of the corrected rollback: T1 restarts after T2 and T3
      finished, and commits. */
  lemma RoundCleared(fuel: nat)
    requires fuel > 0
    ensures RollbackAll(Q5, Log, ClearStamp, fuel) == Ok(Done)
  {
    ResetCleared();
    CommandsOfOne();
    ReadCleared();
    FirstCommitsCleared();
    ReplayTwoCommands(Reset15, R1A, C1, Read16, Done.(counter := 20), ClearStamp);
    assert Tick(Done.(counter := 20)) == Done.(counter := 21);
    assert RollbackAll(Q5, Log, ClearStamp, fuel) == RollbackAll(Done, Log, ClearStamp, fuel - 1);
  }

  /** Every transaction has committed. */
  ghost predicate AllFinished(st: State) {
    forall i | 0 <= i < |st.txns| :: st.txns[i].finish.Fin?
  }

  lemma DoneFinished()
    ensures AllFinished(Done)
  {
  }

  /** With the correction the same log completes, given one round of fuel,
      with every transaction committed. */
  lemma ClearedCompletes(fuel: nat)
    requires fuel > 0
    ensures Run(Log, ClearStamp, fuel) == Ok(Done) && AllFinished(Done)
  {
    RoundCleared(fuel);
    RunLog(ClearStamp, fuel, Ok(Done));
    DoneFinished();
  }
}
