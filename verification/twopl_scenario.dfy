/** The worked two-phase-locking example: for the log R1(A) W2(A) C1 C2 the
    write of T2 waits behind T1's shared lock, runs in the drain pass that
    follows C1, and the final result is R1(A) C1 W2(A) C2. Each lemma below
    evaluates one step. */
module TwoPhaseLockingScenario {
  import opened Outcomes
  import opened Seqs
  import opened TwoPhaseLocking

  const Log: seq<string> := ["R1(A)", "W2(A)", "C1", "C2"]

  /** The states along the run of `Log`. */
  const Seen1: State := State(map['A' := []], [], [], ['1'])
  const After1: State := State(map['A' := [Lock(Shared, '1')]], [], ["R1(A)"], ['1'])
  const Seen2: State := State(map['A' := [Lock(Shared, '1')]], [], ["R1(A)"], ['1', '2'])
  const After2: State := State(map['A' := [Lock(Shared, '1')]], ["W2(A)"], ["R1(A)"], ['1', '2'])
  const After3: State := State(map['A' := []], ["W2(A)"], ["R1(A)", "C1"], ['1', '2'])
  const Emptied: State := State(map['A' := []], [], ["R1(A)", "C1"], ['1', '2'])
  const Drained: State := State(map['A' := [Lock(Exclusive, '2')]], [], ["R1(A)", "C1", "W2(A)"], ['1', '2'])
  const After4: State := State(map['A' := []], [], ["R1(A)", "C1", "W2(A)", "C2"], ['1', '2'])

  lemma ReadAcquired()
    ensures Acquire(Seen1, false, '1', 'A') == (true, After1.(results := []))
  {
    assert Entries(Seen1.locks, 'A') == [];
    assert Scan(Seen1, false, '1', 'A', []) == (true, Seen1);
    assert Entries(Seen1.locks, 'A') + [Lock(Shared, '1')] == [Lock(Shared, '1')];
    assert Seen1.locks['A' := [Lock(Shared, '1')]] == After1.locks;
    assert Grant(Seen1.locks, false, '1', 'A') == After1.locks;
  }

  lemma ReadExecuted()
    ensures Execute(Seen1, "R1(A)") == Ok((Done, After1))
  {
    ReadAcquired();
    assert Echo("R1(A)") == "R1(A)";
    assert IsAccess("R1(A)") && Letter("R1(A)") != 'W';
    assert After1.(results := []).results + [Echo("R1(A)")] == ["R1(A)"];
  }

  lemma ReadGranted()
    ensures Step(Init(), Done, "R1(A)") == Ok((Done, After1))
  {
    ReadExecuted();
    assert AddAbsent(Init().order, '1') == ['1'];
    assert !Waiting(Init().queue, '1');
    assert Init().locks['A' := []] == Seen1.locks;
    assert Register(Init(), "R1(A)") == Seen1;
  }

  lemma WriteScanned()
    ensures Scan(Seen2, true, '2', 'A', [Lock(Shared, '1')]) == (false, Seen2)
  {
    assert Conflicts(true, '2', Lock(Shared, '1'));
    assert IndexOf(Seen2.order, '1') == 0;
    assert !Older(Seen2.order, '2', '1');
  }

  lemma WriteAcquire()
    ensures Acquire(Seen2, true, '2', 'A') == (false, Seen2)
  {
    WriteScanned();
    assert Entries(Seen2.locks, 'A') == [Lock(Shared, '1')];
  }

  lemma WriteExecuted(cmd: string)
    requires cmd == "W2(A)"
    ensures Execute(Seen2, cmd) == Ok((Refused, Seen2))
  {
    WriteAcquire();
    assert |cmd| == 5 && cmd[1] == '2' && cmd[3] == 'A';
    assert IsAccess(cmd) && Letter(cmd) == 'W';
  }

  lemma WriteRegistered()
    ensures Register(After1, "W2(A)") == Seen2
  {
    assert AddAbsent(After1.order, '2') == ['1', '2'];
    assert IsAccess("W2(A)") && 'A' in After1.locks;
  }

  lemma WriteAdmitted(cmd: string)
    requires cmd == "W2(A)"
    ensures Admit(After1, cmd, Done) == Ok((Refused, After2))
  {
    WriteExecuted(cmd);
    WriteRegistered();
    assert !Waiting(After1.queue, '2');
    assert Seen2.(queue := Seen2.queue + ["W2(A)"]) == After2;
  }

  lemma WriteRefused()
    ensures Step(After1, Done, "W2(A)") == Ok((Refused, After2))
  {
    WriteAdmitted("W2(A)");
  }

  lemma FirstCommit()
    ensures Step(After2, Refused, "C1") == Ok((Released, After3))
  {
    assert !Waiting(After2.queue, '1');
    assert !IsAccess("C1") && Letter("C1") == 'C';
    assert Release(After2.locks, '1') == map['A' := []];
    assert After2.results + [['C', '1']] == After3.results;
    assert After2.(locks := map['A' := []], results := After3.results) == After3;
    assert Execute(After2, "C1") == Ok((Released, After3));
    assert AddAbsent(After2.order, '1') == After2.order;
    assert Admit(After2, "C1", Refused) == Ok((Released, After3));
  }

  lemma QueuedWriteAcquired()
    ensures Acquire(Emptied, true, '2', 'A') == (true, Drained.(results := Emptied.results))
  {
    assert Scan(Emptied, true, '2', 'A', []) == (true, Emptied);
    assert RemoveFirst(Entries(Emptied.locks, 'A'), Lock(Shared, '2')) + [Lock(Exclusive, '2')] == [Lock(Exclusive, '2')];
    assert Emptied.locks['A' := [Lock(Exclusive, '2')]] == Drained.locks;
    assert Grant(Emptied.locks, true, '2', 'A') == Drained.locks;
  }

  lemma QueuedWriteExecuted()
    ensures Execute(Emptied, "W2(A)") == Ok((Done, Drained))
  {
    QueuedWriteAcquired();
    assert Echo("W2(A)") == "W2(A)";
    assert IsAccess("W2(A)") && Letter("W2(A)") == 'W';
    assert Emptied.results + [Echo("W2(A)")] == Drained.results;
  }

  lemma QueueDrained()
    ensures Drain(After3, ["W2(A)"], [], Released) == Ok((Done, Drained))
  {
    QueuedWriteExecuted();
    assert RemoveFirst(After3.queue, "W2(A)") == [];
    assert After3.(queue := []) == Emptied;
    assert Retry(Emptied, "W2(A)", [], Released) == Ok((Done, Drained, []));
  }

  lemma SecondCommit()
    ensures Admit(Drained, "C2", Done) == Ok((Released, After4))
  {
    assert Register(Drained, "C2") == Drained;
    assert !Waiting(Drained.queue, '2');
    assert Release(Drained.locks, '2') == map['A' := []];
    assert Drained.results + [['C', '2']] == After4.results;
    assert Execute(Drained, "C2") == Ok((Released, After4));
  }

  lemma DrainThenCommit()
    ensures Step(After3, Released, "C2") == Ok((Released, After4))
  {
    QueueDrained();
    SecondCommit();
  }

  /** A log that starts with a step the main loop takes goes on from that step. */
  lemma PassPrepend(st: State, c: string, rest: seq<string>, last: Code, code: Code, s1: State, r: State)
    requires Step(st, last, c) == Ok((code, s1)) && Pass(s1, rest, code) == Ok(r)
    ensures Pass(st, [c] + rest, last) == Ok(r)
  {
    assert ([c] + rest)[1..] == rest;
  }

  /** A one-command log is one step. */
  lemma PassLast(st: State, c: string, last: Code, code: Code, r: State)
    requires Step(st, last, c) == Ok((code, r))
    ensures Pass(st, [c], last) == Ok(r)
  {
    assert [c][1..] == [];
  }

  lemma LastTwo(log: seq<string>)
    requires log == ["C1", "C2"]
    ensures Pass(After2, log, Refused) == Ok(After4)
  {
    FirstCommit();
    DrainThenCommit();
    PassLast(After3, "C2", Released, Released, After4);
    PassPrepend(After2, "C1", ["C2"], Refused, Released, After3, After4);
  }

  lemma LastThree(log: seq<string>)
    requires log == ["W2(A)", "C1", "C2"]
    ensures Pass(After1, log, Done) == Ok(After4)
  {
    WriteRefused();
    LastTwo(["C1", "C2"]);
    PassPrepend(After1, "W2(A)", ["C1", "C2"], Done, Refused, After2, After4);
  }

  lemma WholeLog(log: seq<string>)
    requires log == Log
    ensures Pass(Init(), log, Done) == Ok(After4)
  {
    ReadGranted();
    LastThree(["W2(A)", "C1", "C2"]);
    PassPrepend(Init(), "R1(A)", ["W2(A)", "C1", "C2"], Done, Done, After1, After4);
  }

  /** The log runs to completion without a re-run and commits in the order
      R1(A), C1, W2(A), C2. */
  lemma Scenario()
    ensures Run(Log, 0) == Ok(["R1(A)", "C1", "W2(A)", "C2"])
  {
    WholeLog(Log);
  }
}
