/** The optimistic engine of occ/Occ.py.

    Each operation runs as it arrives: a read or a write only records its
    item in the transaction's read or write set; a commit validates the
    transaction against the others and, when that fails, the transaction
    restarts at once with a fresh start timestamp and replays its operations.
    The validation rule is a parameter: `FirstEarlier` is the code as
    written, `EveryEarlier` the all-transactions test its comment states. */
module Occ {
  import opened Outcomes
  import opened Seqs
  import opened Operations
  import opened Optimistic

  /** `current_timestamp`, the registry in first-seen order, and `local_vars`. */
  datatype State = State(counter: nat, txns: seq<Txn>, locals: seq<string>)

  function Init(): State {
    State(0, [], [])
  }

  ghost predicate Wf(st: State) {
    Registry(st.txns, st.counter)
  }

  /** Every transaction has either validated and finished, or done neither. */
  ghost predicate Settled(st: State) {
    forall i | 0 <= i < |st.txns| :: st.txns[i].validation.Fin? <==> st.txns[i].finish.Fin?
  }

  /** `prepare(op)`: a transaction seen for the first time joins the end of
      the registry with the current counter as its start timestamp, and the
      counter goes up by one; a known one only records the operation. */
  function Prepare(st: State, op: Op): (r: State)
    ensures Find(st.txns, op.tnum).None? ==>
              && r.counter == st.counter + 1
              && |r.txns| == |st.txns| + 1 && r.txns[..|st.txns|] == st.txns
              && var t := r.txns[|st.txns|];
                 && t.tnum == op.tnum && t.start == Fin(st.counter) && t.process == [op]
                 && t.readSet == [] && t.writeSet == [] && t.validation == Inf && t.finish == Inf
    ensures Find(st.txns, op.tnum).Some? ==>
              var i := Find(st.txns, op.tnum).value;
              && r.counter == st.counter && |r.txns| == |st.txns|
              && r.txns[i] == st.txns[i].(process := st.txns[i].process + [op])
              && forall k | 0 <= k < |st.txns| && k != i :: r.txns[k] == st.txns[k]
    ensures r.locals == st.locals
    ensures Wf(st) ==> Wf(r)
    ensures Settled(st) ==> Settled(r)
  {
    match Find(st.txns, op.tnum)
    case None =>
      var t := Fresh(op.tnum).(start := Fin(st.counter), process := [op]);
      State(st.counter + 1, st.txns + [t], st.locals)
    case Some(i) =>
      st.(txns := st.txns[i := st.txns[i].(process := st.txns[i].process + [op])])
  }

  /** `process_validate` and, when it succeeds, `write` and `process_commit`:
      the validation timestamp is the next counter value; a valid
      transaction then finishes two counter steps later. */
  function Validate(st: State, i: nat, rule: Rule): (r: (bool, State))
    requires i < |st.txns|
    ensures var v := st.txns[i].(validation := Fin(st.counter + 1));
            r.0 <==> Decide(rule, st.txns[i := v], v)
    ensures |r.1.txns| == |st.txns| && r.1.locals == st.locals
    ensures forall k | 0 <= k < |st.txns| && k != i :: r.1.txns[k] == st.txns[k]
    ensures r.1.txns[i].validation == Fin(st.counter + 1)
    ensures r.0 ==> r.1.counter == st.counter + 3 && r.1.txns[i].finish == Fin(st.counter + 3)
    ensures !r.0 ==> r.1.counter == st.counter + 1 && r.1.txns[i].finish == st.txns[i].finish
    ensures r.1.txns[i] == st.txns[i].(validation := r.1.txns[i].validation, finish := r.1.txns[i].finish)
    ensures Wf(st) && r.0 ==> r.1.txns[i].start.n < r.1.txns[i].validation.n < r.1.txns[i].finish.n
    ensures Wf(st) && st.txns[i].finish == Inf ==> Wf(r.1)
  {
    var c := st.counter + 1;
    var tj := st.txns[i].(validation := Fin(c));
    if Decide(rule, st.txns[i := tj], tj) then
      (true, st.(counter := c + 2, txns := st.txns[i := tj.(finish := Fin(c + 2))]))
    else
      (false, st.(counter := c, txns := st.txns[i := tj]))
  }

  /** `process(op)`: a read or a temporary write moves the counter on by one
      and adds the item to the read or write set unless it is there already
      (a write also goes to `local_vars`); a commit validates; any other
      letter fails without a change. An unregistered transaction, or a read
      or write without an item, is the AttributeError of the source. */
  function Process(st: State, op: Op, rule: Rule): (r: Result<(bool, State)>)
    ensures r.Err? <==> Find(st.txns, op.tnum).None? || ((op.kind == 'R' || op.kind == 'W') && op.item.None?)
    ensures r.Ok? ==>
              var i := Find(st.txns, op.tnum).value;
              var t := st.txns[i];
              && |r.value.1.txns| == |st.txns|
              && (forall k | 0 <= k < |st.txns| && k != i :: r.value.1.txns[k] == st.txns[k])
              && (op.kind == 'R' ==>
                    && r.value.0 && r.value.1.counter == st.counter + 1 && r.value.1.locals == st.locals
                    && r.value.1.txns[i] == t.(readSet := AddAbsent(t.readSet, op.item.value)))
              && (op.kind == 'W' ==>
                    && r.value.0 && r.value.1.counter == st.counter + 1
                    && r.value.1.locals == st.locals + [op.item.value]
                    && r.value.1.txns[i] == t.(writeSet := AddAbsent(t.writeSet, op.item.value)))
              && (op.kind == 'C' ==> r.value == Validate(st, i, rule))
              && (op.kind != 'R' && op.kind != 'W' && op.kind != 'C' ==> r.value == (false, st))
              && (!r.value.0 ==> r.value.1.txns[i].finish == t.finish)
  {
    match Find(st.txns, op.tnum)
    case None => Err(MissingTxn)
    case Some(i) =>
      var t := st.txns[i];
      if op.kind == 'R' || op.kind == 'W' then
        if op.item.None? then Err(Malformed)
        else
          var item := op.item.value;
          if op.kind == 'R' then
            Ok((true, st.(counter := st.counter + 1, txns := st.txns[i := t.(readSet := AddAbsent(t.readSet, item))])))
          else
            Ok((true, State(st.counter + 1, st.txns[i := t.(writeSet := AddAbsent(t.writeSet, item))], st.locals + [item])))
      else if op.kind == 'C' then Ok(Validate(st, i, rule))
      else Ok((false, st))
  }

  /** A successful operation keeps the registry invariant, and so does a
      failed one on a transaction that had not finished; a successful one
      leaves no transaction validated but unfinished. */
  lemma ProcessKeeps(st: State, op: Op, rule: Rule)
    requires Process(st, op, rule).Ok?
    ensures var r := Process(st, op, rule).value;
            Wf(st) && (r.0 || st.txns[Find(st.txns, op.tnum).value].finish == Inf) ==> Wf(r.1)
    ensures var r := Process(st, op, rule).value;
            r.0 && Settled(st) ==> Settled(r.1)
  {
  }

  /** The restart in `run_operation` of the one transaction `handle_abort`
      returns: the counter goes up by one and becomes the new start, the sets
      are emptied, validation and finish are infinite again, and the recorded
      operations are kept for the replay. */
  function Restart(st: State, id: int): (r: Result<State>)
    ensures r.Ok? <==> Find(st.txns, id).Some?
    ensures r.Ok? ==>
              var i := Find(st.txns, id).value;
              && r.value.counter == st.counter + 1 && |r.value.txns| == |st.txns| && r.value.locals == st.locals
              && r.value.txns[i] == Txn(id, [], [], Fin(r.value.counter), Inf, Inf, st.txns[i].process)
              && forall k | 0 <= k < |st.txns| && k != i :: r.value.txns[k] == st.txns[k]
    ensures r.Ok? && Wf(st) ==> Wf(r.value)
  {
    match Find(st.txns, id)
    case None => Err(MissingTxn)
    case Some(i) =>
      var c := st.counter + 1;
      Ok(st.(counter := c, txns := st.txns[i := Txn(id, [], [], Fin(c), Inf, Inf, st.txns[i].process)]))
  }

  /** Replacing one transaction by a timely one with the same number, while
      the counter only grows, keeps the registry invariant; when the new
      one has validated exactly if it has finished, nothing is left
      validated but unfinished. */
  lemma ReplaceKeeps(st: State, st2: State, i: nat)
    requires Wf(st) && Settled(st) && i < |st.txns| && |st2.txns| == |st.txns| && st.counter <= st2.counter
    requires forall k | 0 <= k < |st.txns| && k != i :: st2.txns[k] == st.txns[k]
    requires st2.txns[i].tnum == st.txns[i].tnum && Timely(st2.txns[i], st2.counter)
    requires st2.txns[i].validation.Fin? <==> st2.txns[i].finish.Fin?
    ensures Wf(st2) && Settled(st2)
  {
    forall k | 0 <= k < |st2.txns| ensures Timely(st2.txns[k], st2.counter) {
      if k != i { assert Timely(st.txns[k], st.counter); }
    }
  }

  /** A failed commit leaves the counter no lower and the transaction's number in place. */
  lemma FailedKeepsNumber(st: State, op: Op, rule: Rule, st1: State)
    requires Process(st, op, rule) == Ok((false, st1))
    ensures var i := Find(st.txns, op.tnum).value;
            && st1.counter >= st.counter && |st1.txns| == |st.txns| && st1.txns[i].tnum == op.tnum
            && Find(st1.txns, op.tnum) == Some(i)
            && forall k | 0 <= k < |st.txns| && k != i :: st1.txns[k] == st.txns[k]
  {
    var i := Find(st.txns, op.tnum).value;
    if op.kind == 'C' {
      assert st1.txns[i] == st.txns[i].(validation := st1.txns[i].validation, finish := st1.txns[i].finish);
    }
    FindAt(st1.txns, op.tnum, i);
  }

  /** A failed operation followed by the restart of its transaction keeps
      the registry invariant and leaves no transaction validated but unfinished. */
  lemma RetryKeeps(st: State, op: Op, rule: Rule, st1: State, st2: State)
    requires Process(st, op, rule) == Ok((false, st1)) && Restart(st1, op.tnum) == Ok(st2)
    ensures Wf(st) && Settled(st) ==> Wf(st2) && Settled(st2)
  {
    if Wf(st) && Settled(st) {
      FailedKeepsNumber(st, op, rule, st1);
      ReplaceKeeps(st, st2, Find(st.txns, op.tnum).value);
    }
  }

  /** `run_operation(op)`: process the operation; when that fails, restart its
      transaction and replay its operations, each of which may fail and
      restart again, with one unit of `fuel` less. */
  function RunOp(st: State, op: Op, rule: Rule, fuel: nat): (r: Result<State>)
    ensures r.Ok? ==> st.counter <= r.value.counter && |r.value.txns| == |st.txns|
    ensures r.Ok? && Wf(st) && Settled(st) ==> Wf(r.value) && Settled(r.value)
    decreases fuel, 0, 0
  {
    match Process(st, op, rule)
    case Err(f) => Err(f)
    case Ok((ok, st1)) =>
      ProcessKeeps(st, op, rule);
      if ok then Ok(st1)
      else if fuel == 0 then Err(OutOfFuel)
      else
        match Restart(st1, op.tnum)
        case Err(f) => Err(f)
        case Ok(st2) =>
          RetryKeeps(st, op, rule, st1, st2);
          var i := Find(st1.txns, op.tnum).value;
          RunOps(st2, st2.txns[i].process, rule, fuel - 1)
  }

  /** The replay loop over `arr_process`. */
  function RunOps(st: State, ops: seq<Op>, rule: Rule, fuel: nat): (r: Result<State>)
    ensures r.Ok? ==> st.counter <= r.value.counter && |r.value.txns| == |st.txns|
    ensures r.Ok? && Wf(st) && Settled(st) ==> Wf(r.value) && Settled(r.value)
    decreases fuel, 1, |ops|
  {
    if ops == [] then Ok(st)
    else
      match RunOp(st, ops[0], rule, fuel)
      case Err(f) => Err(f)
      case Ok(st1) => RunOps(st1, ops[1..], rule, fuel)
  }

  /** The loop of `run`: `prepare` then `run_operation` for each operation. */
  function RunLog(st: State, ops: seq<Op>, rule: Rule, fuel: nat): (r: Result<State>)
    ensures r.Ok? ==> st.counter <= r.value.counter && |st.txns| <= |r.value.txns|
    ensures r.Ok? && Wf(st) && Settled(st) ==> Wf(r.value) && Settled(r.value)
    decreases |ops|
  {
    if ops == [] then Ok(st)
    else
      match RunOp(Prepare(st, ops[0]), ops[0], rule, fuel)
      case Err(f) => Err(f)
      case Ok(st1) => RunLog(st1, ops[1..], rule, fuel)
  }

  /** `run()` on a parsed log: when it completes, the registry invariant
      holds and no transaction is left validated but unfinished. */
  function Run(ops: seq<Op>, rule: Rule, fuel: nat): (r: Result<State>)
    ensures r.Ok? ==> Wf(r.value) && Settled(r.value)
    ensures r.Ok? ==> forall i | 0 <= i < |r.value.txns| && r.value.txns[i].finish.Fin? ::
              r.value.txns[i].start.n < r.value.txns[i].validation.n < r.value.txns[i].finish.n
  {
    RunLog(Init(), ops, rule, fuel)
  }
}
