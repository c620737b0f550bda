/** The older optimistic engine, occ/main.py.

    It parses the whole log first (`;`-separated, spaces removed). The run
    then keeps one registry keyed by transaction number in first-seen order.
    A failed validation does not restart the transaction. Its number joins
    `rolledback_transaction_nums`, and the transaction keeps its validation
    timestamp until `rollback_all`, after the whole log, takes the queue in
    order. For each queued number it resets that transaction and replays
    every command of that number from the log.

    The handling of a failed validation is a parameter: `KeepStamp` is the
    code as written, `ClearStamp` the correction that drops a failed
    transaction's validation timestamp, as occ/Occ.py does on its restart. */
module OccLog {
  import opened Outcomes
  import opened Seqs
  import opened Text
  import opened Operations
  import opened Optimistic

  // ---------------------------------------------------------------- parsing

  /** What one command yields: an operation, or the `break` out of the
      parse loop (an unknown letter, or `(` after `)`). */
  datatype Parsed = Stop | Command(op: Op)

  /** One command of `parse_transactions`. Python raises on an empty command
      (`command[0]`) and on a number `int()` rejects; both are `Malformed`.
      The letter is compared after `str.upper`, and the parsed operation
      carries the upper-case letter. */
  function ParseCommand(c: string): (r: Result<Parsed>)
    ensures |c| == 0 ==> r == Err(Malformed)
    ensures r.Ok? && r.value.Command? ==>
              var op := r.value.op;
              && |c| > 0 && op.kind == Upper(c[0])
              && (op.kind == 'R' || op.kind == 'W' || op.kind == 'C')
              && (op.item.Some? <==> op.kind != 'C')
    ensures |c| > 0 && Upper(c[0]) != 'R' && Upper(c[0]) != 'W' && Upper(c[0]) != 'C' ==> r == Ok(Stop)
    ensures |c| > 0 && (Upper(c[0]) == 'R' || Upper(c[0]) == 'W') && !('(' in c && ')' in c) ==> r == Ok(Stop)
    ensures |c| > 0 && (Upper(c[0]) == 'R' || Upper(c[0]) == 'W') && '(' in c && ')' in c ==>
              var o := IndexOf(c, '(');
              var cl := IndexOf(c, ')');
              && (o > cl ==> r == Ok(Stop))
              && (o <= cl ==> (r.Ok? <==> ParseInt(c[1..o]).Some?))
              && (o <= cl && r.Ok? ==> r.value == Command(Op(Upper(c[0]), ParseInt(c[1..o]).value, Some(c[o + 1..cl]))))
    ensures |c| > 0 && Upper(c[0]) == 'C' ==>
              && (r.Ok? <==> ParseInt(c[1..]).Some?)
              && (r.Ok? ==> r.value == Command(Op('C', ParseInt(c[1..]).value, None)))
  {
    if |c| == 0 then Err(Malformed)
    else
      var k := Upper(c[0]);
      if (k == 'R' || k == 'W') && '(' in c && ')' in c then
        var o := IndexOf(c, '(');
        var cl := IndexOf(c, ')');
        if o > cl then Ok(Stop)
        else
          match ParseInt(c[1..o])
          case None => Err(Malformed)
          case Some(n) => Ok(Command(Op(k, n, Some(c[o + 1..cl]))))
      else if k == 'C' then
        match ParseInt(c[1..])
        case None => Err(Malformed)
        case Some(n) => Ok(Command(Op('C', n, None)))
      else Ok(Stop)
  }

  /** The loop of `parse_transactions`: parse commands in order until one
      breaks the loop; the commands parsed so far are kept. */
  function ParseCommands(cmds: seq<string>): (r: Result<seq<Op>>)
    ensures r.Ok? ==> |r.value| <= |cmds|
    ensures r.Ok? ==> forall i | 0 <= i < |r.value| :: ParseCommand(cmds[i]) == Ok(Command(r.value[i]))
    ensures r.Ok? && |r.value| < |cmds| ==> ParseCommand(cmds[|r.value|]) == Ok(Stop)
    ensures r.Err? ==> exists i | 0 <= i < |cmds| :: ParseCommand(cmds[i]).Err?
  {
    if cmds == [] then Ok([])
    else
      match ParseCommand(cmds[0])
      case Err(f) => Err(f)
      case Ok(Stop) => Ok([])
      case Ok(Command(op)) =>
        match ParseCommands(cmds[1..])
        case Err(f) =>
          assert exists i | 0 <= i < |cmds| :: ParseCommand(cmds[i]).Err? by {
            var i :| 0 <= i < |cmds[1..]| && ParseCommand(cmds[1..][i]).Err?;
            assert cmds[i + 1] == cmds[1..][i];
          }
          Err(f)
        case Ok(rest) =>
          assert forall i | 1 <= i < |cmds| :: cmds[i] == cmds[1..][i - 1];
          Ok([op] + rest)
  }

  /** `transactions_string.replace(' ', '').split(';')`, then the loop. */
  function ParseLog(text: string): Result<seq<Op>> {
    ParseCommands(Split(RemoveSpaces(text), ';'))
  }

  /** An operation the log syntax can carry (given a non-negative number):
      a read or write of a named item, or a commit without one; the item
      holds no parenthesis, separator or space. */
  predicate Loggable(op: Op) {
    && (op.kind == 'C' ==> op.item.None?)
    && (op.kind == 'R' || op.kind == 'W' ==>
          && op.item.Some?
          && '(' !in op.item.value && ')' !in op.item.value
          && ';' !in op.item.value && ' ' !in op.item.value)
    && (op.kind == 'R' || op.kind == 'W' || op.kind == 'C')
  }

  /** The command text of each operation. */
  function Lines(ops: seq<Op>): (r: seq<string>)
    requires forall i | 0 <= i < |ops| :: ops[i].tnum >= 0
    ensures |r| == |ops|
    ensures forall i | 0 <= i < |ops| :: r[i] == Render(ops[i])
  {
    if ops == [] then []
    else
      assert forall i | 1 <= i < |ops| :: ops[1..][i - 1] == ops[i];
      [Render(ops[0])] + Lines(ops[1..])
  }

  lemma RenderAvoids(op: Op, c: char)
    requires op.tnum >= 0 && Loggable(op) && (c == ';' || c == ' ')
    ensures c !in Render(op)
  {
    var d := Decimal(op.tnum);
    assert c !in d by {
      assert forall i | 0 <= i < |d| :: IsDigit(d[i]);
    }
    if op.item.Some? {
      assert Render(op) == [op.kind] + d + "(" + op.item.value + ")";
    } else {
      assert Render(op) == [op.kind] + d;
    }
  }

  lemma DigitsAvoid(d: string, c: char)
    requires AllDigits(d) && !IsDigit(c)
    ensures c !in d
  {
  }

  /** Where the parentheses of a rendered read or write sit. */
  lemma AccessLineShape(k: char, n: nat, name: string)
    requires (k == 'R' || k == 'W') && '(' !in name && ')' !in name
    ensures var s := [k] + Decimal(n) + ("(" + name + ")");
            && |s| > 0 && s[0] == k && '(' in s && ')' in s
            && IndexOf(s, '(') == 1 + |Decimal(n)| && IndexOf(s, '(') <= IndexOf(s, ')')
            && s[1..IndexOf(s, '(')] == Decimal(n) && s[IndexOf(s, '(') + 1..IndexOf(s, ')')] == name
  {
    var d := Decimal(n);
    DigitsAvoid(d, '(');
    DigitsAvoid(d, ')');
    var pre := [k] + d;
    var body := pre + "(" + name;
    var s := [k] + Decimal(n) + ("(" + name + ")");
    assert s == body + ")";
    assert s == pre + ['('] + (name + ")");
    IndexOfPast(pre, '(', name + ")");
    assert ')' !in body;
    IndexOfPast(body, ')', []);
    assert s[1..|pre|] == d;
    assert s[|pre| + 1..|body|] == name;
  }

  /** A commit command carries the number `int()` reads after its letter. */
  lemma ParseCommitAt(c: string, n: int)
    requires |c| > 0 && Upper(c[0]) == 'C' && ParseInt(c[1..]) == Some(n)
    ensures ParseCommand(c) == Ok(Command(Op('C', n, None)))
  {
  }

  /** A read or write command parses by where its parentheses sit. */
  lemma ParseAccessAt(c: string, k: char, n: int, name: string)
    requires |c| > 0 && Upper(c[0]) == k && (k == 'R' || k == 'W') && '(' in c && ')' in c
    requires IndexOf(c, '(') <= IndexOf(c, ')')
    requires ParseInt(c[1..IndexOf(c, '(')]) == Some(n) && c[IndexOf(c, '(') + 1..IndexOf(c, ')')] == name
    ensures ParseCommand(c) == Ok(Command(Op(k, n, Some(name))))
  {
  }

  lemma ParseAccessLine(k: char, n: nat, name: string)
    requires (k == 'R' || k == 'W') && '(' !in name && ')' !in name
    ensures ParseCommand([k] + Decimal(n) + ("(" + name + ")")) == Ok(Command(Op(k, n, Some(name))))
  {
    AccessLineShape(k, n, name);
    ParseDecimal(n);
    assert Upper(k) == k;
    ParseAccessAt([k] + Decimal(n) + ("(" + name + ")"), k, n, name);
  }

  lemma ParseCommitLine(n: nat)
    ensures ParseCommand(['C'] + Decimal(n) + "") == Ok(Command(Op('C', n, None)))
  {
    var s := ['C'] + Decimal(n) + "";
    assert s[1..] == Decimal(n);
    ParseDecimal(n);
    ParseCommitAt(s, n);
  }

  /** The command text of a loggable operation parses back to it. */
  lemma ParseLine(op: Op)
    requires op.tnum >= 0 && Loggable(op)
    ensures ParseCommand(Render(op)) == Ok(Command(op))
  {
    if op.item.Some? {
      ParseAccessLine(op.kind, op.tnum, op.item.value);
      assert op == Op(op.kind, op.tnum, Some(op.item.value));
    } else {
      ParseCommitLine(op.tnum);
      assert op == Op('C', op.tnum, None);
    }
  }

  lemma {:induction false} ParseLines(ops: seq<Op>)
    requires forall i | 0 <= i < |ops| :: ops[i].tnum >= 0 && Loggable(ops[i])
    ensures ParseCommands(Lines(ops)) == Ok(ops)
  {
    if ops != [] {
      ParseLine(ops[0]);
      assert forall i | 1 <= i < |ops| :: ops[1..][i - 1] == ops[i];
      ParseLines(ops[1..]);
      var lines := Lines(ops);
      assert lines[1..] == Lines(ops[1..]);
      assert ParseCommand(lines[0]) == Ok(Command(ops[0]));
      assert ParseCommands(lines) == Ok([ops[0]] + ops[1..]);
      assert [ops[0]] + ops[1..] == ops;
    }
  }

  /** A non-empty log written out with `;` between commands parses back to
      itself. */
  lemma ParseLogRender(ops: seq<Op>)
    requires |ops| >= 1 && forall i | 0 <= i < |ops| :: ops[i].tnum >= 0 && Loggable(ops[i])
    ensures ParseLog(Join(Lines(ops), ';')) == Ok(ops)
  {
    var lines := Lines(ops);
    forall i | 0 <= i < |lines| ensures ';' !in lines[i] && ' ' !in lines[i] {
      RenderAvoids(ops[i], ';');
      RenderAvoids(ops[i], ' ');
    }
    JoinAvoids(lines, ';', ' ');
    SplitJoin(lines, ';');
    ParseLines(ops);
  }

  /** A command that breaks the loop hides every command after it: the
      parsed log is the commands before it. */
  lemma {:induction false} StopDropsRest(cmds: seq<string>, k: nat)
    requires k < |cmds| && ParseCommand(cmds[k]) == Ok(Stop)
    requires forall i | 0 <= i < k :: ParseCommand(cmds[i]).Ok? && ParseCommand(cmds[i]).value.Command?
    ensures ParseCommands(cmds) == ParseCommands(cmds[..k])
    ensures ParseCommands(cmds[..k]).Ok? && |ParseCommands(cmds[..k]).value| == k
  {
    if k > 0 {
      assert cmds[1..][..k - 1] == cmds[..k][1..];
      StopDropsRest(cmds[1..], k - 1);
    }
  }

  // ----------------------------------------------------------------- engine

  /** What happens to a transaction whose validation fails. */
  datatype Abandon =
    | KeepStamp   // as written: its validation timestamp stays until the rollback
    | ClearStamp  // corrected: its validation timestamp goes back to infinity

  /** `current_timestamp`, the registry (the transaction record has no
      operation list here; `process` stays empty), `local_vars`, and the
      rollback queue. */
  datatype State = State(counter: nat, txns: seq<Txn>, locals: seq<string>, rollbacks: seq<int>)

  function Init(): State {
    State(0, [], [], [])
  }

  /** The timestamp order a transaction keeps while its number waits in the
      rollback queue: a validation after the start, nothing beyond the counter. */
  ghost predicate Loose(t: Txn, counter: int) {
    && t.start.Fin? && t.start.n <= counter
    && (t.validation.Fin? ==> t.start.n < t.validation.n <= counter)
    && (t.finish.Fin? ==> t.finish.n <= counter)
    && NoDup(t.readSet) && NoDup(t.writeSet)
  }

  /** Numbers are distinct; every transaction keeps `Loose`; one whose number is
      not queued keeps the full order of `Timely` and has validated exactly
      when it has finished; every queued number is registered. */
  ghost predicate Wf(st: State) {
    && Unique(st.txns)
    && (forall i | 0 <= i < |st.txns| :: Loose(st.txns[i], st.counter))
    && (forall i | 0 <= i < |st.txns| && st.txns[i].tnum !in st.rollbacks ::
          Timely(st.txns[i], st.counter) && (st.txns[i].validation.Fin? <==> st.txns[i].finish.Fin?))
    && (forall k | 0 <= k < |st.rollbacks| :: Find(st.txns, st.rollbacks[k]).Some?)
  }

  /** No transaction has validated without finishing. */
  ghost predicate Unblocked(st: State) {
    forall i | 0 <= i < |st.txns| :: st.txns[i].validation.Fin? ==> st.txns[i].finish.Fin?
  }

  /** The set-up in `run`: a number seen for the first time gets a fresh
      transaction started at the current counter, which does not move. */
  function Ensure(st: State, t: int): State {
    if Find(st.txns, t).Some? then st
    else st.(txns := st.txns + [Fresh(t).(start := Fin(st.counter))])
  }

  /** After the set-up the number is registered; a new one sits at the end
      with empty sets, its start at the counter and no other timestamp, and
      nothing else changes. */
  lemma EnsureSpec(st: State, t: int)
    ensures Find(Ensure(st, t).txns, t).Some?
    ensures Find(st.txns, t).Some? ==> Ensure(st, t) == st
    ensures Find(st.txns, t).None? ==>
              var r := Ensure(st, t);
              && r.counter == st.counter && r.locals == st.locals && r.rollbacks == st.rollbacks
              && |r.txns| == |st.txns| + 1 && r.txns[..|st.txns|] == st.txns
              && r.txns[|st.txns|] == Txn(t, [], [], Fin(st.counter), Inf, Inf, [])
  {
    var r := Ensure(st, t);
    if Find(st.txns, t).None? {
      assert r.txns[|st.txns|].tnum == t;
      assert r.txns[..|st.txns|] == st.txns;
    }
  }

  /** The set-up keeps the invariants. */
  lemma EnsureKeeps(st: State, t: int)
    ensures Wf(st) ==> Wf(Ensure(st, t))
    ensures Unblocked(st) ==> Unblocked(Ensure(st, t))
  {
    var r := Ensure(st, t);
    if Find(st.txns, t).None? && Wf(st) {
      forall k | 0 <= k < |r.rollbacks| ensures Find(r.txns, r.rollbacks[k]).Some? {
        var j := Find(st.txns, r.rollbacks[k]).value;
        assert r.txns[j] == st.txns[j];
      }
    }
  }

  /** `validate`, with `write` and `commit` when it succeeds: the validation
      timestamp is the next counter value and every earlier-validated
      transaction must pass the three-case test. A valid transaction
      finishes two counter steps later; an invalid one joins the rollback
      queue, and under `ClearStamp` loses its validation timestamp. */
  function Validate(st: State, i: nat, abandon: Abandon): State
    requires i < |st.txns|
  {
    var c := st.counter + 1;
    var tj := st.txns[i].(validation := Fin(c));
    if DecideAll(st.txns[i := tj], tj) then
      st.(counter := c + 2, txns := st.txns[i := tj.(finish := Fin(c + 2))])
    else
      var v := if abandon == KeepStamp then Fin(c) else Inf;
      st.(counter := c, txns := st.txns[i := st.txns[i].(validation := v)], rollbacks := st.rollbacks + [tj.tnum])
  }

  /** The queue is unchanged exactly when every earlier-validated transaction
      passes against Tj stamped with the next counter value; then Tj
      validates and finishes. Otherwise Tj's number joins the end of the
      queue and only its validation timestamp changes. */
  lemma ValidateSpec(st: State, i: nat, abandon: Abandon)
    requires i < |st.txns|
    ensures var r := Validate(st, i, abandon);
            var v := st.txns[i].(validation := Fin(st.counter + 1));
            && (r.rollbacks == st.rollbacks <==> DecideAll(st.txns[i := v], v))
            && (r.rollbacks == st.rollbacks || r.rollbacks == st.rollbacks + [st.txns[i].tnum])
            && (r.rollbacks == st.rollbacks ==>
                  && r.counter == st.counter + 3
                  && r.txns == st.txns[i := st.txns[i].(validation := Fin(st.counter + 1), finish := Fin(st.counter + 3))])
            && (r.rollbacks != st.rollbacks ==>
                  && r.counter == st.counter + 1
                  && r.txns == st.txns[i := st.txns[i].(validation := if abandon == KeepStamp then Fin(st.counter + 1) else Inf)])
            && r.locals == st.locals
            && |r.txns| == |st.txns| && forall j | 0 <= j < |st.txns| :: r.txns[j].tnum == st.txns[j].tnum
  {
    var r := Validate(st, i, abandon);
    assert |st.rollbacks + [st.txns[i].tnum]| != |st.rollbacks|;
  }

  /** A validation keeps the invariant; with the correction it also leaves
      no transaction validated and unfinished. */
  lemma ValidateKeeps(st: State, i: nat, abandon: Abandon)
    requires i < |st.txns|
    ensures Wf(st) ==> Wf(Validate(st, i, abandon))
    ensures abandon == ClearStamp && Unblocked(st) ==> Unblocked(Validate(st, i, abandon))
  {
    var c := st.counter + 1;
    var tj := st.txns[i].(validation := Fin(c));
    var r := Validate(st, i, abandon);
    if DecideAll(st.txns[i := tj], tj) {
      assert r == st.(counter := c + 2, txns := st.txns[i := st.txns[i].(validation := Fin(c), finish := Fin(c + 2))]);
      CommitWf(st, i);
    } else {
      var v := if abandon == KeepStamp then Fin(c) else Inf;
      assert r == st.(counter := st.counter + 1, txns := st.txns[i := st.txns[i].(validation := v)],
                      rollbacks := st.rollbacks + [st.txns[i].tnum]);
      AbortWf(st, i, v);
    }
  }

  /** Lookups by number see only the numbers. */
  lemma {:induction false} FindSameNumbers(a: seq<Txn>, b: seq<Txn>, t: int)
    requires |a| == |b| && forall j | 0 <= j < |a| :: a[j].tnum == b[j].tnum
    ensures Find(a, t) == Find(b, t)
    decreases |a|
  {
    if |a| > 0 && a[0].tnum != t {
      FindSameNumbers(a[1..], b[1..], t);
    }
  }

  lemma CommitWf(st: State, i: nat)
    requires i < |st.txns|
    ensures var c := st.counter + 1;
            Wf(st) ==> Wf(st.(counter := c + 2, txns := st.txns[i := st.txns[i].(validation := Fin(c), finish := Fin(c + 2))]))
  {
    var c := st.counter + 1;
    var r := st.(counter := c + 2, txns := st.txns[i := st.txns[i].(validation := Fin(c), finish := Fin(c + 2))]);
    if Wf(st) {
      forall k | 0 <= k < |r.rollbacks| ensures Find(r.txns, r.rollbacks[k]).Some? {
        FindSameNumbers(st.txns, r.txns, r.rollbacks[k]);
      }
    }
  }

  lemma AbortWf(st: State, i: nat, v: Stamp)
    requires i < |st.txns| && (v == Fin(st.counter + 1) || v == Inf)
    ensures Wf(st) ==> Wf(st.(counter := st.counter + 1, txns := st.txns[i := st.txns[i].(validation := v)],
                   rollbacks := st.rollbacks + [st.txns[i].tnum]))
  {
    var r := st.(counter := st.counter + 1, txns := st.txns[i := st.txns[i].(validation := v)],
                 rollbacks := st.rollbacks + [st.txns[i].tnum]);
    if Wf(st) {
      forall k | 0 <= k < |r.rollbacks| ensures Find(r.txns, r.rollbacks[k]).Some? {
        FindSameNumbers(st.txns, r.txns, r.rollbacks[k]);
        if k == |st.rollbacks| {
          assert r.txns[i].tnum == r.rollbacks[k];
        }
      }
    }
  }

  /** `read` (when `isRead`) or `temporary_write` of `item` by the
      transaction at position `i`. */
  function Access(st: State, i: nat, isRead: bool, item: string): State
    requires i < |st.txns|
  {
    var t := st.txns[i];
    if isRead then st.(counter := st.counter + 1, txns := st.txns[i := t.(readSet := AddAbsent(t.readSet, item))])
    else st.(counter := st.counter + 1, locals := st.locals + [item],
             txns := st.txns[i := t.(writeSet := AddAbsent(t.writeSet, item))])
  }

  lemma AccessKeeps(st: State, i: nat, isRead: bool, item: string)
    requires i < |st.txns|
    ensures Wf(st) ==> Wf(Access(st, i, isRead, item))
    ensures Unblocked(st) ==> Unblocked(Access(st, i, isRead, item))
  {
    var r := Access(st, i, isRead, item);
    var t := st.txns[i];
    var u := if isRead then t.(readSet := AddAbsent(t.readSet, item)) else t.(writeSet := AddAbsent(t.writeSet, item));
    assert r == st.(counter := r.counter, locals := r.locals, txns := st.txns[i := u]);
    if Wf(st) {
      RetouchWf(st, r, i, u);
    }
  }

  /** Growing one transaction's sets without repeats, with the counter moving
      on, keeps the invariant. */
  lemma RetouchWf(st: State, r: State, i: nat, u: Txn)
    requires Wf(st) && i < |st.txns| && st.counter <= r.counter
    requires u == st.txns[i].(readSet := u.readSet, writeSet := u.writeSet) && NoDup(u.readSet) && NoDup(u.writeSet)
    requires r == st.(counter := r.counter, locals := r.locals, txns := st.txns[i := u])
    ensures Wf(r)
  {
    forall k | 0 <= k < |r.rollbacks| ensures Find(r.txns, r.rollbacks[k]).Some? {
      FindSameNumbers(st.txns, r.txns, r.rollbacks[k]);
    }
  }

  /** One action on a registered transaction: `read`, `temporary_write`, or
      the commit's `validate`; any other letter does nothing. */
  function Act(st: State, op: Op, abandon: Abandon): Result<State> {
    match Find(st.txns, op.tnum)
    case None => Err(MissingKey)
    case Some(i) =>
      if op.kind == 'R' || op.kind == 'W' then
        if op.item.None? then Err(Malformed)
        else Ok(Access(st, i, op.kind == 'R', op.item.value))
      else if op.kind == 'C' then Ok(Validate(st, i, abandon))
      else Ok(st)
  }

  /** An action fails exactly on a number missing from the registry
      (Python's KeyError) or a read or write without an item. A read or a
      write moves the counter by one and adds the item to the read or write
      set unless it is there (a write also to `local_vars`); a commit
      validates; nothing else changes, and no transaction changes number. */
  lemma ActSpec(st: State, op: Op, abandon: Abandon)
    ensures var r := Act(st, op, abandon);
            && (r.Err? <==> Find(st.txns, op.tnum).None? || ((op.kind == 'R' || op.kind == 'W') && op.item.None?))
            && (r.Ok? ==>
                  var i := Find(st.txns, op.tnum).value;
                  var t := st.txns[i];
                  && (op.kind == 'R' ==>
                        r.value == st.(counter := st.counter + 1, txns := st.txns[i := t.(readSet := AddAbsent(t.readSet, op.item.value))]))
                  && (op.kind == 'W' ==>
                        r.value == st.(counter := st.counter + 1, locals := st.locals + [op.item.value],
                                       txns := st.txns[i := t.(writeSet := AddAbsent(t.writeSet, op.item.value))]))
                  && (op.kind == 'C' ==> r.value == Validate(st, i, abandon))
                  && (op.kind != 'R' && op.kind != 'W' && op.kind != 'C' ==> r.value == st))
            && (r.Ok? ==> st.counter <= r.value.counter && |r.value.txns| == |st.txns|)
            && (r.Ok? ==> forall j | 0 <= j < |st.txns| :: r.value.txns[j].tnum == st.txns[j].tnum)
  {
    if Act(st, op, abandon).Ok? && op.kind == 'C' {
      ValidateSpec(st, Find(st.txns, op.tnum).value, abandon);
    }
  }

  lemma ActKeeps(st: State, op: Op, abandon: Abandon)
    ensures Act(st, op, abandon).Ok? && Wf(st) ==> Wf(Act(st, op, abandon).value)
    ensures Act(st, op, abandon).Ok? && abandon == ClearStamp && Unblocked(st) ==> Unblocked(Act(st, op, abandon).value)
  {
    match Find(st.txns, op.tnum)
    case None =>
    case Some(i) =>
      if (op.kind == 'R' || op.kind == 'W') && op.item.Some? {
        AccessKeeps(st, i, op.kind == 'R', op.item.value);
      } else if op.kind == 'C' {
        ValidateKeeps(st, i, abandon);
      }
  }

  /** The counter step `run` and the replay take after every action. */
  function Tick(st: State): State {
    st.(counter := st.counter + 1)
  }

  lemma TickKeeps(st: State)
    ensures Wf(st) ==> Wf(Tick(st))
    ensures Unblocked(st) ==> Unblocked(Tick(st))
  {
  }

  /** One command of `run`: register, act, tick. */
  function Step(st: State, op: Op, abandon: Abandon): Result<State> {
    match Act(Ensure(st, op.tnum), op, abandon)
    case Err(f) => Err(f)
    case Ok(st1) => Ok(Tick(st1))
  }

  /** A command of the main loop fails only as a read or write without an
      item (its number is registered first); otherwise the counter moves on
      and no transaction leaves the registry. */
  lemma StepSpec(st: State, op: Op, abandon: Abandon)
    ensures Step(st, op, abandon).Err? <==> (op.kind == 'R' || op.kind == 'W') && op.item.None?
    ensures Step(st, op, abandon).Ok? ==>
              st.counter < Step(st, op, abandon).value.counter && |st.txns| <= |Step(st, op, abandon).value.txns|
  {
    EnsureSpec(st, op.tnum);
    ActSpec(Ensure(st, op.tnum), op, abandon);
  }

  lemma StepKeeps(st: State, op: Op, abandon: Abandon)
    ensures Step(st, op, abandon).Ok? && Wf(st) ==> Wf(Step(st, op, abandon).value)
    ensures Step(st, op, abandon).Ok? && abandon == ClearStamp && Unblocked(st) ==> Unblocked(Step(st, op, abandon).value)
  {
    EnsureKeeps(st, op.tnum);
    ActKeeps(Ensure(st, op.tnum), op, abandon);
    if Act(Ensure(st, op.tnum), op, abandon).Ok? {
      TickKeeps(Act(Ensure(st, op.tnum), op, abandon).value);
    }
  }

  /** The main loop of `run`, over the whole parsed log. */
  function Pass(st: State, ops: seq<Op>, abandon: Abandon): Result<State>
    decreases |ops|
  {
    if ops == [] then Ok(st)
    else
      match Step(st, ops[0], abandon)
      case Err(f) => Err(f)
      case Ok(st1) => Pass(st1, ops[1..], abandon)
  }

  /** A read or write names its item; this is what the parser guarantees. */
  predicate Itemized(op: Op) {
    (op.kind == 'R' || op.kind == 'W') ==> op.item.Some?
  }

  /** The main loop never moves the counter back, and on a log whose reads
      and writes name their items it always gets through. */
  lemma {:induction false} PassSpec(st: State, ops: seq<Op>, abandon: Abandon)
    ensures Pass(st, ops, abandon).Ok? ==> st.counter <= Pass(st, ops, abandon).value.counter
    ensures (forall i | 0 <= i < |ops| :: Itemized(ops[i])) ==> Pass(st, ops, abandon).Ok?
    decreases |ops|
  {
    if ops != [] {
      StepSpec(st, ops[0], abandon);
      if Step(st, ops[0], abandon).Ok? {
        assert forall i | 1 <= i < |ops| :: ops[i] == ops[1..][i - 1];
        PassSpec(Step(st, ops[0], abandon).value, ops[1..], abandon);
      }
    }
  }

  lemma {:induction false} PassKeeps(st: State, ops: seq<Op>, abandon: Abandon)
    ensures Pass(st, ops, abandon).Ok? && Wf(st) ==> Wf(Pass(st, ops, abandon).value)
    ensures Pass(st, ops, abandon).Ok? && abandon == ClearStamp && Unblocked(st) ==> Unblocked(Pass(st, ops, abandon).value)
    decreases |ops|
  {
    if ops != [] {
      StepKeeps(st, ops[0], abandon);
      if Step(st, ops[0], abandon).Ok? {
        PassKeeps(Step(st, ops[0], abandon).value, ops[1..], abandon);
      }
    }
  }

  /** The commands of one transaction, in log order. */
  function Commands(ops: seq<Op>, t: int): seq<Op> {
    if ops == [] then []
    else (if ops[0].tnum == t then [ops[0]] else []) + Commands(ops[1..], t)
  }

  /** The filter keeps exactly the commands of that number. */
  lemma {:induction false} CommandsSpec(ops: seq<Op>, t: int)
    ensures forall op | op in Commands(ops, t) :: op in ops && op.tnum == t
    ensures forall op | op in ops && op.tnum == t :: op in Commands(ops, t)
    decreases |ops|
  {
    if ops != [] {
      CommandsSpec(ops[1..], t);
      assert ops == [ops[0]] + ops[1..];
    }
  }

  /** The filter goes through the log in order: the commands of a
      concatenation are those of each part, one after the other, and a single
      command is kept exactly when it has that number. */
  lemma {:induction false} CommandsAppend(a: seq<Op>, b: seq<Op>, t: int)
    ensures Commands(a + b, t) == Commands(a, t) + Commands(b, t)
    ensures |a| == 1 ==> Commands(a, t) == (if a[0].tnum == t then a else [])
    decreases |a|
  {
    if a != [] {
      assert (a + b)[1..] == a[1..] + b;
      CommandsAppend(a[1..], b, t);
      if |a| == 1 {
        assert a[1..] == [];
      }
    } else {
      assert a + b == b;
    }
  }

  /** The replay loop of `rollback_all`: act and tick for each command. */
  function Replay(st: State, cmds: seq<Op>, abandon: Abandon): Result<State>
    decreases |cmds|
  {
    if cmds == [] then Ok(st)
    else
      match Act(st, cmds[0], abandon)
      case Err(f) => Err(f)
      case Ok(st1) => Replay(Tick(st1), cmds[1..], abandon)
  }

  /** A replay keeps every transaction's number and never moves the
      counter back; it fails only on an unregistered number or a read or
      write without an item. */
  lemma {:induction false} ReplaySpec(st: State, cmds: seq<Op>, abandon: Abandon)
    ensures var r := Replay(st, cmds, abandon);
            && (r.Ok? ==> st.counter <= r.value.counter && |r.value.txns| == |st.txns|)
            && (r.Ok? ==> forall j | 0 <= j < |st.txns| :: r.value.txns[j].tnum == st.txns[j].tnum)
            && ((forall k | 0 <= k < |cmds| :: Find(st.txns, cmds[k].tnum).Some? && Itemized(cmds[k])) ==> r.Ok?)
    decreases |cmds|
  {
    if cmds != [] {
      ActSpec(st, cmds[0], abandon);
      if Act(st, cmds[0], abandon).Ok? {
        var st1 := Act(st, cmds[0], abandon).value;
        forall t { FindSameNumbers(st.txns, st1.txns, t); }
        assert forall k | 1 <= k < |cmds| :: cmds[k] == cmds[1..][k - 1];
        ReplaySpec(Tick(st1), cmds[1..], abandon);
      }
    }
  }

  lemma {:induction false} ReplayKeeps(st: State, cmds: seq<Op>, abandon: Abandon)
    ensures Replay(st, cmds, abandon).Ok? && Wf(st) ==> Wf(Replay(st, cmds, abandon).value)
    ensures Replay(st, cmds, abandon).Ok? && abandon == ClearStamp && Unblocked(st) ==> Unblocked(Replay(st, cmds, abandon).value)
    decreases |cmds|
  {
    if cmds != [] {
      ActKeeps(st, cmds[0], abandon);
      if Act(st, cmds[0], abandon).Ok? {
        var st1 := Act(st, cmds[0], abandon).value;
        TickKeeps(st1);
        ReplayKeeps(Tick(st1), cmds[1..], abandon);
      }
    }
  }

  /** The reset at the head of one round of `rollback_all`. */
  function Reset(st: State): Result<State>
    requires st.rollbacks != []
  {
    match Find(st.txns, st.rollbacks[0])
    case None => Err(MissingKey)
    case Some(i) =>
      var c := st.counter + 1;
      Ok(st.(counter := c, rollbacks := st.rollbacks[1..],
             txns := st.txns[i := st.txns[i].(readSet := [], writeSet := [], start := Fin(c), validation := Inf, finish := Inf)]))
  }

  /** The reset fails only on an unregistered number. Otherwise the counter
      moves by one and becomes the new start, the sets are emptied and
      validation and finish are infinite again, and the number leaves the
      front of the queue. */
  lemma ResetSpec(st: State)
    requires st.rollbacks != []
    ensures Reset(st).Ok? <==> Find(st.txns, st.rollbacks[0]).Some?
    ensures Reset(st).Ok? ==>
              var r := Reset(st).value;
              var i := Find(st.txns, st.rollbacks[0]).value;
              && r.counter == st.counter + 1 && r.rollbacks == st.rollbacks[1..] && r.locals == st.locals
              && r.txns == st.txns[i := st.txns[i].(readSet := [], writeSet := [],
                              start := Fin(st.counter + 1), validation := Inf, finish := Inf)]
  {
  }

  /** The reset keeps the invariants. */
  lemma ResetKeeps(st: State)
    requires st.rollbacks != []
    ensures Reset(st).Ok? && Wf(st) ==> Wf(Reset(st).value)
    ensures Reset(st).Ok? && Unblocked(st) ==> Unblocked(Reset(st).value)
  {
    if Reset(st).Ok? && Wf(st) {
      ResetTimely(st);
      ResetQueued(st);
    }
  }

  /** After the reset every transaction outside the queue is in order. */
  lemma ResetTimely(st: State)
    requires st.rollbacks != [] && Reset(st).Ok? && Wf(st)
    ensures var r := Reset(st).value;
            forall j | 0 <= j < |r.txns| && r.txns[j].tnum !in r.rollbacks ::
              Timely(r.txns[j], r.counter) && (r.txns[j].validation.Fin? <==> r.txns[j].finish.Fin?)
  {
    var t := st.rollbacks[0];
    var r := Reset(st).value;
    var i := Find(st.txns, t).value;
    forall j | 0 <= j < |r.txns| && r.txns[j].tnum !in r.rollbacks
      ensures Timely(r.txns[j], r.counter) && (r.txns[j].validation.Fin? <==> r.txns[j].finish.Fin?)
    {
      if j != i {
        assert st.txns[j].tnum != t;
        assert st.rollbacks == [t] + r.rollbacks;
      }
    }
  }

  /** After the reset every queued number is still registered. */
  lemma ResetQueued(st: State)
    requires st.rollbacks != [] && Reset(st).Ok? && Wf(st)
    ensures var r := Reset(st).value;
            forall k | 0 <= k < |r.rollbacks| :: Find(r.txns, r.rollbacks[k]).Some?
  {
    var r := Reset(st).value;
    forall k | 0 <= k < |r.rollbacks| ensures Find(r.txns, r.rollbacks[k]).Some? {
      assert r.rollbacks[k] == st.rollbacks[k + 1];
      var j := Find(st.txns, r.rollbacks[k]).value;
      assert r.txns[j].tnum == st.txns[j].tnum;
    }
  }

  /** `rollback_all`: while the queue is not empty, reset the transaction at
      its head, replay every command of that number from the log, and tick
      once more. A replayed commit may fail and queue the number again, so the
      loop is bounded by `fuel`, one unit per round. When it completes the
      queue is empty, it completes at once on an empty queue, it keeps the
      invariants, and from a state that keeps the invariant, on a log whose
      reads and writes name their items, it stops only by completing or by
      running out of fuel. */
  function RollbackAll(st: State, input: seq<Op>, abandon: Abandon, fuel: nat): (r: Result<State>)
    ensures r.Ok? ==> r.value.rollbacks == []
    ensures st.rollbacks == [] ==> r == Ok(st)
    ensures r.Ok? && Wf(st) ==> Wf(r.value)
    ensures r.Ok? && abandon == ClearStamp && Unblocked(st) ==> Unblocked(r.value)
    ensures Wf(st) && (forall op | op in input :: Itemized(op)) ==> r.Ok? || r == Err(OutOfFuel)
    decreases fuel
  {
    if st.rollbacks == [] then Ok(st)
    else if fuel == 0 then Err(OutOfFuel)
    else
      RoundSucceeds(st, input, abandon);
      match Reset(st)
      case Err(f) => Err(f)
      case Ok(st1) =>
        match Replay(st1, Commands(input, st.rollbacks[0]), abandon)
        case Err(f) => Err(f)
        case Ok(st2) =>
          RoundKeeps(st, input, abandon);
          RollbackAll(Tick(st2), input, abandon, fuel - 1)
  }

  /** A completed round keeps the invariants. */
  lemma RoundKeeps(st: State, input: seq<Op>, abandon: Abandon)
    requires st.rollbacks != [] && Reset(st).Ok?
    requires Replay(Reset(st).value, Commands(input, st.rollbacks[0]), abandon).Ok?
    ensures var next := Tick(Replay(Reset(st).value, Commands(input, st.rollbacks[0]), abandon).value);
            && (Wf(st) ==> Wf(next))
            && (abandon == ClearStamp && Unblocked(st) ==> Unblocked(next))
  {
    var st1 := Reset(st).value;
    ResetKeeps(st);
    ReplayKeeps(st1, Commands(input, st.rollbacks[0]), abandon);
    TickKeeps(Replay(st1, Commands(input, st.rollbacks[0]), abandon).value);
  }

  /** From a state that keeps the invariant, on a log whose reads and
      writes name their items, a round's reset and replay succeed. */
  lemma RoundSucceeds(st: State, input: seq<Op>, abandon: Abandon)
    requires st.rollbacks != []
    ensures Wf(st) && (forall op | op in input :: Itemized(op)) ==>
              Reset(st).Ok? && Replay(Reset(st).value, Commands(input, st.rollbacks[0]), abandon).Ok?
  {
    if Wf(st) && forall op | op in input :: Itemized(op) {
      assert Find(st.txns, st.rollbacks[0]).Some?;
      ResetSpec(st);
      var st1 := Reset(st).value;
      var cmds := Commands(input, st.rollbacks[0]);
      CommandsSpec(input, st.rollbacks[0]);
      forall k | 0 <= k < |cmds| ensures Find(st1.txns, cmds[k].tnum).Some? && Itemized(cmds[k]) {
        assert cmds[k] in cmds;
        FindSameNumbers(st.txns, st1.txns, cmds[k].tnum);
      }
      ReplaySpec(st1, cmds, abandon);
    }
  }

  /** `run`: the main loop, then `rollback_all`. */
  function Run(ops: seq<Op>, abandon: Abandon, fuel: nat): Result<State> {
    match Pass(Init(), ops, abandon)
    case Err(f) => Err(f)
    case Ok(st) => RollbackAll(st, ops, abandon, fuel)
  }

  /** When `run` completes, the queue is empty, every transaction has its
      timestamps in order, and each one has validated exactly when it has
      finished. On a log whose reads and writes name their items it stops
      only by completing or by running out of fuel. */
  lemma RunSpec(ops: seq<Op>, abandon: Abandon, fuel: nat)
    ensures var r := Run(ops, abandon, fuel);
            && (r.Ok? ==> r.value.rollbacks == [] && Registry(r.value.txns, r.value.counter))
            && (r.Ok? ==> forall i | 0 <= i < |r.value.txns| :: r.value.txns[i].validation.Fin? <==> r.value.txns[i].finish.Fin?)
            && ((forall i | 0 <= i < |ops| :: Itemized(ops[i])) ==> r.Ok? || r == Err(OutOfFuel))
  {
    assert Wf(Init());
    PassSpec(Init(), ops, abandon);
    PassKeeps(Init(), ops, abandon);
    if Pass(Init(), ops, abandon).Ok? {
      var st := Pass(Init(), ops, abandon).value;
      if forall i | 0 <= i < |ops| :: Itemized(ops[i]) {
        assert forall op | op in ops :: Itemized(op);
      }
    }
  }

  /** A log that parses runs to the end, or stops only because the rollback
      loop used up its fuel: no lookup fails on the way. */
  lemma ParsedRunsOrLoops(text: string, abandon: Abandon, fuel: nat)
    requires ParseLog(text).Ok?
    ensures var r := Run(ParseLog(text).value, abandon, fuel); r.Ok? || r == Err(OutOfFuel)
  {
    var ops := ParseLog(text).value;
    forall i | 0 <= i < |ops| ensures Itemized(ops[i]) {
      var cmds := Split(RemoveSpaces(text), ';');
      assert ParseCommand(cmds[i]) == Ok(Command(ops[i]));
    }
    RunSpec(ops, abandon, fuel);
  }

  /** As written, a transaction that failed its validation and waits in the
      rollback queue keeps a validation timestamp and no finish, and so fails
      every later validation of another transaction, whatever they touched. */
  lemma PendingBlocks(st: State, i: nat, k: nat, abandon: Abandon)
    requires Wf(st) && i < |st.txns| && k < |st.txns| && k != i
    requires st.txns[k].validation.Fin? && st.txns[k].finish == Inf
    ensures st.txns[k].tnum in st.rollbacks
    ensures Validate(st, i, abandon).rollbacks == st.rollbacks + [st.txns[i].tnum]
  {
    var tj := st.txns[i].(validation := Fin(st.counter + 1));
    var txns := st.txns[i := tj];
    assert Earlier(txns[k], tj);
    PendingFails(txns, tj, k);
  }

  /** With the correction, only a genuine conflict fails a validation: some
      other transaction validated and finished no earlier than Tj's start,
      and either at that very counter value or after writing an item Tj read. */
  lemma ClearedFailsOnConflict(st: State, i: nat)
    requires Wf(st) && Unblocked(st) && i < |st.txns|
    ensures Validate(st, i, ClearStamp).rollbacks != st.rollbacks ==>
              exists k | 0 <= k < |st.txns| && k != i ::
                && st.txns[k].validation.Fin? && st.txns[k].finish.Fin?
                && st.txns[i].start.n <= st.txns[k].finish.n
                && (st.txns[k].finish.n == st.txns[i].start.n || Meets(st.txns[k].writeSet, st.txns[i].readSet))
  {
    var tj := st.txns[i].(validation := Fin(st.counter + 1));
    var txns := st.txns[i := tj];
    if !DecideAll(txns, tj) {
      var k :| 0 <= k < |txns| && Earlier(txns[k], tj) && !Passes(txns[k], tj);
      assert k != i && txns[k] == st.txns[k];
    }
  }
}
