/** What the two optimistic engines (occ/Occ.py and occ/main.py) share: the
    `OCCTransaction` record of occ/Lib.py, timestamps with the `math.inf`
    sentinel, and the three-case validation test of one earlier transaction
    Ti against the validating transaction Tj.

    The engines differ in how they combine the tests: occ/Occ.py lets the
    first earlier-validated Ti decide, occ/main.py requires every one to pass. */
module Optimistic {
  import opened Outcomes
  import opened Seqs
  import opened Operations

  /** A timestamp: a counter value, or `math.inf` for one not taken yet. */
  datatype Stamp = Fin(n: int) | Inf

  /** Python's `<` on such values: every number is below infinity, and infinity is below nothing. */
  predicate Below(a: Stamp, b: Stamp) {
    match a
    case Inf => false
    case Fin(x) => b.Inf? || x < b.n
  }

  /** `OCCTransaction`: number, read and write sets, the three timestamps,
      and (occ/Occ.py only) the operations seen so far, `arr_process`. */
  datatype Txn = Txn(tnum: int, readSet: seq<string>, writeSet: seq<string>,
                     start: Stamp, validation: Stamp, finish: Stamp, process: seq<Op>)

  /** `OCCTransaction(t_num)`: empty sets, every timestamp infinite, no operations. */
  function Fresh(tnum: int): (r: Txn)
    ensures r.tnum == tnum && r.readSet == [] && r.writeSet == [] && r.process == []
    ensures r.start == Inf && r.validation == Inf && r.finish == Inf
  {
    Txn(tnum, [], [], Inf, Inf, Inf, [])
  }

  /** `find_transaction(t_num)` (and the dictionary lookup of occ/main.py):
      the position of the transaction with that number. */
  function Find(txns: seq<Txn>, t: int): (r: Option<nat>)
    ensures r.Some? ==> r.value < |txns| && txns[r.value].tnum == t
    ensures r.Some? ==> forall j | 0 <= j < r.value :: txns[j].tnum != t
    ensures r.None? <==> forall j | 0 <= j < |txns| :: txns[j].tnum != t
  {
    FirstWith(txns, (x: Txn) => x.tnum, t)
  }

  /** The lookup finds the first position holding the number. */
  lemma FindAt(txns: seq<Txn>, t: int, i: nat)
    requires i < |txns| && txns[i].tnum == t
    requires forall j | 0 <= j < i :: txns[j].tnum != t
    ensures Find(txns, t) == Some(i)
  {
  }

  /** The transaction numbers are distinct. */
  predicate Unique(txns: seq<Txn>) {
    forall i, j | 0 <= i < j < |txns| :: txns[i].tnum != txns[j].tnum
  }

  /** The intersection loop: some item written by Ti is read by Tj. */
  function Meets(written: seq<string>, readItems: seq<string>): (r: bool)
    ensures r <==> exists i | 0 <= i < |written| :: written[i] in readItems
  {
    if written == [] then false
    else if written[0] in readItems then true
    else
      var r := Meets(written[1..], readItems);
      assert r ==> exists i | 0 <= i < |written| :: written[i] in readItems by {
        if r {
          var i :| 0 <= i < |written[1..]| && written[1..][i] in readItems;
          assert written[i + 1] in readItems;
        }
      }
      r
  }

  /** Ti takes part in Tj's validation: another transaction whose validation
      timestamp is below Tj's (an infinite one never is). */
  predicate Earlier(ti: Txn, tj: Txn) {
    ti.tnum != tj.tnum && Below(ti.validation, tj.validation)
  }

  /** The three-case test of one earlier Ti: Ti finished before Tj started;
      or Ti finished (finitely) inside Tj's start-to-validation window and
      wrote nothing Tj read; anything else fails. */
  predicate Passes(ti: Txn, tj: Txn) {
    if Below(ti.finish, tj.start) then true
    else if ti.finish != Inf && Below(tj.start, ti.finish) && Below(ti.finish, tj.validation) then
      !Meets(ti.writeSet, tj.readSet)
    else false
  }

  /** With finite timestamps the test is the textbook one, stated on numbers:
      finish(Ti) < start(Tj), or start(Tj) < finish(Ti) < validation(Tj)
      with no item written by Ti and read by Tj. An unfinished Ti never passes. */
  lemma PassesOnNumbers(ti: Txn, tj: Txn)
    requires tj.start.Fin? && tj.validation.Fin?
    ensures ti.finish == Inf ==> !Passes(ti, tj)
    ensures ti.finish.Fin? ==>
              (Passes(ti, tj) <==>
                 || ti.finish.n < tj.start.n
                 || (tj.start.n < ti.finish.n < tj.validation.n
                     && forall v | v in ti.writeSet :: v !in tj.readSet))
  {
  }

  /** How an engine combines the tests of the earlier transactions. */
  datatype Rule =
    | FirstEarlier  // occ/Occ.py: the first earlier Ti in registry order decides
    | EveryEarlier  // occ/main.py: every earlier Ti must pass

  /** occ/Occ.py's loop: valid exactly when the first earlier Ti, if any, passes. */
  function DecideFirst(txns: seq<Txn>, tj: Txn): (r: bool)
    ensures r <==> forall i | 0 <= i < |txns| && Earlier(txns[i], tj) ::
                     (exists k | 0 <= k < i :: Earlier(txns[k], tj)) || Passes(txns[i], tj)
  {
    if txns == [] then true
    else if Earlier(txns[0], tj) then Passes(txns[0], tj)
    else
      var r := DecideFirst(txns[1..], tj);
      assert forall i | 1 <= i < |txns| :: txns[i] == txns[1..][i - 1];
      assert r ==> forall i | 0 <= i < |txns| && Earlier(txns[i], tj) ::
                     (exists k | 0 <= k < i :: Earlier(txns[k], tj)) || Passes(txns[i], tj) by {
        if r {
          forall i | 0 <= i < |txns| && Earlier(txns[i], tj)
            ensures (exists k | 0 <= k < i :: Earlier(txns[k], tj)) || Passes(txns[i], tj)
          {
            if !Passes(txns[i], tj) {
              var k :| 0 <= k < i - 1 && Earlier(txns[1..][k], tj);
              assert Earlier(txns[k + 1], tj);
            }
          }
        }
      }
      assert !r ==> exists i | 0 <= i < |txns| && Earlier(txns[i], tj) ::
                      (forall k | 0 <= k < i :: !Earlier(txns[k], tj)) && !Passes(txns[i], tj) by {
        if !r {
          var i :| 0 <= i < |txns[1..]| && Earlier(txns[1..][i], tj)
                   && (forall k | 0 <= k < i :: !Earlier(txns[1..][k], tj)) && !Passes(txns[1..][i], tj);
          assert forall k | 0 <= k < i + 1 :: !Earlier(txns[k], tj) by {
            forall k | 0 <= k < i + 1 ensures !Earlier(txns[k], tj) {
              if k > 0 { assert txns[k] == txns[1..][k - 1]; }
            }
          }
          assert Earlier(txns[i + 1], tj) && !Passes(txns[i + 1], tj);
        }
      }
      r
  }

  /** occ/main.py's loop: valid exactly when every earlier Ti passes. */
  function DecideAll(txns: seq<Txn>, tj: Txn): (r: bool)
    ensures r <==> forall i | 0 <= i < |txns| && Earlier(txns[i], tj) :: Passes(txns[i], tj)
  {
    if txns == [] then true
    else if Earlier(txns[0], tj) && !Passes(txns[0], tj) then false
    else
      var r := DecideAll(txns[1..], tj);
      assert forall i | 1 <= i < |txns| :: txns[i] == txns[1..][i - 1];
      r
  }

  function Decide(rule: Rule, txns: seq<Txn>, tj: Txn): bool {
    match rule
    case FirstEarlier => DecideFirst(txns, tj)
    case EveryEarlier => DecideAll(txns, tj)
  }

  /** What occ/main.py validates, occ/Occ.py validates too. */
  lemma EveryThenFirst(txns: seq<Txn>, tj: Txn)
    ensures DecideAll(txns, tj) ==> DecideFirst(txns, tj)
  {
  }

  /** With at most one earlier transaction the two rules agree. */
  lemma OneEarlierAgree(txns: seq<Txn>, tj: Txn)
    requires forall i, k | 0 <= i < k < |txns| :: !(Earlier(txns[i], tj) && Earlier(txns[k], tj))
    ensures DecideAll(txns, tj) == DecideFirst(txns, tj)
  {
  }

  /** An earlier transaction that has not finished fails every validation
      under `EveryEarlier`, and under `FirstEarlier` when it comes first. */
  lemma PendingFails(txns: seq<Txn>, tj: Txn, i: nat)
    requires i < |txns| && Earlier(txns[i], tj) && txns[i].finish == Inf
    ensures !DecideAll(txns, tj)
    ensures (forall k | 0 <= k < i :: !Earlier(txns[k], tj)) ==> !DecideFirst(txns, tj)
  {
    assert !Passes(txns[i], tj);
  }

  /** The timestamps a transaction has taken lie at or below the counter and
      in order (start < validation < finish, a finish only after a
      validation), and its read and write sets hold no item twice. */
  ghost predicate Timely(t: Txn, counter: int) {
    && t.start.Fin? && t.start.n <= counter
    && (t.validation.Fin? ==> t.start.n < t.validation.n <= counter)
    && (t.finish.Fin? ==> t.validation.Fin? && t.validation.n < t.finish.n <= counter)
    && NoDup(t.readSet) && NoDup(t.writeSet)
  }

  /** The registry invariant both engines keep. */
  ghost predicate Registry(txns: seq<Txn>, counter: int) {
    Unique(txns) && forall i | 0 <= i < |txns| :: Timely(txns[i], counter)
  }
}
