/** The `Operation` parser that mvcc/lib.py and occ/Lib.py share: a log line
    such as `R12(A)` is split at `(`; the letter is the first character, the
    transaction number the rest of the text before the first `(`, and the
    item, when there is a `(`, the text after it up to the next `(` (or the
    end) with its last character, the closing parenthesis, dropped. */
module Operations {
  import opened Outcomes
  import opened Seqs
  import opened Text

  datatype Op = Op(kind: char, tnum: int, item: Option<string>)

  /** `s[:-1]`. */
  function DropLast(s: string): (r: string)
    ensures |s| > 0 ==> r == s[..|s| - 1]
    ensures |s| == 0 ==> r == s
  {
    if |s| == 0 then s else s[..|s| - 1]
  }

  /** `Operation(line)`: the number is the text between the letter and the
      first `(`, and the item the text from there to the next `(` (or the
      end) without its last character. An empty line or a number that
      `int()` rejects is `Malformed`, where the source raises. */
  function Parse(s: string): (r: Result<Op>)
    ensures var k := IndexOf(s, '(');
            r.Ok? <==> 0 < k && ParseInt(s[1..k]).Some?
    ensures r.Ok? ==> |s| > 0 && r.value.kind == s[0]
    ensures r.Ok? ==> r.value.tnum == ParseInt(s[1..IndexOf(s, '(')]).value
    ensures r.Ok? ==> (r.value.item.Some? <==> '(' in s)
    ensures r.Ok? && '(' in s ==>
              var rest := s[IndexOf(s, '(') + 1..];
              r.value.item == Some(DropLast(rest[..IndexOf(rest, '(')]))
    ensures r.Ok? && r.value.item.Some? ==> '(' !in r.value.item.value
  {
    if |s| == 0 then Err(Malformed)
    else
      var pieces := Split(s, '(');
      var head := pieces[0];
      assert |head| > 0 ==> head[1..] == s[1..IndexOf(s, '(')];
      match ParseInt(if |head| == 0 then "" else head[1..])
      case None => Err(Malformed)
      case Some(n) => Ok(Op(s[0], n, if |pieces| > 1 then Some(DropLast(pieces[1])) else None))
  }

  /** The log line of an operation: the partner of `Parse`. */
  function Render(op: Op): string
    requires op.tnum >= 0
  {
    [op.kind] + Decimal(op.tnum) + (if op.item.Some? then "(" + op.item.value + ")" else "")
  }

  /** An operation that a log line can carry: a letter other than `(`, a
      non-negative number, and an item without `(`. */
  predicate Printable(op: Op) {
    op.kind != '(' && op.tnum >= 0 && (op.item.Some? ==> '(' !in op.item.value)
  }

  /** A read or write line `Op + decimal(n) + "(" + L + ")"` parses back to
      its letter, its number and item L. */
  lemma {:induction false} ParseAccess(k: char, n: nat, name: string)
    requires k != '(' && '(' !in name
    ensures Parse([k] + Decimal(n) + "(" + name + ")") == Ok(Op(k, n, Some(name)))
  {
    var d := Decimal(n);
    var s := [k] + d + "(" + name + ")";
    assert '(' !in d by {
      assert forall i | 0 <= i < |d| :: IsDigit(d[i]);
    }
    assert s[1 + |d|] == '(';
    assert IndexOf(s, '(') == 1 + |d| by {
      assert forall j | 0 <= j < 1 + |d| :: s[j] == ([k] + d)[j];
    }
    assert s[..1 + |d|] == [k] + d;
    var tail := s[1 + |d| + 1..];
    assert tail == name + ")";
    assert '(' !in tail;
    assert Split(s, '(') == [[k] + d, name + ")"];
    assert ([k] + d)[1..] == d;
    ParseDecimal(n);
    assert DropLast(name + ")") == name;
  }

  /** A commit line `Op + decimal(n)` parses to its letter and number, with no item. */
  lemma {:induction false} ParseCommit(k: char, n: nat)
    requires k != '('
    ensures Parse([k] + Decimal(n)) == Ok(Op(k, n, None))
  {
    var d := Decimal(n);
    var s := [k] + d;
    assert '(' !in s by {
      assert forall i | 0 <= i < |d| :: IsDigit(d[i]);
      assert forall i | 1 <= i < |s| :: s[i] == d[i - 1];
    }
    assert Split(s, '(') == [s];
    assert s[1..] == d;
    ParseDecimal(n);
  }

  /** Parsing is a left inverse of rendering. */
  lemma ParseRender(op: Op)
    requires Printable(op)
    ensures Parse(Render(op)) == Ok(op)
  {
    if op.item.Some? {
      ParseAccess(op.kind, op.tnum, op.item.value);
      assert Render(op) == [op.kind] + Decimal(op.tnum) + "(" + op.item.value + ")";
    } else {
      ParseCommit(op.kind, op.tnum);
      assert Render(op) == [op.kind] + Decimal(op.tnum);
    }
  }
}
