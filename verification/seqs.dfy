/** Small list operations the source performs with Python built-ins. */
module Seqs {
  import opened Outcomes

  /** No element occurs twice. */
  predicate NoDup<T(==)>(s: seq<T>) {
    forall i, j | 0 <= i < j < |s| :: s[i] != s[j]
  }

  /** `list.index(x)`: the position of the first `x`, or `|s|` when there is none. */
  function IndexOf<T(==)>(s: seq<T>, x: T): (r: nat)
    ensures r <= |s|
    ensures r < |s| <==> x in s
    ensures r < |s| ==> s[r] == x
    ensures forall j | 0 <= j < r :: s[j] != x
  {
    if |s| == 0 then 0
    else if s[0] == x then 0
    else 1 + IndexOf(s[1..], x)
  }

  /** The position of the first element whose `key` is `t`: the lookup loop
      the engines run over their lists of transaction records. */
  function FirstWith<T>(s: seq<T>, key: T -> int, t: int): (r: Option<nat>)
    ensures r.Some? ==> r.value < |s| && key(s[r.value]) == t
    ensures r.Some? ==> forall j | 0 <= j < r.value :: key(s[j]) != t
    ensures r.None? <==> forall j | 0 <= j < |s| :: key(s[j]) != t
  {
    if |s| == 0 then None
    else if key(s[0]) == t then Some(0)
    else
      match FirstWith(s[1..], key, t)
      case None => None
      case Some(k) => Some(k + 1)
  }

  /** The first occurrence of `x` in `p + [x] + rest` is right after `p`
      when `p` does not hold `x`. */
  lemma IndexOfPast<T>(p: seq<T>, x: T, rest: seq<T>)
    requires x !in p
    ensures IndexOf(p + [x] + rest, x) == |p|
  {
    var s := p + [x] + rest;
    assert s[|p|] == x;
    assert forall j | 0 <= j < |p| :: s[j] == p[j];
  }

  /** `list.remove(x)` on a list that may not hold `x`: drops the first `x` only. */
  function RemoveFirst<T(==)>(s: seq<T>, x: T): (r: seq<T>)
    ensures x in s ==> r == s[..IndexOf(s, x)] + s[IndexOf(s, x) + 1..]
    ensures x in s ==> multiset(r) == multiset(s) - multiset{x}
    ensures x !in s ==> r == s
    ensures forall y | y in r :: y in s
  {
    if x in s then
      var k := IndexOf(s, x);
      assert s == s[..k] + [s[k]] + s[k + 1..];
      s[..k] + s[k + 1..]
    else s
  }

  /** `if x not in s: s.append(x)`, the source's way of keeping a duplicate-free list. */
  function AddAbsent<T(==)>(s: seq<T>, x: T): (r: seq<T>)
    ensures x in r
    ensures forall i | 0 <= i < |s| :: s[i] in r
    ensures forall i | 0 <= i < |r| :: r[i] in s || r[i] == x
    ensures x in s ==> r == s
    ensures x !in s ==> r == s + [x]
    ensures NoDup(s) ==> NoDup(r)
  {
    if x in s then s else s + [x]
  }
}
