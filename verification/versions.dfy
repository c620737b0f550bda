/** The version store of mvcc/lib.py: `TransactionItem` records kept, per
    item label, in a chain in the order they were added (`VersionControl`).

    The source tells versions apart by object identity (`list.remove`); the
    model gives each version an `id` that the engine draws from a counter. */
module Versions {
  import opened Outcomes

  datatype Version = Version(id: nat, name: string, version: int, readTs: int, writeTs: int, dependents: seq<int>)

  type Store = map<string, seq<Version>>

  /** `TransactionItem(label)`: version, read and write timestamps 0, no dependents. */
  function Fresh(id: nat, name: string): Version {
    Version(id, name, 0, 0, 0, [])
  }

  /** The chain of a label, empty when the label is not in the store. */
  function Chain(vc: Store, name: string): seq<Version> {
    if name in vc then vc[name] else []
  }

  /** `add_new_version(item)`: a new label gets the one-version chain
      `[item]`, a known label gets `item` at the end of its chain. */
  function AddNewVersion(vc: Store, v: Version): (r: Store)
    ensures r.Keys == vc.Keys + {v.name}
    ensures r[v.name] == Chain(vc, v.name) + [v]
    ensures forall n | n in vc && n != v.name :: r[n] == vc[n]
  {
    if v.name !in vc then vc[v.name := [v]] else vc[v.name := vc[v.name] + [v]]
  }

  /** `get(label)`: the chain of a known label; an unknown one is the
      KeyError of the source. */
  function Get(vc: Store, name: string): (r: Result<seq<Version>>)
    ensures r.Ok? <==> name in vc
    ensures r.Ok? ==> r.value == vc[name]
  {
    if name in vc then Ok(vc[name]) else Err(MissingKey)
  }

  /** `get` after `add_new_version` sees the added version last, and every
      other label as before. */
  lemma GetAfterAdd(vc: Store, v: Version, name: string)
    ensures Get(AddNewVersion(vc, v), v.name) == Ok(Chain(vc, v.name) + [v])
    ensures name != v.name ==> Get(AddNewVersion(vc, v), name) == Get(vc, name)
  {
  }

  /** No two versions of a chain share an id. */
  predicate Distinct(c: seq<Version>) {
    forall i, j | 0 <= i < j < |c| :: c[i].id != c[j].id
  }

  predicate HasId(c: seq<Version>, id: nat) {
    exists i | 0 <= i < |c| :: c[i].id == id
  }

  /** The position of the first version with `id`, `|c|` when there is none. */
  function Position(c: seq<Version>, id: nat): (r: nat)
    ensures r <= |c|
    ensures r < |c| <==> HasId(c, id)
    ensures r < |c| ==> c[r].id == id
    ensures forall j | 0 <= j < r :: c[j].id != id
  {
    if |c| == 0 then 0
    else if c[0].id == id then 0
    else
      var k := Position(c[1..], id);
      assert HasId(c[1..], id) ==> HasId(c, id) by {
        if HasId(c[1..], id) {
          var i :| 0 <= i < |c[1..]| && c[1..][i].id == id;
          assert c[i + 1].id == id;
        }
      }
      assert HasId(c, id) ==> HasId(c[1..], id) by {
        if HasId(c, id) {
          var i :| 0 <= i < |c| && c[i].id == id;
          assert i > 0 && c[1..][i - 1].id == id;
        }
      }
      1 + k
  }

  /** Cutting position `k` out of a chain: what is left is the rest of the
      chain in order, and a chain without repeated ids keeps that property
      and loses the id at `k`. */
  lemma CutAt(c: seq<Version>, k: nat)
    requires k < |c|
    ensures var r := c[..k] + c[k + 1..];
            && |r| == |c| - 1
            && (forall i | 0 <= i < |r| :: r[i] == (if i < k then c[i] else c[i + 1]))
            && (forall v | v in r :: v in c)
            && (forall v | v in c && v != c[k] :: v in r)
            && (Distinct(c) ==> Distinct(r) && !HasId(r, c[k].id))
  {
    var r := c[..k] + c[k + 1..];
    assert forall i | 0 <= i < |r| :: r[i] == (if i < k then c[i] else c[i + 1]);
    forall v | v in c && v != c[k] ensures v in r {
      var i :| 0 <= i < |c| && c[i] == v;
      if i < k { assert r[i] == v; } else { assert r[i - 1] == v; }
    }
  }

  /** `versions.remove(item)` where the item is known by its id: the first
      version with that id leaves the chain; an id that is not there is the
      ValueError of the source. */
  function RemoveId(c: seq<Version>, id: nat): (r: Result<seq<Version>>)
    ensures r.Ok? <==> HasId(c, id)
    ensures r.Ok? ==> |r.value| == |c| - 1
    ensures r.Ok? ==> forall v | v in r.value :: v in c
    ensures r.Ok? && Distinct(c) ==> Distinct(r.value) && !HasId(r.value, id)
    ensures r.Ok? && Distinct(c) ==> forall v | v in c && v.id != id :: v in r.value
  {
    var k := Position(c, id);
    if k == |c| then Err(StaleVersion)
    else
      CutAt(c, k);
      Ok(c[..k] + c[k + 1..])
  }
}
