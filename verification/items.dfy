/**
  The inventory's records and the read-only lookups the operations build on:
  `inventory.find` by id and by name, `Math.max(...inventory.map(i => i.id)) + 1`
  and `inventory.filter(i => i.id !== itemId)`.
 */
module Items {
  import opened Wrappers
  import opened Text

  /** One inventory record `{id, name, quantity}`. */
  datatype Item = Item(id: int, name: string, quantity: int)

  /** No two records share an id. */
  predicate DistinctIds(items: seq<Item>) {
    forall i, j :: 0 <= i < j < |items| ==> items[i].id != items[j].id
  }

  /** No two records share a name, compared case-insensitively. */
  predicate DistinctNames(items: seq<Item>) {
    forall i, j :: 0 <= i < j < |items| ==> !SameName(items[i].name, items[j].name)
  }

  /** No record holds a negative quantity. */
  predicate NonNegative(items: seq<Item>) {
    forall i :: 0 <= i < |items| ==> items[i].quantity >= 0
  }

  /** `inventory.find(i => i.id === id)`, as a position: the first record with that id,
      or none when no record has it. */
  function IndexOfId(items: seq<Item>, id: int): (r: Option<nat>)
    ensures r.Some? ==> r.value < |items| && items[r.value].id == id
    ensures r.Some? ==> forall j :: 0 <= j < r.value ==> items[j].id != id
    ensures r.None? ==> forall j :: 0 <= j < |items| ==> items[j].id != id
  {
    if items == [] then None
    else if items[0].id == id then Some(0)
    else match IndexOfId(items[1..], id)
      case Some(k) => Some(k + 1)
      case None => None
  }

  /** `inventory.find(item => item.name.toLowerCase() === name.toLowerCase())`, as a
      position: the first record whose name matches, or none. */
  function IndexOfName(items: seq<Item>, name: string): (r: Option<nat>)
    ensures r.Some? ==> r.value < |items| && SameName(items[r.value].name, name)
    ensures r.Some? ==> forall j :: 0 <= j < r.value ==> !SameName(items[j].name, name)
    ensures r.None? ==> forall j :: 0 <= j < |items| ==> !SameName(items[j].name, name)
  {
    if items == [] then None
    else if SameName(items[0].name, name) then Some(0)
    else match IndexOfName(items[1..], name)
      case Some(k) => Some(k + 1)
      case None => None
  }

  /** `Math.max(...inventory.map(i => i.id))`: an id some record has, and no record
      has a larger one. */
  function MaxId(items: seq<Item>): (m: int)
    requires items != []
    ensures forall i :: 0 <= i < |items| ==> items[i].id <= m
    ensures exists i :: 0 <= i < |items| && items[i].id == m
  {
    if |items| == 1 then items[0].id
    else
      var rest := MaxId(items[1..]);
      if items[0].id >= rest then items[0].id else rest
  }

  /** The id `addNewItem` gives a new record: one past the largest id, or 1 for an
      empty inventory. It is larger than, hence different from, every existing id. */
  function NextId(items: seq<Item>): (r: int)
    ensures forall i :: 0 <= i < |items| ==> items[i].id < r
    ensures items == [] ==> r == 1
    ensures items != [] ==> exists i :: 0 <= i < |items| && items[i].id == r - 1
  {
    if |items| > 0 then MaxId(items) + 1 else 1
  }

  /** `inventory.filter(i => i.id !== id)`: exactly the records without that id are
      kept, and nothing changes when no record has it. */
  function WithoutId(items: seq<Item>, id: int): (r: seq<Item>)
    ensures forall x :: x in r <==> x in items && x.id != id
    ensures (forall j :: 0 <= j < |items| ==> items[j].id != id) ==> r == items
    ensures |r| <= |items|
  {
    if items == [] then []
    else
      var rest := WithoutId(items[1..], id);
      assert items == [items[0]] + items[1..];
      if items[0].id == id then rest else [items[0]] + rest
  }

  /** The write `item.quantity = q` on the record at position `k`: that record gets the
      new quantity and keeps its id and name; every other record stays. */
  function WithQuantity(items: seq<Item>, k: nat, q: int): (r: seq<Item>)
    requires k < |items|
    ensures |r| == |items|
    ensures r[k] == Item(items[k].id, items[k].name, q)
    ensures forall j :: 0 <= j < |items| && j != k ==> r[j] == items[j]
  {
    items[k := items[k].(quantity := q)]
  }

  /** Overwriting one quantity keeps ids and names distinct, and keeps quantities
      non-negative when the new one is. */
  lemma WithQuantityPreserves(items: seq<Item>, k: nat, q: int)
    requires k < |items|
    ensures DistinctIds(items) ==> DistinctIds(WithQuantity(items, k, q))
    ensures DistinctNames(items) ==> DistinctNames(WithQuantity(items, k, q))
    ensures NonNegative(items) && q >= 0 ==> NonNegative(WithQuantity(items, k, q))
  {
    var r := WithQuantity(items, k, q);
    assert forall j :: 0 <= j < |items| ==> r[j].id == items[j].id && r[j].name == items[j].name;
  }

  /** Appending a record keeps ids distinct when its id is new, names distinct when its
      name matches none, and quantities non-negative when its quantity is. */
  lemma AppendPreserves(items: seq<Item>, x: Item)
    ensures DistinctIds(items) && (forall j :: 0 <= j < |items| ==> items[j].id != x.id)
            ==> DistinctIds(items + [x])
    ensures DistinctNames(items) && (forall j :: 0 <= j < |items| ==> !SameName(items[j].name, x.name))
            ==> DistinctNames(items + [x])
    ensures NonNegative(items) && x.quantity >= 0 ==> NonNegative(items + [x])
  {
    var r := items + [x];
    assert forall j :: 0 <= j < |items| ==> r[j] == items[j];
    assert r[|items|] == x;
  }

  /** Filtering out an id that some record has makes the list shorter. */
  lemma {:induction false} WithoutIdShrinks(items: seq<Item>, id: int)
    requires exists j :: 0 <= j < |items| && items[j].id == id
    ensures |WithoutId(items, id)| < |items|
  {
    if items[0].id != id {
      var j :| 0 <= j < |items| && items[j].id == id;
      assert items[1..][j - 1].id == id;
      WithoutIdShrinks(items[1..], id);
    }
  }

  /** `r` can be obtained from `s` by deleting elements, so it lists what it keeps of `s`
      in the same relative order. */
  ghost predicate SubsequenceOf(r: seq<Item>, s: seq<Item>)
    decreases |s|
  {
    if r == [] then true
    else if s == [] then false
    else (r[0] == s[0] && SubsequenceOf(r[1..], s[1..])) || SubsequenceOf(r, s[1..])
  }

  /** Filtering out an id keeps the remaining records in their relative order. */
  lemma {:induction false} WithoutIdKeepsOrder(items: seq<Item>, id: int)
    ensures SubsequenceOf(WithoutId(items, id), items)
  {
    if items != [] {
      WithoutIdKeepsOrder(items[1..], id);
      var r := WithoutId(items, id);
      if items[0].id != id {
        assert r[0] == items[0] && r[1..] == WithoutId(items[1..], id);
      }
    }
  }

  /** Filtering distributes over concatenation: each part of the inventory is filtered
      on its own and the parts stay in place. */
  lemma {:induction false} WithoutIdAppend(a: seq<Item>, b: seq<Item>, id: int)
    ensures WithoutId(a + b, id) == WithoutId(a, id) + WithoutId(b, id)
  {
    if a == [] {
      assert a + b == b;
    } else {
      assert (a + b)[0] == a[0] && (a + b)[1..] == a[1..] + b;
      WithoutIdAppend(a[1..], b, id);
    }
  }

  /** Filtering keeps the three inventory invariants. */
  lemma WithoutIdPreserves(items: seq<Item>, id: int)
    ensures DistinctIds(items) ==> DistinctIds(WithoutId(items, id))
    ensures DistinctNames(items) ==> DistinctNames(WithoutId(items, id))
    ensures NonNegative(items) ==> NonNegative(WithoutId(items, id))
  {
    if DistinctIds(items) { WithoutIdKeepsDistinctIds(items, id); }
    if DistinctNames(items) { WithoutIdKeepsDistinctNames(items, id); }
    if NonNegative(items) {
      var r := WithoutId(items, id);
      forall k | 0 <= k < |r| ensures r[k].quantity >= 0 {
        assert r[k] in items;
      }
    }
  }

  lemma {:induction false} WithoutIdKeepsDistinctIds(items: seq<Item>, id: int)
    requires DistinctIds(items)
    ensures DistinctIds(WithoutId(items, id))
  {
    if items != [] {
      var tail := items[1..];
      WithoutIdKeepsDistinctIds(tail, id);
      if items[0].id != id {
        forall y | y in tail ensures y.id != items[0].id {
          var q :| 0 <= q < |tail| && tail[q] == y;
          assert items[q + 1] == y;
        }
        ConsKeepsDistinctIds(items[0], WithoutId(tail, id), tail);
      }
    }
  }

  lemma ConsKeepsDistinctIds(x: Item, rest: seq<Item>, tail: seq<Item>)
    requires DistinctIds(rest)
    requires forall y :: y in rest ==> y in tail
    requires forall y :: y in tail ==> y.id != x.id
    ensures DistinctIds([x] + rest)
  {
    var r := [x] + rest;
    forall i, j | 0 <= i < j < |r| ensures r[i].id != r[j].id {
      assert r[j] == rest[j - 1] && r[j] in rest;
      if i > 0 { assert r[i] == rest[i - 1]; }
    }
  }

  lemma {:induction false} WithoutIdKeepsDistinctNames(items: seq<Item>, id: int)
    requires DistinctNames(items)
    ensures DistinctNames(WithoutId(items, id))
  {
    if items != [] {
      var tail := items[1..];
      WithoutIdKeepsDistinctNames(tail, id);
      if items[0].id != id {
        forall y | y in tail ensures !SameName(items[0].name, y.name) {
          var q :| 0 <= q < |tail| && tail[q] == y;
          assert items[q + 1] == y;
        }
        ConsKeepsDistinctNames(items[0], WithoutId(tail, id), tail);
      }
    }
  }

  lemma ConsKeepsDistinctNames(x: Item, rest: seq<Item>, tail: seq<Item>)
    requires DistinctNames(rest)
    requires forall y :: y in rest ==> y in tail
    requires forall y :: y in tail ==> !SameName(x.name, y.name)
    ensures DistinctNames([x] + rest)
  {
    var r := [x] + rest;
    forall i, j | 0 <= i < j < |r| ensures !SameName(r[i].name, r[j].name) {
      assert r[j] == rest[j - 1] && r[j] in rest;
      if i > 0 { assert r[i] == rest[i - 1]; }
    }
  }
}
