/** The cart reducers shared by lib/store/useCartStore.ts and lib/contexts/CartContext.tsx: both
    compute the next cart from the previous one by the same expressions. A cart is a list of
    wine ids with quantities. */
module Cart {
  import opened Basics

  datatype CartItem = CartItem(id: string, quantity: int)

  /** `cart.some(item => item.id === id)`. */
  predicate HasId(cart: seq<CartItem>, id: string) {
    exists i :: 0 <= i < |cart| && cart[i].id == id
  }

  /** The invariant the reducers keep: one entry per id, each with a positive quantity. */
  predicate ValidCart(cart: seq<CartItem>) {
    && (forall i, j :: 0 <= i < j < |cart| ==> cart[i].id != cart[j].id)
    && (forall i :: 0 <= i < |cart| ==> cart[i].quantity > 0)
  }

  /** `reduce((total, item) => total + item.quantity, 0)`. */
  function Count(cart: seq<CartItem>): (r: int)
    ensures (forall i :: 0 <= i < |cart| ==> cart[i].quantity > 0) ==> r >= |cart|
    ensures cart == [] ==> r == 0
    decreases |cart|
  {
    if cart == [] then 0 else Count(cart[..|cart| - 1]) + cart[|cart| - 1].quantity
  }

  lemma {:induction false} CountAppend(a: seq<CartItem>, b: seq<CartItem>)
    ensures Count(a + b) == Count(a) + Count(b)
    decreases |b|
  {
    if b == [] {
      assert a + b == a;
    } else {
      assert (a + b)[..|a + b| - 1] == a + b[..|b| - 1];
      CountAppend(a, b[..|b| - 1]);
    }
  }

  lemma CountOne(x: CartItem)
    ensures Count([x]) == x.quantity
  {
    assert [x][..0] == [];
  }

  /** `addToCart(id)`: an id already present has its quantity raised by one, in place; a new id
      is appended with quantity 1. */
  function AddedToCart(cart: seq<CartItem>, id: string): (r: seq<CartItem>)
    ensures HasId(cart, id) ==> |r| == |cart| && forall i :: 0 <= i < |cart| ==>
              r[i] == if cart[i].id == id then CartItem(id, cart[i].quantity + 1) else cart[i]
    ensures !HasId(cart, id) ==> r == cart + [CartItem(id, 1)]
    ensures ValidCart(cart) ==> ValidCart(r)
    ensures HasId(r, id)
  {
    if HasId(cart, id) then
      seq(|cart|, i requires 0 <= i < |cart| =>
            if cart[i].id == id then CartItem(id, cart[i].quantity + 1) else cart[i])
    else
      var r := cart + [CartItem(id, 1)];
      assert r[|cart|].id == id;
      r
  }

  /** `removeFromCart(id)`: `filter(item => item.id !== id)`. */
  function RemovedFromCart(cart: seq<CartItem>, id: string): (r: seq<CartItem>)
    ensures forall x :: x in r <==> x in cart && x.id != id
    ensures !HasId(r, id)
    ensures ValidCart(cart) ==> ValidCart(r)
  {
    var keep := (x: CartItem) => x.id != id;
    var r := Filter(cart, keep);
    assert forall i :: 0 <= i < |r| ==> r[i] in r;
    if ValidCart(cart) then ValidIdsFilter(cart, keep); r else r
  }

  /** Removal keeps the other entries where they were: an entry anywhere in the cart goes or
      stays in its place. */
  lemma RemovedInOrder(a: seq<CartItem>, x: CartItem, b: seq<CartItem>, id: string)
    ensures RemovedFromCart(a + [x] + b, id) == RemovedFromCart(a, id) + (if x.id != id then [x] else []) + RemovedFromCart(b, id)
  {
    FilterInOrder(a, x, b, (x: CartItem) => x.id != id);
  }

  /** The one entry with the id goes, and the entries around it stay, in their order. */
  lemma RemoveTheEntry(a: seq<CartItem>, x: CartItem, b: seq<CartItem>, id: string)
    requires x.id == id && !HasId(a, id) && !HasId(b, id)
    ensures RemovedFromCart(a + [x] + b, id) == a + b
  {
    FilterDropOne(a, x, b, (x: CartItem) => x.id != id);
  }

  /** Every copy of an entry with another id stays; no entry with the id does. */
  lemma RemovedCount(cart: seq<CartItem>, id: string, x: CartItem)
    ensures multiset(RemovedFromCart(cart, id))[x] == if x.id != id then multiset(cart)[x] else 0
  {
    FilterCount(cart, (x: CartItem) => x.id != id, x);
  }

  /** One entry after `item.quantity + delta` floored at 0 by `Math.max`. */
  function Adjusted(item: CartItem, id: string, delta: int): (r: CartItem)
    ensures r.id == item.id
    ensures item.id == id ==> r.quantity == if item.quantity + delta > 0 then item.quantity + delta else 0
    ensures item.id != id ==> r == item
  {
    if item.id == id then CartItem(item.id, if 0 > item.quantity + delta then 0 else item.quantity + delta)
    else item
  }

  /** The `map` step of `updateQuantity`. */
  function AdjustAll(cart: seq<CartItem>, id: string, delta: int): (r: seq<CartItem>)
    ensures |r| == |cart|
    ensures forall i :: 0 <= i < |cart| ==> r[i] == Adjusted(cart[i], id, delta)
  {
    seq(|cart|, i requires 0 <= i < |cart| => Adjusted(cart[i], id, delta))
  }

  /** `updateQuantity(id, delta)`: the entry is adjusted, then every entry whose quantity is not
      positive is dropped. */
  function UpdatedQuantity(cart: seq<CartItem>, id: string, delta: int): (r: seq<CartItem>)
    ensures forall x :: x in r <==> x in AdjustAll(cart, id, delta) && x.quantity > 0
    ensures ValidCart(cart) ==> ValidCart(r)
  {
    var adjusted := AdjustAll(cart, id, delta);
    var keep := (x: CartItem) => x.quantity > 0;
    assert ValidCart(cart) ==> ValidCart(Filter(adjusted, keep)) by {
      if ValidCart(cart) {
        assert forall i, j :: 0 <= i < j < |adjusted| ==> adjusted[i].id == cart[i].id && adjusted[j].id == cart[j].id;
        var positive := Filter(adjusted, keep);
        assert forall i :: 0 <= i < |positive| ==> positive[i] in positive;
        ValidIdsFilter(adjusted, keep);
      }
    }
    Filter(adjusted, keep)
  }

  /** The update works entry by entry in cart order: each adjusted entry stays in its place when
      its quantity is positive and goes otherwise. */
  lemma UpdatedInOrder(a: seq<CartItem>, x: CartItem, b: seq<CartItem>, id: string, delta: int)
    ensures var y := Adjusted(x, id, delta);
            UpdatedQuantity(a + [x] + b, id, delta)
            == UpdatedQuantity(a, id, delta) + (if y.quantity > 0 then [y] else []) + UpdatedQuantity(b, id, delta)
  {
    assert AdjustAll(a + [x] + b, id, delta) == AdjustAll(a, id, delta) + [Adjusted(x, id, delta)] + AdjustAll(b, id, delta);
    FilterInOrder(AdjustAll(a, id, delta), Adjusted(x, id, delta), AdjustAll(b, id, delta), (x: CartItem) => x.quantity > 0);
  }

  /** Every copy of an adjusted entry with a positive quantity stays; none of the others does. */
  lemma UpdatedCount(cart: seq<CartItem>, id: string, delta: int, x: CartItem)
    ensures multiset(UpdatedQuantity(cart, id, delta))[x] ==
              if x.quantity > 0 then multiset(AdjustAll(cart, id, delta))[x] else 0
  {
    FilterCount(AdjustAll(cart, id, delta), (x: CartItem) => x.quantity > 0, x);
  }

  /** Filtering a list with unique ids down to positive quantities gives a valid cart. */
  lemma ValidIdsFilter(s: seq<CartItem>, keep: CartItem -> bool)
    requires forall i, j :: 0 <= i < j < |s| ==> s[i].id != s[j].id
    requires forall x :: x in s && keep(x) ==> x.quantity > 0
    ensures ValidCart(Filter(s, keep))
  {
    UniqueIdsFilter(s, keep);
    var r := Filter(s, keep);
    assert forall i :: 0 <= i < |r| ==> r[i] in r;
  }

  lemma {:induction false} UniqueIdsFilter(s: seq<CartItem>, keep: CartItem -> bool)
    requires forall i, j :: 0 <= i < j < |s| ==> s[i].id != s[j].id
    ensures forall i, j :: 0 <= i < j < |Filter(s, keep)| ==> Filter(s, keep)[i].id != Filter(s, keep)[j].id
    decreases |s|
  {
    if s != [] {
      var tail := s[1..];
      forall i, j | 0 <= i < j < |tail| ensures tail[i].id != tail[j].id {
        assert tail[i] == s[i + 1] && tail[j] == s[j + 1];
      }
      UniqueIdsFilter(tail, keep);
      var rest := Filter(tail, keep);
      if keep(s[0]) {
        forall k | 0 <= k < |rest| ensures rest[k].id != s[0].id {
          assert rest[k] in rest;
          var m :| 0 <= m < |tail| && tail[m] == rest[k];
          assert s[m + 1] == tail[m];
        }
        UniqueIdsCons(s[0], rest);
      }
    }
  }

  /** An entry whose id is not among a list of unique ids can go in front of it. */
  lemma UniqueIdsCons(x: CartItem, rest: seq<CartItem>)
    requires forall i, j :: 0 <= i < j < |rest| ==> rest[i].id != rest[j].id
    requires forall k :: 0 <= k < |rest| ==> rest[k].id != x.id
    ensures forall i, j :: 0 <= i < j < |[x] + rest| ==> ([x] + rest)[i].id != ([x] + rest)[j].id
  {
    var r := [x] + rest;
    forall i, j | 0 <= i < j < |r| ensures r[i].id != r[j].id {
      assert r[j] == rest[j - 1];
      if i > 0 {
        assert r[i] == rest[i - 1];
      }
    }
  }

  /** Adding raises the bottle count by exactly one, on a cart with one entry per id. */
  lemma AddRaisesCount(cart: seq<CartItem>, id: string)
    requires ValidCart(cart)
    ensures Count(AddedToCart(cart, id)) == Count(cart) + 1
  {
    var r := AddedToCart(cart, id);
    if HasId(cart, id) {
      var k :| 0 <= k < |cart| && cart[k].id == id;
      CountBump(cart, r, k);
    } else {
      CountAppend(cart, [CartItem(id, 1)]);
      CountOne(CartItem(id, 1));
    }
  }

  /** Two lists equal but for one entry whose quantity grew by one differ by one in count. */
  lemma {:induction false} CountBump(a: seq<CartItem>, b: seq<CartItem>, k: nat)
    requires |a| == |b| && k < |a|
    requires b[k].quantity == a[k].quantity + 1
    requires forall i :: 0 <= i < |a| && i != k ==> b[i] == a[i]
    ensures Count(b) == Count(a) + 1
    decreases |a|
  {
    var n := |a| - 1;
    if k == n {
      assert a[..n] == b[..n];
    } else {
      CountBump(a[..n], b[..n], k);
    }
  }

  /** An entry driven to zero or below disappears; one that stays positive holds the new
      quantity. */
  lemma UpdateRemovesOrSets(cart: seq<CartItem>, id: string, delta: int, k: nat)
    requires ValidCart(cart) && k < |cart| && cart[k].id == id
    ensures cart[k].quantity + delta <= 0 ==> !HasId(UpdatedQuantity(cart, id, delta), id)
    ensures cart[k].quantity + delta > 0 ==> CartItem(id, cart[k].quantity + delta) in UpdatedQuantity(cart, id, delta)
  {
    var adjusted := AdjustAll(cart, id, delta);
    var r := UpdatedQuantity(cart, id, delta);
    forall x | x in r && x.id == id ensures x == CartItem(id, cart[k].quantity + delta) && cart[k].quantity + delta > 0 {
      var i :| 0 <= i < |adjusted| && adjusted[i] == x;
      assert cart[i].id == id;
      assert i == k;
    }
    assert forall i :: 0 <= i < |r| ==> r[i] in r;
    assert adjusted[k] in adjusted;
  }

  /** Two bottles and a change of -2: the entry is gone. */
  lemma UpdateToZero(id: string)
    ensures UpdatedQuantity([CartItem(id, 2)], id, -2) == []
  {
    var adjusted := AdjustAll([CartItem(id, 2)], id, -2);
    assert adjusted == [CartItem(id, 0)];
    assert adjusted[1..] == [];
  }

  /** Changing the quantity of an absent id leaves a valid cart as it is. */
  lemma UpdateAbsent(cart: seq<CartItem>, id: string, delta: int)
    requires ValidCart(cart) && !HasId(cart, id)
    ensures UpdatedQuantity(cart, id, delta) == cart
  {
    assert AdjustAll(cart, id, delta) == cart;
    FilterAllKept(cart, (x: CartItem) => x.quantity > 0);
  }

  /** Removing an absent id is a no-op. */
  lemma RemoveAbsent(cart: seq<CartItem>, id: string)
    requires !HasId(cart, id)
    ensures RemovedFromCart(cart, id) == cart
  {
    FilterAllKept(cart, (x: CartItem) => x.id != id);
  }
}
