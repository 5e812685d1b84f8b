/** The wishlist toggle shared by lib/store/useWishlistStore.ts and lib/WishlistContext.tsx: the
    list of liked wine ids, to which a click adds an absent id and from which it removes a
    present one. */
module Wishlist {
  import opened Basics

  /** `includes(id) ? filter(x => x !== id) : [...list, id]`. */
  function Toggled(list: seq<string>, id: string): (r: seq<string>)
    ensures id !in list ==> r == list + [id]
    ensures id in list ==> forall x :: x in r <==> x in list && x != id
    ensures id in r <==> id !in list
  {
    if id in list then Filter(list, (x: string) => x != id) else list + [id]
  }

  /** A removal keeps the other ids in their order. */
  lemma ToggleRemovesInOrder(a: seq<string>, id: string, b: seq<string>)
    requires id !in a && id !in b
    ensures Toggled(a + [id] + b, id) == a + b
  {
    var keep := (x: string) => x != id;
    var s := a + [id] + b;
    assert s[|a|] == id;
    assert Toggled(s, id) == Filter(s, keep);
    FilterAppend(a + [id], b, keep);
    FilterAppend(a, [id], keep);
    assert forall i :: 0 <= i < |a| ==> keep(a[i]) by {
      assert forall i :: 0 <= i < |a| ==> a[i] in a;
    }
    assert forall i :: 0 <= i < |b| ==> keep(b[i]) by {
      assert forall i :: 0 <= i < |b| ==> b[i] in b;
    }
    FilterAllKept(a, keep);
    FilterAllKept(b, keep);
    assert Filter([id], keep) == [] by {
      assert [id][1..] == [];
    }
    assert Filter(a + [id], keep) == a;
    assert Filter(s, keep) == a + b;
  }

  /** Two clicks on the same id restore its membership, and give back the very list when the id
      was absent at first. */
  lemma ToggleTwice(list: seq<string>, id: string)
    ensures (id in Toggled(Toggled(list, id), id)) <==> id in list
    ensures id !in list ==> Toggled(Toggled(list, id), id) == list
  {
    if id !in list {
      ToggleRemovesInOrder(list, id, []);
      assert list + [id] + [] == list + [id];
      assert list + [] == list;
    }
  }

  /** A toggle keeps a list free of repeated ids. */
  lemma ToggleKeepsDistinct(list: seq<string>, id: string)
    requires AllDistinct(list)
    ensures AllDistinct(Toggled(list, id))
  {
    var r := Toggled(list, id);
    if id in list {
      var keep := (x: string) => x != id;
      forall x ensures multiset(r)[x] <= 1 {
        FilterCount(list, keep, x);
        DistinctCount(list, x);
      }
      forall i, j | 0 <= i < j < |r| ensures r[i] != r[j] {
        var x := r[j];
        assert r == r[..j] + r[j..];
        assert x in r[j..];
        assert multiset(r)[x] == multiset(r[..j])[x] + multiset(r[j..])[x];
        assert x !in r[..j];
        assert r[i] == r[..j][i];
      }
    } else {
      forall i, j | 0 <= i < j < |r| ensures r[i] != r[j] {
        if j == |list| {
          assert list[i] in list;
        }
      }
    }
  }
}
