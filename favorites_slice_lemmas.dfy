/** Properties of the list operations the slice's cases are specified by. */
module FavoritesSliceLemmas {
  import opened FavoritesSlice

  /** The filter works item by item, so the kept items stay in their order. */
  lemma {:induction false} WithoutIdAppend(a: seq<Item>, b: seq<Item>, id: string)
    ensures WithoutId(a + b, id) == WithoutId(a, id) + WithoutId(b, id)
  {
    if |a| == 0 {
      assert a + b == b;
    } else {
      assert (a + b)[1..] == a[1..] + b;
      WithoutIdAppend(a[1..], b, id);
    }
  }

  /** With no item carrying the id, removal leaves the cache as it is. */
  lemma {:induction false} WithoutIdNoMatch(items: seq<Item>, id: string)
    requires forall j :: 0 <= j < |items| ==> items[j].id != id
    ensures WithoutId(items, id) == items
  {
    if |items| > 0 {
      assert items == [items[0]] + items[1..];
      WithoutIdNoMatch(items[1..], id);
    }
  }

  /** Removing the same id twice is removing it once. */
  lemma WithoutIdIdempotent(items: seq<Item>, id: string)
    ensures WithoutId(WithoutId(items, id), id) == WithoutId(items, id)
  {
    var r := WithoutId(items, id);
    assert forall j :: 0 <= j < |r| ==> r[j] in r;
    WithoutIdNoMatch(r, id);
  }

  /** An item that the removal drops anyway may have its comment changed first. */
  lemma {:induction false} WithoutIdIgnoresComment(items: seq<Item>, k: nat, id: string, comment: string)
    requires k < |items| && items[k].id == id
    ensures WithoutId(items[k := items[k].(comment := comment)], id) == WithoutId(items, id)
  {
    var p := items[k := items[k].(comment := comment)];
    if k == 0 {
      assert p[1..] == items[1..];
    } else {
      assert p[0] == items[0];
      assert p[1..] == items[1..][k - 1 := items[k].(comment := comment)];
      WithoutIdIgnoresComment(items[1..], k - 1, id, comment);
    }
  }

  /** Setting a comment does not change the ids, so update-then-remove is remove. */
  lemma UpdateThenRemove(items: seq<Item>, id: string, comment: string)
    ensures WithoutId(Patched(items, id, comment), id) == WithoutId(items, id)
  {
    var k := ItemIndex(items, id);
    if k != -1 {
      WithoutIdIgnoresComment(items, k, id, comment);
    }
  }

  /** With no item carrying the id, a comment update is a no-op. */
  lemma PatchedNoMatch(items: seq<Item>, id: string, comment: string)
    requires forall j :: 0 <= j < |items| ==> items[j].id != id
    ensures Patched(items, id, comment) == items
  {
  }

  /** The same comment update applied twice is applied once. */
  lemma PatchedIdempotent(items: seq<Item>, id: string, comment: string)
    ensures Patched(Patched(items, id, comment), id, comment) == Patched(items, id, comment)
  {
    var p := Patched(items, id, comment);
    var k := ItemIndex(items, id);
    if k != -1 {
      assert forall j :: 0 <= j < |p| ==> p[j].id == items[j].id;
      assert ItemIndex(p, id) == k;
    }
  }
}
