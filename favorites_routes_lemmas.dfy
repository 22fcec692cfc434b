/** Properties of the favourites handlers, stated on the list-level functions
    the handler methods are specified by. */
module FavoritesRoutesLemmas {
  import opened FavoritesRoutes

  // ------------------------------------------------------------------- list

  /** The list is computed entry by entry: it keeps the favourites' order. */
  lemma {:induction false} ListViewAppend(a: seq<Entry>, b: seq<Entry>, books: seq<Book>)
    ensures ListView(a + b, books) == ListView(a, books) + ListView(b, books)
  {
    if |a| == 0 {
      assert a + b == b;
    } else {
      assert (a + b)[1..] == a[1..] + b;
      ListViewAppend(a[1..], b, books);
    }
  }

  /** A view is listed exactly when some favourite resolves to it. */
  lemma {:induction false} ListViewMembership(favs: seq<Entry>, books: seq<Book>, v: View)
    ensures v in ListView(favs, books) <==>
              exists k :: 0 <= k < |favs| && ResolveEntry(favs[k], books) == Some(v)
  {
    if |favs| > 0 {
      ListViewMembership(favs[1..], books, v);
      if exists k :: 0 <= k < |favs| - 1 && ResolveEntry(favs[1..][k], books) == Some(v) {
        var k :| 0 <= k < |favs| - 1 && ResolveEntry(favs[1..][k], books) == Some(v);
        assert ResolveEntry(favs[k + 1], books) == Some(v);
      }
      if exists k :: 0 <= k < |favs| && ResolveEntry(favs[k], books) == Some(v) {
        var k :| 0 <= k < |favs| && ResolveEntry(favs[k], books) == Some(v);
        if k > 0 {
          assert ResolveEntry(favs[1..][k - 1], books) == Some(v);
        }
      }
    }
  }

  /** When every favourite's book is in the catalog, nothing is dropped and the
      k-th view is the k-th favourite's. */
  lemma {:induction false} ListViewAllResolved(favs: seq<Entry>, books: seq<Book>)
    requires forall k :: 0 <= k < |favs| ==> ResolveEntry(favs[k], books).Some?
    ensures |ListView(favs, books)| == |favs|
    ensures forall k :: 0 <= k < |favs| ==> ListView(favs, books)[k] == ResolveEntry(favs[k], books).value
  {
    if |favs| > 0 {
      assert forall k :: 0 <= k < |favs| - 1 ==> favs[1..][k] == favs[k + 1];
      ListViewAllResolved(favs[1..], books);
    }
  }

  /** No view is listed for a book id no favourite names. */
  lemma {:induction false} ListViewWithoutId(favs: seq<Entry>, books: seq<Book>, id: string)
    requires !HasId(favs, id)
    ensures forall v :: v in ListView(favs, books) ==> v.id != id
  {
    forall v | v in ListView(favs, books) ensures v.id != id {
      ListViewMembership(favs, books, v);
      var k :| 0 <= k < |favs| && ResolveEntry(favs[k], books) == Some(v);
      assert EntryId(favs[k]) != id;
    }
  }

  // ------------------------------------------------------ the legacy shape

  /** An entry in the structured shape; a bare id becomes `{bookId, comment: ''}`. */
  function Normalize(e: Entry): (r: Entry)
    ensures r.Structured? && EntryId(r) == EntryId(e)
  {
    match e
    case Legacy(id) => Structured(id, Str(""))
    case Structured(_, _) => e
  }

  function Normalized(favs: seq<Entry>): (r: seq<Entry>)
    ensures |r| == |favs| && forall k :: 0 <= k < |favs| ==> r[k] == Normalize(favs[k])
  {
    seq(|favs|, k requires 0 <= k < |favs| => Normalize(favs[k]))
  }

  /** A bare id and `{bookId, comment: ''}` list identically. */
  lemma {:induction false} ListViewNormalized(favs: seq<Entry>, books: seq<Book>)
    ensures ListView(Normalized(favs), books) == ListView(favs, books)
  {
    if |favs| > 0 {
      assert Normalized(favs)[1..] == Normalized(favs[1..]);
      assert ResolveEntry(Normalize(favs[0]), books) == ResolveEntry(favs[0], books);
      ListViewNormalized(favs[1..], books);
    }
  }

  /** Remove and update-comment find a bare id and `{bookId, comment: ''}` alike,
      and remove treats them alike. */
  lemma LegacyTolerance(favs: seq<Entry>, id: string)
    ensures Ids(Normalized(favs)) == Ids(favs)
    ensures EntryIndex(Normalized(favs), id) == EntryIndex(favs, id)
    ensures Removed(Normalized(favs), id) == Normalized(Removed(favs, id))
  {
    var n := Normalized(favs);
    assert Ids(n) == Ids(favs);
    IdsDetermineIndex(n, favs, id);
    var k := EntryIndex(favs, id);
    if k != -1 {
      var lhs := n[..k] + n[k + 1..];
      var rhs := Normalized(favs[..k] + favs[k + 1..]);
      assert |lhs| == |rhs| == |favs| - 1;
      forall j | 0 <= j < |lhs| ensures lhs[j] == rhs[j] {
        if j < k {
          assert lhs[j] == n[j] == Normalize(favs[j]);
        } else {
          assert lhs[j] == n[j + 1] == Normalize(favs[j + 1]);
        }
      }
    }
  }

  /** Update-comment treats a bare id and `{bookId, comment: ''}` alike: both end
      up as the same structured entry. */
  lemma LegacyToleranceUpdate(favs: seq<Entry>, k: nat, comment: Value)
    requires k < |favs|
    ensures Recommented(Normalized(favs), k, comment) == Normalized(Recommented(favs, k, comment))
    ensures Recommented(Normalized(favs), k, comment)[k].Structured?
  {
  }

  /** Two lists with the same ids have their first match at the same place. */
  lemma {:induction false} IdsDetermineIndex(a: seq<Entry>, b: seq<Entry>, id: string)
    requires Ids(a) == Ids(b)
    ensures EntryIndex(a, id) == EntryIndex(b, id)
  {
    assert |a| == |Ids(a)| == |Ids(b)| == |b|;
    if |a| > 0 {
      assert EntryId(a[0]) == Ids(a)[0] == Ids(b)[0] == EntryId(b[0]);
      assert Ids(a[1..]) == Ids(a)[1..];
      assert Ids(b[1..]) == Ids(b)[1..];
      IdsDetermineIndex(a[1..], b[1..], id);
    }
  }

  // -------------------------------------------------------------------- add

  /** After an add the book is a favourite; nothing before it moved or changed. */
  lemma AddedShape(favs: seq<Entry>, id: string, comment: Value)
    ensures HasId(Added(favs, id, comment), id)
    ensures favs <= Added(favs, id, comment)
    ensures |Added(favs, id, comment)| <= |favs| + 1
  {
    if !HasId(favs, id) {
      assert EntryId(Added(favs, id, comment)[|favs|]) == id;
    }
  }

  /** Adding a book that is already a favourite keeps its stored entry, comment included. */
  lemma AddKeepsExistingComment(favs: seq<Entry>, id: string, comment: Value)
    requires HasId(favs, id)
    ensures Added(favs, id, comment) == favs
  {
  }

  /** A second add of the same book changes nothing: the first comment stays. */
  lemma AddIdempotent(favs: seq<Entry>, id: string, c1: Value, c2: Value)
    ensures Added(Added(favs, id, c1), id, c2) == Added(favs, id, c1)
  {
    AddedShape(favs, id, c1);
  }

  lemma AddPreservesUnique(favs: seq<Entry>, id: string, comment: Value)
    requires UniqueIds(favs)
    ensures UniqueIds(Added(favs, id, comment))
  {
    if !HasId(favs, id) {
      var r := Added(favs, id, comment);
      forall i, j | 0 <= i < j < |r| ensures EntryId(r[i]) != EntryId(r[j]) {
        if j == |favs| {
          assert EntryId(favs[i]) != id;
        }
      }
    }
  }

  // ----------------------------------------------------------------- remove

  /** Splicing out position k shifts everything after it down by one. */
  lemma SpliceShape(favs: seq<Entry>, k: nat, r: seq<Entry>)
    requires k < |favs| && r == favs[..k] + favs[k + 1..]
    ensures |r| == |favs| - 1
    ensures forall j :: 0 <= j < k ==> r[j] == favs[j]
    ensures forall j :: k <= j < |favs| - 1 ==> r[j] == favs[j + 1]
  {
  }

  /** Remove takes out exactly the first match and keeps the others in order; with
      no match it changes nothing. */
  lemma RemovedShape(favs: seq<Entry>, id: string)
    ensures !HasId(favs, id) ==> Removed(favs, id) == favs
    ensures HasId(favs, id) ==>
              var k := EntryIndex(favs, id);
              && |Removed(favs, id)| == |favs| - 1
              && (forall j :: 0 <= j < k ==> Removed(favs, id)[j] == favs[j])
              && (forall j :: k <= j < |favs| - 1 ==> Removed(favs, id)[j] == favs[j + 1])
  {
    var k := EntryIndex(favs, id);
    if k != -1 {
      SpliceShape(favs, k, Removed(favs, id));
    }
  }

  /** Under the uniqueness invariant the book is gone after a remove. */
  lemma RemovedIdAbsent(favs: seq<Entry>, id: string)
    requires UniqueIds(favs)
    ensures !HasId(Removed(favs, id), id)
  {
    var k := EntryIndex(favs, id);
    if k != -1 {
      var r := Removed(favs, id);
      forall j | 0 <= j < |r| ensures EntryId(r[j]) != id {
        if j < k {
          assert r[j] == favs[j];
        } else {
          assert r[j] == favs[j + 1];
        }
      }
    }
  }

  lemma RemovePreservesUnique(favs: seq<Entry>, id: string)
    requires UniqueIds(favs)
    ensures UniqueIds(Removed(favs, id))
  {
    var k := EntryIndex(favs, id);
    if k != -1 {
      RemovedShape(favs, id);
      var r := Removed(favs, id);
      forall i, j | 0 <= i < j < |r| ensures EntryId(r[i]) != EntryId(r[j]) {
        var i' := if i < k then i else i + 1;
        var j' := if j < k then j else j + 1;
        assert r[i] == favs[i'];
        assert r[j] == favs[j'];
        assert i' < j';
      }
    }
  }

  /** Under the uniqueness invariant a second remove of the same book is a no-op. */
  lemma RemoveIdempotent(favs: seq<Entry>, id: string)
    requires UniqueIds(favs)
    ensures Removed(Removed(favs, id), id) == Removed(favs, id)
  {
    RemovedIdAbsent(favs, id);
  }

  /** Adding a book that was not a favourite and then removing it restores the list. */
  lemma AddThenRemoveRestores(favs: seq<Entry>, id: string, comment: Value)
    requires !HasId(favs, id)
    ensures Removed(Added(favs, id, comment), id) == favs
  {
    var a := favs + [Structured(id, comment)];
    assert EntryId(a[|favs|]) == id;
    assert EntryIndex(a, id) == |favs|;
    assert a[..|favs|] == favs;
  }

  // --------------------------------------------------------- update comment

  /** Only position k changes; it becomes structured with the same id and the new
      comment, so a bare id is migrated, and the ids are kept. The clauses that
      `Recommented` already ensures are set out again on purpose, so that the
      whole shape of an update reads in one place. */
  lemma RecommentedShape(favs: seq<Entry>, k: nat, comment: Value)
    requires k < |favs|
    ensures |Recommented(favs, k, comment)| == |favs|
    ensures Ids(Recommented(favs, k, comment)) == Ids(favs)
    ensures Recommented(favs, k, comment)[k] == Structured(EntryId(favs[k]), comment)
    ensures forall j :: 0 <= j < |favs| && j != k ==> Recommented(favs, k, comment)[j] == favs[j]
  {
  }

  lemma RecommentPreservesUnique(favs: seq<Entry>, k: nat, comment: Value)
    requires k < |favs| && UniqueIds(favs)
    ensures UniqueIds(Recommented(favs, k, comment))
  {
    var r := Recommented(favs, k, comment);
    forall i, j | 0 <= i < j < |r| ensures EntryId(r[i]) != EntryId(r[j]) {
      assert EntryId(r[i]) == EntryId(favs[i]) && EntryId(r[j]) == EntryId(favs[j]);
    }
  }

  // ------------------------------------------------------------ round trips

  /** A fresh book added with comment `s` is listed with that comment. */
  lemma AddThenListShows(favs: seq<Entry>, books: seq<Book>, b: Book, s: string)
    requires !HasId(favs, b.id) && BookLookup(books, b.id) == Some(b)
    ensures View(b.id, b.title, b.author, s) in ListView(Added(favs, b.id, Str(s)), books)
  {
    ListViewAppend(favs, [Structured(b.id, Str(s))], books);
    assert [Structured(b.id, Str(s))][1..] == [];
  }

  /** Under the uniqueness invariant a removed book is no longer listed. */
  lemma RemoveThenListHides(favs: seq<Entry>, books: seq<Book>, id: string)
    requires UniqueIds(favs)
    ensures forall v :: v in ListView(Removed(favs, id), books) ==> v.id != id
  {
    RemovedIdAbsent(favs, id);
    ListViewWithoutId(Removed(favs, id), books, id);
  }

  /** After a comment update the list shows the new comment for that book. */
  lemma UpdateThenListShows(favs: seq<Entry>, books: seq<Book>, id: string, b: Book, s: string)
    requires HasId(favs, id) && BookLookup(books, id) == Some(b)
    ensures View(b.id, b.title, b.author, s) in ListView(Recommented(favs, EntryIndex(favs, id), Str(s)), books)
  {
    var k := EntryIndex(favs, id);
    var r := Recommented(favs, k, Str(s));
    assert ResolveEntry(r[k], books) == Some(View(b.id, b.title, b.author, s));
    ListViewMembership(r, books, View(b.id, b.title, b.author, s));
  }
}
