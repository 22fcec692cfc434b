/** The client side of the favourites feature: the favourites slice of the
    client store, a cache of the caller's favourites with a load status, and
    the reducer cases that update it when the four request thunks settle.
    The requests themselves are not modelled; only how each one settles
    (fulfilled with a payload, or rejected) is an input.
 */
module FavoritesSlice {

  datatype Status = Idle | Loading | Succeeded | Failed

  /** One cached favourite, shaped as the list endpoint answers it. */
  datatype Item = Item(id: string, title: string, author: string, comment: string)

  /** How a write request ended: an HTTP response (with its `ok` flag) or a
      rejected `fetch`. */
  datatype HttpOutcome = Responded(ok: bool) | NetworkError

  /** How the list request ended: a list body, or a failure of `fetch` or of `json()`. */
  datatype FetchOutcome = Received(payload: seq<Item>) | FetchFailed

  /** The actions the four thunks dispatch: pending, then fulfilled or rejected. */
  datatype Action =
    | FetchPending | FetchFulfilled(items: seq<Item>) | FetchRejected
    | AddPending | AddFulfilled(addedId: string) | AddRejected
    | RemovePending | RemoveFulfilled(removedId: string) | RemoveRejected
    | UpdatePending | UpdateFulfilled(bookId: string, comment: string) | UpdateRejected
  {
    predicate IsFetch() {
      FetchPending? || FetchFulfilled? || FetchRejected?
    }
  }

  // --------------------------------------------------- how the thunks settle

  /** `fetchFavorites` returns `res.json()` without looking at `res.ok`. */
  function FetchSettled(o: FetchOutcome): (a: Action)
    ensures a.FetchFulfilled? || a.FetchRejected?
    ensures a.FetchFulfilled? <==> o.Received?
    ensures a.FetchFulfilled? ==> a.items == o.payload
  {
    match o
    case Received(payload) => FetchFulfilled(payload)
    case FetchFailed => FetchRejected
  }

  /** `addFavorite` does not look at the response either: any response fulfils it. */
  function AddSettled(o: HttpOutcome, bookId: string): (a: Action)
    ensures a.AddFulfilled? || a.AddRejected?
    ensures a.AddFulfilled? <==> o.Responded?
    ensures a.AddFulfilled? ==> a.addedId == bookId
  {
    if o.Responded? then AddFulfilled(bookId) else AddRejected
  }

  /** `removeFavorite` throws unless the response is ok. */
  function RemoveSettled(o: HttpOutcome, bookId: string): (a: Action)
    ensures a.RemoveFulfilled? || a.RemoveRejected?
    ensures a.RemoveFulfilled? <==> o == Responded(true)
    ensures a.RemoveFulfilled? ==> a.removedId == bookId
  {
    match o
    case Responded(ok) => if ok then RemoveFulfilled(bookId) else RemoveRejected
    case NetworkError => RemoveRejected
  }

  /** `updateComment` throws unless the response is ok. */
  function UpdateSettled(o: HttpOutcome, bookId: string, comment: string): (a: Action)
    ensures a.UpdateFulfilled? || a.UpdateRejected?
    ensures a.UpdateFulfilled? <==> o == Responded(true)
    ensures a.UpdateFulfilled? ==> a.bookId == bookId && a.comment == comment
  {
    match o
    case Responded(ok) => if ok then UpdateFulfilled(bookId, comment) else UpdateRejected
    case NetworkError => UpdateRejected
  }

  // ------------------------------------------------------- list operations

  /** `items.filter(book => book.id !== id)`. */
  function WithoutId(items: seq<Item>, id: string): (r: seq<Item>)
    ensures |r| <= |items|
    ensures forall x :: x in r <==> x in items && x.id != id
  {
    if |items| == 0 then []
    else if items[0].id != id then [items[0]] + WithoutId(items[1..], id)
    else WithoutId(items[1..], id)
  }

  /** `items.find(b => b.id === id)`, as the position found, or -1. */
  function ItemIndex(items: seq<Item>, id: string): (r: int)
    ensures -1 <= r < |items|
    ensures r >= 0 ==> items[r].id == id
    ensures r >= 0 ==> forall j :: 0 <= j < r ==> items[j].id != id
    ensures r == -1 ==> forall j :: 0 <= j < |items| ==> items[j].id != id
  {
    if |items| == 0 then -1
    else if items[0].id == id then 0
    else
      var r := ItemIndex(items[1..], id);
      if r == -1 then -1 else r + 1
  }

  /** The items after the first one with this id has had its comment set. */
  function Patched(items: seq<Item>, id: string, comment: string): (r: seq<Item>)
    ensures |r| == |items|
    ensures forall j :: 0 <= j < |items| && j != ItemIndex(items, id) ==> r[j] == items[j]
    ensures ItemIndex(items, id) >= 0 ==>
              r[ItemIndex(items, id)] == items[ItemIndex(items, id)].(comment := comment)
  {
    var k := ItemIndex(items, id);
    if k == -1 then items else items[k := items[k].(comment := comment)]
  }

  // ------------------------------------------------------------ the slice

  class FavoritesState {
    var items: seq<Item>
    var status: Status

    /** `initialState: { items: [], status: 'idle' }`. */
    constructor ()
      ensures items == [] && status == Idle
    {
      items := [];
      status := Idle;
    }

    method OnFetchPending()
      modifies this
      ensures status == Loading && items == old(items)
    {
      status := Loading;
    }

    /** The cache is replaced wholesale by the server's list. */
    method OnFetchFulfilled(payload: seq<Item>)
      modifies this
      ensures status == Succeeded && items == payload
    {
      status := Succeeded;
      items := payload;
    }

    method OnFetchRejected()
      modifies this
      ensures status == Failed && items == old(items)
    {
      status := Failed;
    }

    /** The add case has an empty body: the cache waits for the next fetch. */
    method OnAddFulfilled(bookId: string)
      modifies this
      ensures items == old(items) && status == old(status)
    {
    }

    method OnRemoveFulfilled(bookId: string)
      modifies this
      ensures items == WithoutId(old(items), bookId) && status == old(status)
    {
      items := WithoutId(items, bookId);
    }

    /** The first item with the id gets the new comment in place. */
    method OnUpdateCommentFulfilled(bookId: string, comment: string)
      modifies this
      ensures items == Patched(old(items), bookId, comment) && status == old(status)
    {
      var k := ItemIndex(items, bookId);
      if k != -1 {
        var book := items[k];
        items := items[k := book.(comment := comment)];
      }
    }

    /** The slice's reducer: each handled action goes to its case; the pending
        and rejected actions of the three write thunks have no case. */
    method Dispatch(a: Action)
      modifies this
      ensures !a.IsFetch() ==> status == old(status)
      ensures a.FetchPending? ==> status == Loading && items == old(items)
      ensures a.FetchFulfilled? ==> status == Succeeded && items == a.items
      ensures a.FetchRejected? ==> status == Failed && items == old(items)
      ensures a.RemoveFulfilled? ==> items == WithoutId(old(items), a.removedId)
      ensures a.UpdateFulfilled? ==> items == Patched(old(items), a.bookId, a.comment)
      ensures !a.IsFetch() && !a.RemoveFulfilled? && !a.UpdateFulfilled? ==> items == old(items)
    {
      match a
      case FetchPending => OnFetchPending();
      case FetchFulfilled(payload) => OnFetchFulfilled(payload);
      case FetchRejected => OnFetchRejected();
      case AddFulfilled(bookId) => OnAddFulfilled(bookId);
      case RemoveFulfilled(bookId) => OnRemoveFulfilled(bookId);
      case UpdateFulfilled(bookId, comment) => OnUpdateCommentFulfilled(bookId, comment);
      case _ =>
    }

    /** A whole `fetchFavorites` round: pending, then fulfilled or rejected. */
    method RunFetch(o: FetchOutcome)
      modifies this
      ensures o.Received? ==> status == Succeeded && items == o.payload
      ensures o.FetchFailed? ==> status == Failed && items == old(items)
    {
      Dispatch(FetchPending);
      Dispatch(FetchSettled(o));
    }

    /** A whole `addFavorite` round: the cache never changes. */
    method RunAdd(o: HttpOutcome, bookId: string)
      modifies this
      ensures items == old(items) && status == old(status)
    {
      Dispatch(AddPending);
      Dispatch(AddSettled(o, bookId));
    }

    /** A whole `removeFavorite` round: only an ok response removes the item. */
    method RunRemove(o: HttpOutcome, bookId: string)
      modifies this
      ensures status == old(status)
      ensures items == if o == Responded(true) then WithoutId(old(items), bookId) else old(items)
    {
      Dispatch(RemovePending);
      Dispatch(RemoveSettled(o, bookId));
    }

    /** A whole `updateComment` round: only an ok response patches the item. */
    method RunUpdateComment(o: HttpOutcome, bookId: string, comment: string)
      modifies this
      ensures status == old(status)
      ensures items == if o == Responded(true) then Patched(old(items), bookId, comment) else old(items)
    {
      Dispatch(UpdatePending);
      Dispatch(UpdateSettled(o, bookId, comment));
    }
  }
}
