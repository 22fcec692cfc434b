/** The server side of the favourites feature: the bodies of the four route
    handlers of the favourites router (list, add, remove, update comment),
    each taken as an operation on in-memory snapshots of the users and books
    collections. Reading and writing the collections, authentication and rate
    limiting happen outside these bodies and are not modelled: the caller's
    username is an input, the snapshots are passed in and handed back.
 */
module FavoritesRoutes {

  datatype Option<T> = None | Some(value: T)

  /** The JSON values a request body field or a stored comment can hold, as far
      as this feature distinguishes them: absent, `null`, or a string. */
  datatype Value = Undefined | Null | Str(s: string)

  /** JavaScript truthiness of such a value: only a non-empty string is truthy. */
  predicate Truthy(v: Value): (b: bool)
    ensures !b <==> v == Undefined || v == Null || v == Str("")
  {
    v.Str? && v.s != ""
  }

  /** A stored favourite: a bare book id (the legacy shape) or `{bookId, comment}`. */
  datatype Entry = Legacy(id: string) | Structured(bookId: string, comment: Value)

  /** The book id an entry refers to, whatever its shape. */
  function EntryId(e: Entry): (r: string)
    ensures e.Legacy? ==> r == e.id
    ensures e.Structured? ==> r == e.bookId
  {
    match e
    case Legacy(id) => id
    case Structured(id, _) => id
  }

  /** A user record; `otherFields` stands for everything this feature never touches. */
  datatype User = User(username: string, favorites: seq<Entry>, otherFields: map<string, string>)

  datatype Book = Book(id: string, title: string, author: string)

  /** A book joined with the comment of the favourite that refers to it. */
  datatype View = View(id: string, title: string, author: string, comment: string)

  datatype Body = Message | Views(views: seq<View>) | CommentSet(comment: Value)

  /** What a handler answers: 200 with a body, 400, or one of the two 404s. */
  datatype Reply = Ok(body: Body) | BadRequest | UserNotFound | FavoriteNotFound

  /** The book ids of a favourites list, in order. */
  function Ids(favs: seq<Entry>): (r: seq<string>)
    ensures |r| == |favs|
    ensures forall k :: 0 <= k < |favs| ==> r[k] == EntryId(favs[k])
  {
    seq(|favs|, k requires 0 <= k < |favs| => EntryId(favs[k]))
  }

  /** The store's invariant: no two favourites of one user name the same book. */
  predicate UniqueIds(favs: seq<Entry>) {
    forall i, j :: 0 <= i < j < |favs| ==> EntryId(favs[i]) != EntryId(favs[j])
  }

  predicate HasId(favs: seq<Entry>, id: string) {
    exists k :: 0 <= k < |favs| && EntryId(favs[k]) == id
  }

  // ---------------------------------------------------------------- lookups

  /** `users.find(u => u.username === name)`, as the index of the record found
      (the handlers mutate that record), or -1. */
  function UserIndex(users: seq<User>, name: string): (r: int)
    ensures -1 <= r < |users|
    ensures r >= 0 ==> users[r].username == name
    ensures r >= 0 ==> forall j :: 0 <= j < r ==> users[j].username != name
    ensures r == -1 ==> forall j :: 0 <= j < |users| ==> users[j].username != name
  {
    if |users| == 0 then -1
    else if users[0].username == name then 0
    else
      var r := UserIndex(users[1..], name);
      if r == -1 then -1 else r + 1
  }

  /** `favorites.findIndex(fav => id of fav === id)`: the first matching position, or -1. */
  function EntryIndex(favs: seq<Entry>, id: string): (r: int)
    ensures -1 <= r < |favs|
    ensures r >= 0 ==> EntryId(favs[r]) == id
    ensures r >= 0 ==> forall j :: 0 <= j < r ==> EntryId(favs[j]) != id
    ensures r == -1 <==> !HasId(favs, id)
  {
    if |favs| == 0 then -1
    else if EntryId(favs[0]) == id then 0
    else
      var r := EntryIndex(favs[1..], id);
      assert HasId(favs[1..], id) ==> HasId(favs, id) by {
        if HasId(favs[1..], id) {
          var k :| 0 <= k < |favs| - 1 && EntryId(favs[1..][k]) == id;
          assert EntryId(favs[k + 1]) == id;
        }
      }
      assert HasId(favs, id) ==> HasId(favs[1..], id) by {
        if HasId(favs, id) {
          var k :| 0 <= k < |favs| && EntryId(favs[k]) == id;
          assert k != 0;
          assert EntryId(favs[1..][k - 1]) == id;
        }
      }
      if r == -1 then -1 else r + 1
  }

  /** `books.find(b => b.id === id)`: the first book with that id. */
  function BookLookup(books: seq<Book>, id: string): (r: Option<Book>)
    ensures r.Some? ==> r.value in books && r.value.id == id
    ensures r.Some? ==> exists i :: 0 <= i < |books| && books[i] == r.value
                                    && forall j :: 0 <= j < i ==> books[j].id != id
    ensures r.None? <==> forall b :: b in books ==> b.id != id
  {
    if |books| == 0 then None
    else if books[0].id == id then Some(books[0])
    else
      var r := BookLookup(books[1..], id);
      assert r.Some? ==> exists i :: 0 <= i < |books| && books[i] == r.value
                                     && forall j :: 0 <= j < i ==> books[j].id != id by {
        if r.Some? {
          var i :| 0 <= i < |books| - 1 && books[1..][i] == r.value
                   && forall j :: 0 <= j < i ==> books[1..][j].id != id;
          assert books[i + 1] == r.value;
          assert forall j :: 0 <= j < i + 1 ==> books[j].id != id by {
            forall j | 0 <= j < i + 1 ensures books[j].id != id {
              if j > 0 { assert books[j] == books[1..][j - 1]; }
            }
          }
        }
      }
      r
  }

  // ------------------------------------------------------------------- list

  /** The comment the list shows for an entry: `''` for a bare id, otherwise the
      stored comment, with a falsy one shown as `''`. */
  function ShownComment(e: Entry): (r: string)
    ensures r != "" ==> e.Structured? && e.comment == Str(r)
    ensures e.Structured? && e.comment.Str? ==> r == e.comment.s
  {
    match e
    case Legacy(_) => ""
    case Structured(_, c) => if Truthy(c) then c.s else ""
  }

  /** One step of the list's `map`: the book merged with the comment, or nothing
      when the catalog no longer has the book. */
  function ResolveEntry(e: Entry, books: seq<Book>): (r: Option<View>)
    ensures r.Some? <==> exists b :: b in books && b.id == EntryId(e)
    ensures r.Some? ==> Book(r.value.id, r.value.title, r.value.author) in books
    ensures r.Some? ==> BookLookup(books, EntryId(e)) == Some(Book(r.value.id, r.value.title, r.value.author))
    ensures r.Some? ==> r.value.id == EntryId(e) && r.value.comment == ShownComment(e)
  {
    match BookLookup(books, EntryId(e))
    case None => None
    case Some(b) => Some(View(b.id, b.title, b.author, ShownComment(e)))
  }

  /** The list's `map(...).filter(b => b !== null)` pipeline. */
  function ListView(favs: seq<Entry>, books: seq<Book>): (r: seq<View>)
    ensures |r| <= |favs|
    ensures forall v :: v in r ==> Book(v.id, v.title, v.author) in books
  {
    if |favs| == 0 then []
    else
      match ResolveEntry(favs[0], books)
      case None => ListView(favs[1..], books)
      case Some(v) => [v] + ListView(favs[1..], books)
  }

  /** GET `/`: the caller's favourites joined with the books. The snapshot is
      only read. */
  function ListFavorites(users: seq<User>, books: seq<Book>, name: string): (r: Reply)
    ensures r.UserNotFound? <==> forall j :: 0 <= j < |users| ==> users[j].username != name
    ensures r.Ok? || r.UserNotFound?
    ensures r.Ok? ==> exists j :: && 0 <= j < |users| && users[j].username == name
                                  && (forall i :: 0 <= i < j ==> users[i].username != name)
                                  && r.body == Views(ListView(users[j].favorites, books))
  {
    var ui := UserIndex(users, name);
    if ui == -1 then UserNotFound
    else Ok(Views(ListView(users[ui].favorites, books)))
  }

  // -------------------------------------------- changes to a favourites list

  /** What POST `/` does to the caller's list: append `{bookId, comment}` unless
      the book is already there. */
  function Added(favs: seq<Entry>, id: string, comment: Value): (r: seq<Entry>)
    ensures HasId(favs, id) ==> r == favs
    ensures !HasId(favs, id) ==> r == favs + [Structured(id, comment)]
  {
    if EntryIndex(favs, id) == -1 then favs + [Structured(id, comment)] else favs
  }

  /** What DELETE `/:bookId` does to the caller's list: splice out the first match. */
  function Removed(favs: seq<Entry>, id: string): (r: seq<Entry>)
    ensures !HasId(favs, id) ==> r == favs
    ensures HasId(favs, id) ==> |r| == |favs| - 1 && r == favs[..EntryIndex(favs, id)] + favs[EntryIndex(favs, id) + 1..]
  {
    var k := EntryIndex(favs, id);
    if k == -1 then favs else favs[..k] + favs[k + 1..]
  }

  /** What PATCH `/:bookId/comment` does at the matching position `k`. */
  function Recommented(favs: seq<Entry>, k: nat, comment: Value): (r: seq<Entry>)
    requires k < |favs|
    ensures |r| == |favs| && r[k] == Structured(EntryId(favs[k]), comment)
    ensures forall j :: 0 <= j < |favs| && j != k ==> r[j] == favs[j]
  {
    favs[k := Structured(EntryId(favs[k]), comment)]
  }

  /** The new snapshot differs from the old one in the favourites of record `ui` only. */
  predicate OnlyFavoritesChanged(users: seq<User>, users': seq<User>, ui: nat, favs': seq<Entry>)
    requires ui < |users|
  {
    && |users'| == |users|
    && users'[ui] == users[ui].(favorites := favs')
    && forall j :: 0 <= j < |users| && j != ui ==> users'[j] == users[j]
  }

  // ------------------------------------------------------ mutating handlers

  /** POST `/` with body `{bookId, comment}`. */
  method AddFavorite(users: seq<User>, name: string, bookId: Value, comment: Value)
    returns (reply: Reply, users': seq<User>)
    ensures !Truthy(bookId) ==> reply == BadRequest && users' == users
    ensures Truthy(bookId) && UserIndex(users, name) == -1 ==> reply == UserNotFound && users' == users
    ensures Truthy(bookId) && UserIndex(users, name) >= 0 ==>
              var ui := UserIndex(users, name);
              var stored := if comment == Undefined then Str("") else comment;
              && reply == Ok(Message)
              && OnlyFavoritesChanged(users, users', ui, Added(users[ui].favorites, bookId.s, stored))
  {
    if !Truthy(bookId) {
      return BadRequest, users;
    }
    var stored := if comment == Undefined then Str("") else comment;
    var ui := UserIndex(users, name);
    if ui == -1 {
      return UserNotFound, users;
    }
    var user := users[ui];
    users' := users;
    var existing := EntryIndex(user.favorites, bookId.s);
    if existing == -1 {
      var favs := user.favorites + [Structured(bookId.s, stored)];
      users' := users[ui := user.(favorites := favs)];
    }
    reply := Ok(Message);
  }

  /** DELETE `/:bookId`; the path parameter is always a string. */
  method RemoveFavorite(users: seq<User>, name: string, bookId: string)
    returns (reply: Reply, users': seq<User>)
    ensures bookId == "" ==> reply == BadRequest && users' == users
    ensures bookId != "" && UserIndex(users, name) == -1 ==> reply == UserNotFound && users' == users
    ensures bookId != "" && UserIndex(users, name) >= 0 ==>
              var ui := UserIndex(users, name);
              && reply == Ok(Message)
              && OnlyFavoritesChanged(users, users', ui, Removed(users[ui].favorites, bookId))
  {
    if bookId == "" {
      return BadRequest, users;
    }
    var ui := UserIndex(users, name);
    if ui == -1 {
      return UserNotFound, users;
    }
    var user := users[ui];
    users' := users;
    var index := EntryIndex(user.favorites, bookId);
    if index != -1 {
      var favs := user.favorites[..index] + user.favorites[index + 1..];
      users' := users[ui := user.(favorites := favs)];
    }
    reply := Ok(Message);
  }

  /** PATCH `/:bookId/comment` with body `{comment}`. */
  method UpdateComment(users: seq<User>, name: string, bookId: string, comment: Value)
    returns (reply: Reply, users': seq<User>)
    ensures bookId == "" || comment == Undefined ==> reply == BadRequest && users' == users
    ensures bookId != "" && comment != Undefined && UserIndex(users, name) == -1 ==>
              reply == UserNotFound && users' == users
    ensures bookId != "" && comment != Undefined && UserIndex(users, name) >= 0 ==>
              var favs := users[UserIndex(users, name)].favorites;
              && (!HasId(favs, bookId) ==> reply == FavoriteNotFound && users' == users)
              && (HasId(favs, bookId) ==>
                    && reply == Ok(CommentSet(comment))
                    && OnlyFavoritesChanged(users, users', UserIndex(users, name),
                                            Recommented(favs, EntryIndex(favs, bookId), comment)))
  {
    if bookId == "" {
      return BadRequest, users;
    }
    if comment == Undefined {
      return BadRequest, users;
    }
    var ui := UserIndex(users, name);
    if ui == -1 {
      return UserNotFound, users;
    }
    var user := users[ui];
    var favIndex := EntryIndex(user.favorites, bookId);
    if favIndex == -1 {
      return FavoriteNotFound, users;
    }
    var existing := user.favorites[favIndex];
    var favs := user.favorites[favIndex := Structured(EntryId(existing), comment)];
    users' := users[ui := user.(favorites := favs)];
    reply := Ok(CommentSet(comment));
  }
}
