/** The client's wishlist cache (frontend/src/Components/WishlistContext/WishlistContext.jsx):
    a local copy of the user's wishlist, updated optimistically when the user acts,
    replaced wholesale by the server's list when a call succeeds, and rolled back when
    it fails. Each asynchronous handler is split at its `await` into the part that runs
    before the server call (`Begin...`) and the part that runs when it settles
    (`Settle...`); the settled call's outcome is a parameter. */
module WishlistClient {
  import opened Collections
  import WishlistServer

  /** One identifier type for what the source mixes: populated product objects from the
      read path, references from the add and remove paths, numeric ids from the page. */
  type Id = int

  /** How a `wishlistApi` call settles: a response whose `data.wishlist` may be missing,
      or an error whose `response.data.message` may be missing. */
  datatype ApiResult = Ok(wishlist: Option<seq<Id>>) | Err(message: Option<string>)

  /** How a handler's promise settles for its caller. */
  datatype Outcome = ReturnedSuccess | ReturnedUndefined | Threw(message: string)

  /** `response.data.wishlist || []`. */
  function ServerList(w: Option<seq<Id>>): seq<Id>
  {
    match w
    case Some(list) => list
    case None => []
  }

  /** `err.response?.data?.message || fallback`: an absent or empty message yields the fallback. */
  function ErrorMessage(m: Option<string>, fallback: string): string
  {
    if m.Some? && m.value != "" then m.value else fallback
  }

  /** The rollback callback of a failed add exactly as written, `prev.filter(id!==productId)`:
      evaluating the argument reads the unbound name `id`, which throws before `filter` runs. */
  datatype UpdaterResult = NewState(list: seq<Id>) | ThrewReferenceError

  function AddRollbackAsWritten(prev: seq<Id>, productId: Id): UpdaterResult
  {
    ThrewReferenceError
  }

  /** As written, the rollback throws for every list, even the empty one. */
  lemma AddRollbackAsWrittenThrows()
    ensures AddRollbackAsWritten([], 42) == ThrewReferenceError
    ensures forall prev: seq<Id>, productId: Id :: !AddRollbackAsWritten(prev, productId).NewState?
  {
  }

  /** The rollback the add handler evidently means, `prev.filter(x => x !== productId)`. */
  function AddRollback(prev: seq<Id>, productId: Id): (r: seq<Id>)
    ensures productId !in r
    ensures forall x :: x in r <==> x in prev && x != productId
  {
    RemoveAll(prev, productId)
  }

  /** When the id was absent before the optimistic append, the rollback restores exactly
      the pre-call list. */
  lemma AddRollbackRestores(before: seq<Id>, productId: Id)
    requires productId !in before
    ensures AddRollback(before + [productId], productId) == before
  {
    AppendThenRemoveAll(before, productId);
  }

  /** When the id was already present, the rollback also drops the earlier copies. */
  lemma AddRollbackAfterDuplicateLosesCopies(before: seq<Id>, productId: Id)
    requires productId in before
    ensures AddRollback(before + [productId], productId) != before
  {
    AppendThenRemoveAllPresent(before, productId);
  }

  /** The provider's state. `loggedIn` comes from the authentication context. */
  class WishlistCache {
    var loggedIn: bool
    var wishlist: seq<Id>
    var error: Option<string>

    /** `useState([])` and `useState(null)`. */
    constructor (loggedIn: bool)
      ensures this.loggedIn == loggedIn && wishlist == [] && error == None
    {
      this.loggedIn := loggedIn;
      wishlist := [];
      error := None;
    }

    /** `isInWishlist(productId)`: `includes` on the current list. */
    function IsInWishlist(productId: Id): bool
      reads this
    {
      productId in wishlist
    }

    /** `wishlistCount`. */
    function WishlistCount(): nat
      reads this
    {
      |wishlist|
    }

    /** `clearError`. */
    method ClearError()
      modifies this`error
      ensures error == None && wishlist == old(wishlist)
    {
      error := None;
    }

    /** The fetch effect. Logged out: the list becomes empty and no call is made (`called`
        is false). Logged in: a successful call replaces the list wholesale; a failed one
        records the message and keeps the list. */
    method FetchWishlist(server: ApiResult) returns (called: bool)
      modifies this`wishlist, this`error
      ensures called == loggedIn
      ensures !loggedIn ==> wishlist == [] && error == old(error)
      ensures loggedIn && server.Ok? ==> wishlist == ServerList(server.wishlist) && error == old(error)
      ensures loggedIn && server.Err? ==>
        wishlist == old(wishlist) && error == Some(ErrorMessage(server.message, "Failed to load wishlist"))
    {
      if !loggedIn {
        wishlist := [];
        return false;
      }
      called := true;
      match server
      case Ok(w) => wishlist := ServerList(w);
      case Err(m) => error := Some(ErrorMessage(m, "Failed to load wishlist"));
    }

    /** The effect re-runs whenever the login state changes. */
    method SessionChanged(nowLoggedIn: bool, server: ApiResult) returns (called: bool)
      modifies this
      ensures loggedIn == nowLoggedIn && called == nowLoggedIn
      ensures !nowLoggedIn ==> wishlist == [] && error == old(error)
      ensures nowLoggedIn && server.Ok? ==> wishlist == ServerList(server.wishlist) && error == old(error)
      ensures nowLoggedIn && server.Err? ==>
        wishlist == old(wishlist) && error == Some(ErrorMessage(server.message, "Failed to load wishlist"))
    {
      loggedIn := nowLoggedIn;
      called := FetchWishlist(server);
    }

    /** `addToWishlist`, up to its `await`: the login check, then the optimistic append.
        `proceed` is false when the handler threw instead. */
    method BeginAdd(productId: Id) returns (proceed: bool)
      modifies this`wishlist
      ensures proceed == loggedIn
      ensures wishlist == if loggedIn then old(wishlist) + [productId] else old(wishlist)
      ensures loggedIn ==> IsInWishlist(productId) && WishlistCount() == old(WishlistCount()) + 1
    {
      if !loggedIn {
        return false;
      }
      wishlist := wishlist + [productId];
      proceed := true;
    }

    /** `addToWishlist`, after its `await`: success replaces the list with the server's;
        failure rolls the id back out, records the message and rethrows it. */
    method SettleAdd(productId: Id, server: ApiResult) returns (out: Outcome)
      modifies this`wishlist, this`error
      ensures server.Ok? ==> wishlist == ServerList(server.wishlist) && error == old(error) && out == ReturnedSuccess
      ensures server.Err? ==>
        var message := ErrorMessage(server.message, "Failed to add to wishlist");
        wishlist == AddRollback(old(wishlist), productId) && error == Some(message) && out == Threw(message)
    {
      match server
      case Ok(w) =>
        wishlist := ServerList(w);
        out := ReturnedSuccess;
      case Err(m) =>
        wishlist := AddRollback(wishlist, productId);
        var message := ErrorMessage(m, "Failed to add to wishlist");
        error := Some(message);
        out := Threw(message);
    }

    /** The whole add handler, with the server call settling as `server`. */
    method AddToWishlist(productId: Id, server: ApiResult) returns (out: Outcome)
      modifies this`wishlist, this`error
      ensures !loggedIn ==>
        out == Threw("Please login to add items to wishlist") && wishlist == old(wishlist) && error == old(error)
      ensures loggedIn && server.Ok? ==>
        wishlist == ServerList(server.wishlist) && error == old(error) && out == ReturnedSuccess
      ensures loggedIn && server.Err? ==>
        var message := ErrorMessage(server.message, "Failed to add to wishlist");
        wishlist == AddRollback(old(wishlist) + [productId], productId) && error == Some(message) && out == Threw(message)
      ensures loggedIn && server.Err? && productId !in old(wishlist) ==> wishlist == old(wishlist)
    {
      var proceed := BeginAdd(productId);
      if !proceed {
        return Threw("Please login to add items to wishlist");
      }
      out := SettleAdd(productId, server);
      if server.Err? && productId !in old(wishlist) {
        AddRollbackRestores(old(wishlist), productId);
      }
    }

    /** `removeFromWishlist`, up to its `await`: the login check, the snapshot, then the
        optimistic removal of every occurrence. */
    method BeginRemove(productId: Id) returns (proceed: bool, snapshot: seq<Id>)
      modifies this`wishlist
      ensures proceed == loggedIn && snapshot == old(wishlist)
      ensures wishlist == if loggedIn then RemoveAll(old(wishlist), productId) else old(wishlist)
      ensures loggedIn ==> !IsInWishlist(productId) && WishlistCount() <= old(WishlistCount())
    {
      snapshot := wishlist;
      if !loggedIn {
        return false, snapshot;
      }
      wishlist := RemoveAll(wishlist, productId);
      proceed := true;
    }

    /** `removeFromWishlist`, after its `await`: success replaces the list with the server's;
        failure restores the snapshot, records the message and does not rethrow. */
    method SettleRemove(snapshot: seq<Id>, server: ApiResult) returns (out: Outcome)
      modifies this`wishlist, this`error
      ensures server.Ok? ==> wishlist == ServerList(server.wishlist) && error == old(error) && out == ReturnedSuccess
      ensures server.Err? ==>
        wishlist == snapshot && error == Some(ErrorMessage(server.message, "Failed to remove from wishlist"))
        && out == ReturnedUndefined
    {
      match server
      case Ok(w) =>
        wishlist := ServerList(w);
        out := ReturnedSuccess;
      case Err(m) =>
        wishlist := snapshot;
        error := Some(ErrorMessage(m, "Failed to remove from wishlist"));
        out := ReturnedUndefined;
    }

    /** The whole remove handler, with the server call settling as `server`. */
    method RemoveFromWishlist(productId: Id, server: ApiResult) returns (out: Outcome)
      modifies this`wishlist, this`error
      ensures !loggedIn ==> out == Threw("Login first") && wishlist == old(wishlist) && error == old(error)
      ensures loggedIn && server.Ok? ==>
        wishlist == ServerList(server.wishlist) && error == old(error) && out == ReturnedSuccess
      ensures loggedIn && server.Err? ==>
        wishlist == old(wishlist) && error == Some(ErrorMessage(server.message, "Failed to remove from wishlist"))
        && out == ReturnedUndefined
    {
      var proceed, snapshot := BeginRemove(productId);
      if !proceed {
        return Threw("Login first");
      }
      out := SettleRemove(snapshot, server);
    }

    /** `toggleWishlist`: remove when the id is in the list, add otherwise (`removed` says
        which ran). It resolves to nothing, and rethrows what the delegate threw. On a
        duplicate-free list, with a duplicate-free server answer, the list stays duplicate-free. */
    method ToggleWishlist(productId: Id, server: ApiResult) returns (out: Outcome, removed: bool)
      modifies this`wishlist, this`error
      ensures removed == (productId in old(wishlist)) == old(IsInWishlist(productId))
      ensures server.Err? ==>
        IsInWishlist(productId) == old(IsInWishlist(productId)) && WishlistCount() == old(WishlistCount())
      ensures !loggedIn ==> wishlist == old(wishlist) && error == old(error)
      ensures !loggedIn ==> out == Threw(if removed then "Login first" else "Please login to add items to wishlist")
      ensures loggedIn && server.Ok? ==>
        wishlist == ServerList(server.wishlist) && error == old(error) && out == ReturnedUndefined
      ensures loggedIn && server.Err? ==> wishlist == old(wishlist)
      ensures loggedIn && server.Err? && removed ==>
        error == Some(ErrorMessage(server.message, "Failed to remove from wishlist")) && out == ReturnedUndefined
      ensures loggedIn && server.Err? && !removed ==>
        var message := ErrorMessage(server.message, "Failed to add to wishlist");
        error == Some(message) && out == Threw(message)
      ensures NoDuplicates(old(wishlist)) && (server.Ok? ==> NoDuplicates(ServerList(server.wishlist))) ==>
        NoDuplicates(wishlist)
    {
      removed := productId in wishlist;
      var delegated: Outcome;
      if removed {
        delegated := RemoveFromWishlist(productId, server);
      } else {
        delegated := AddToWishlist(productId, server);
      }
      out := if delegated.Threw? then delegated else ReturnedUndefined;
    }
  }

  // ----- The kinds of value `includes` compares -----

  /** What the client's list can hold: the numeric `productId` a product card passes in,
      or an entry the server sent back (a storage reference in the add and remove answers,
      a product object on the read path). `===` never equates an entry with a number. */
  datatype ClientKey = ProductNumber(n: int) | ServerEntry(entry: int)

  /** A server answer installed wholesale, as written (`setWishlist(response.data.wishlist || [])`):
      every element of the new list is a server entry. */
  function InstallAsWritten(answer: seq<int>): (r: seq<ClientKey>)
    ensures |r| == |answer|
    ensures forall k :: k in r ==> k.ServerEntry?
  {
    if answer == [] then [] else [ServerEntry(answer[0])] + InstallAsWritten(answer[1..])
  }

  /** As written, after any successful fetch, add or remove, `isInWishlist(productId)` is
      false whatever the server answered: after adding 7 (stored as reference 500) the card
      shows it as not wishlisted, and the next toggle runs the add handler again. */
  lemma InstalledListHidesProductAsWritten(answer: seq<int>, productId: int)
    ensures ProductNumber(productId) !in InstallAsWritten(answer)
    ensures ProductNumber(7) !in InstallAsWritten(WishlistServer.AddToSet([], 500))
  {
  }

  /** The list the client evidently means to hold: the answer's entries given as the
      product numbers a card compares against. */
  function InstallIntended(productIds: seq<int>): (r: seq<ClientKey>)
    ensures |r| == |productIds|
    ensures forall i :: 0 <= i < |r| ==> r[i] == ProductNumber(productIds[i])
  {
    if productIds == [] then [] else [ProductNumber(productIds[0])] + InstallIntended(productIds[1..])
  }

  /** With uniform keys, a successful add shows the product as wishlisted, so the next
      toggle removes it, and a successful remove shows it as not wishlisted. */
  lemma InstalledListShowsProductIntended(before: seq<int>, productId: int)
    ensures ProductNumber(productId) in InstallIntended(WishlistServer.AddToSet(before, productId))
    ensures ProductNumber(productId) !in InstallIntended(RemoveAll(before, productId))
  {
  }

  /** Rollback on a failed add, on the list {A}: adding B and failing leaves exactly {A}. */
  lemma RollbackExample()
    ensures AddRollback([1] + [2], 2) == [1]
  {
    AddRollbackRestores([1], 2);
  }
}
