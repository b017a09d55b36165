/** The wishlist request handlers of the server
    (backend/controllers/wishlistController.js). Each user record holds its
    wishlist as a sequence of product storage references; the handlers look a
    public `productId` up in the catalog, apply one MongoDB update to the
    authenticated user's array (`$addToSet`, `$pull` or `$set: []`), and shape a
    JSON response. */
module WishlistServer {
  import opened Collections
  import ProductModel

  /** A product document's storage reference (`_id`). */
  type ObjectId = int
  /** A user record's storage reference. */
  type UserId = int

  /** The JSON body `{success, message, wishlist, wishlistCount}`. */
  datatype Body<T> = Body(success: bool, message: string, wishlist: seq<T>, wishlistCount: int)

  /** What a handler answers: a JSON body with a status; an error thrown after
      `res.status(code)`; or an exception the handler did not anticipate (a
      property read on a `null` user), left to the error middleware. */
  datatype Response<T> = Json(status: int, body: Body<T>) | Thrown(status: int, message: string) | Unhandled

  /** The count every JSON answer reports is the length of the list it carries. */
  predicate CountMatches<T>(res: Response<T>)
  {
    res.Json? ==> res.body.wishlistCount == |res.body.wishlist|
  }

  function Respond<T>(status: int, message: string, list: seq<T>): Response<T>
  {
    Json(status, Body(true, message, list, |list|))
  }

  // ----- MongoDB array update operators -----

  /** `$addToSet`: append the value unless it is already present. */
  function AddToSet<T(==)>(s: seq<T>, x: T): (r: seq<T>)
    ensures x in r
    ensures x in s ==> r == s
    ensures forall i :: 0 <= i < |r| ==> r[i] in s || r[i] == x
    ensures |s| <= |r| <= |s| + 1 && r[..|s|] == s
    ensures NoDuplicates(s) ==> NoDuplicates(r)
  {
    if x in s then s else s + [x]
  }

  /** Adding twice is adding once. */
  lemma AddToSetIdempotent<T>(s: seq<T>, x: T)
    ensures AddToSet(AddToSet(s, x), x) == AddToSet(s, x)
  {
  }

  /** However many times a value is added, it occurs exactly once in a duplicate-free list. */
  lemma AddToSetOccursOnce<T>(s: seq<T>, x: T)
    requires NoDuplicates(s)
    ensures NoDuplicates(AddToSet(s, x))
    ensures exists i :: 0 <= i < |AddToSet(s, x)| && AddToSet(s, x)[i] == x
              && forall j :: 0 <= j < |AddToSet(s, x)| && AddToSet(s, x)[j] == x ==> j == i
  {
  }

  // `$pull` removes every occurrence of the value: it is `Collections.RemoveAll`.

  /** Adding a reference the wishlist did not hold and then pulling it gives back the original list. */
  lemma AddThenPullRoundTrip<T(!new)>(s: seq<T>, x: T)
    requires x !in s
    ensures RemoveAll(AddToSet(s, x), x) == s
  {
    AppendThenRemoveAll(s, x);
  }

  // ----- Response shaping for the add handler -----

  /** The add handler's answer as written: `wasAdded` is tested on the list read back
      after the update, with 200 "already in wishlist" when the reference is found. */
  function AddResponseAsWritten(post: seq<ObjectId>, ref: ObjectId): Response<ObjectId>
  {
    var wasAdded := ref in post;
    Respond(if wasAdded then 200 else 201,
            if wasAdded then "Product already in wishlist" else "Product added to wishlist",
            post)
  }

  /** As written, every successful add answers 200 "Product already in wishlist": the
      post-update list always holds the reference, so the 201 branch cannot be taken. */
  lemma AddAsWrittenAlwaysAnswers200(pre: seq<ObjectId>, ref: ObjectId)
    ensures AddResponseAsWritten(AddToSet(pre, ref), ref) == Respond(200, "Product already in wishlist", AddToSet(pre, ref))
  {
  }

  /** The answer the handler evidently means: 201 when the reference was not a member
      before the update, 200 when it already was; the list is the post-update one. */
  function AddResponseIntended(pre: seq<ObjectId>, ref: ObjectId): (res: Response<ObjectId>)
    ensures res.Json? && CountMatches(res) && res.body.wishlist == AddToSet(pre, ref)
    ensures res.status == 201 <==> ref !in pre
    ensures res.status == 200 <==> ref in pre
    ensures res.body.message == (if ref in pre then "Product already in wishlist" else "Product added to wishlist")
    ensures res.body.wishlistCount == |pre| + (if ref in pre then 0 else 1)
  {
    var wasPresent := ref in pre;
    Respond(if wasPresent then 200 else 201,
            if wasPresent then "Product already in wishlist" else "Product added to wishlist",
            AddToSet(pre, ref))
  }

  // ----- Read path -----

  /** `populate`: each stored reference resolved to its product document, or `null`
      (`None`) when no document has that reference. */
  function Populate(refs: seq<ObjectId>, docs: map<ObjectId, ProductModel.Product>): (r: seq<Option<ProductModel.Product>>)
    ensures |r| == |refs|
    ensures forall i :: 0 <= i < |refs| ==> (r[i].Some? <==> refs[i] in docs)
    ensures forall i :: 0 <= i < |refs| && refs[i] in docs ==> r[i] == Some(docs[refs[i]])
  {
    if refs == [] then []
    else [if refs[0] in docs then Some(docs[refs[0]]) else None] + Populate(refs[1..], docs)
  }

  /** `filter((product) => product !== null)`. */
  function DropNulls<T(!new)>(xs: seq<Option<T>>): (r: seq<T>)
    ensures |r| <= |xs|
    ensures forall v :: v in r <==> Some(v) in xs
  {
    if xs == [] then []
    else (if xs[0].Some? then [xs[0].value] else []) + DropNulls(xs[1..])
  }

  /** Dropping nulls distributes over concatenation: order and multiplicity are kept. */
  lemma {:induction false} DropNullsConcat<T(!new)>(a: seq<Option<T>>, b: seq<Option<T>>)
    ensures DropNulls(a + b) == DropNulls(a) + DropNulls(b)
  {
    if a == [] {
      assert a + b == b;
    } else {
      assert (a + b)[0] == a[0];
      assert (a + b)[1..] == a[1..] + b;
      DropNullsConcat(a[1..], b);
    }
  }

  /** How many stored references resolve to a document. */
  function Resolving(refs: seq<ObjectId>, docs: map<ObjectId, ProductModel.Product>): (n: nat)
    ensures n <= |refs|
    ensures n == 0 <==> forall i :: 0 <= i < |refs| ==> refs[i] !in docs
  {
    if refs == [] then 0 else (if refs[0] in docs then 1 else 0) + Resolving(refs[1..], docs)
  }

  /** The documents of the resolving references, one per reference, in stored order. */
  function ResolvedDocs(refs: seq<ObjectId>, docs: map<ObjectId, ProductModel.Product>): (r: seq<ProductModel.Product>)
    ensures |r| == Resolving(refs, docs)
  {
    if refs == [] then []
    else (if refs[0] in docs then [docs[refs[0]]] else []) + ResolvedDocs(refs[1..], docs)
  }

  /** The read path, populate then drop nulls, yields exactly the resolved documents in
      stored order, one per resolving reference; so its count is the number of those. */
  lemma {:induction false} ReadPathIsResolvedDocs(refs: seq<ObjectId>, docs: map<ObjectId, ProductModel.Product>)
    ensures DropNulls(Populate(refs, docs)) == ResolvedDocs(refs, docs)
    ensures |DropNulls(Populate(refs, docs))| == Resolving(refs, docs)
  {
    if refs != [] {
      var head := [if refs[0] in docs then Some(docs[refs[0]]) else None];
      var rest := Populate(refs[1..], docs);
      assert Populate(refs, docs) == head + rest;
      DropNullsConcat(head, rest);
      ReadPathIsResolvedDocs(refs[1..], docs);
    }
  }

  /** Everything the read path returns is the document of some stored reference, and every
      stored reference that still resolves contributes its document. */
  lemma ResolvedViewIsExact(refs: seq<ObjectId>, docs: map<ObjectId, ProductModel.Product>)
    ensures forall p :: p in DropNulls(Populate(refs, docs)) ==>
              exists i :: 0 <= i < |refs| && refs[i] in docs && docs[refs[i]] == p
    ensures forall i :: 0 <= i < |refs| && refs[i] in docs ==> docs[refs[i]] in DropNulls(Populate(refs, docs))
  {
  }

  // ----- The store and its handlers -----

  /** The users collection, reduced to each user's stored wishlist array. */
  class WishlistStore {
    var users: map<UserId, seq<ObjectId>>

    /** The relation holds at most one reference to a product per user. */
    ghost predicate Valid()
      reads this
    {
      forall u :: u in users ==> NoDuplicates(users[u])
    }

    /** Every registered user starts with an empty wishlist. */
    constructor (registered: set<UserId>)
      ensures Valid()
      ensures users.Keys == registered && forall u :: u in users ==> users[u] == []
    {
      users := map u | u in registered :: [];
    }

    /** POST /wishlist/:productId, as written. */
    method AddToWishlist(userId: UserId, productId: int, catalog: map<int, ObjectId>) returns (res: Response<ObjectId>)
      requires Valid()
      modifies this
      ensures Valid() && CountMatches(res)
      ensures productId !in catalog ==> res == Thrown(404, "Product not Found") && users == old(users)
      ensures productId in catalog && userId !in old(users) ==> res == Unhandled && users == old(users)
      ensures productId in catalog && userId in old(users) ==>
        && users == old(users)[userId := AddToSet(old(users)[userId], catalog[productId])]
        && res == Respond(200, "Product already in wishlist", users[userId])
    {
      if productId !in catalog {
        return Thrown(404, "Product not Found");
      }
      var ref := catalog[productId];
      if userId !in users {
        return Unhandled;
      }
      users := users[userId := AddToSet(users[userId], ref)];
      var wishlist := users[userId];
      res := AddResponseAsWritten(wishlist, ref);
    }

    /** DELETE /wishlist/:productId. */
    method RemoveFromWishlist(userId: UserId, productId: int, catalog: map<int, ObjectId>) returns (res: Response<ObjectId>)
      requires Valid()
      modifies this
      ensures Valid() && CountMatches(res)
      ensures productId !in catalog ==> res == Thrown(404, "Product not found") && users == old(users)
      ensures productId in catalog && userId !in old(users) ==> res == Unhandled && users == old(users)
      ensures productId in catalog && userId in old(users) ==>
        && users == old(users)[userId := RemoveAll(old(users)[userId], catalog[productId])]
        && catalog[productId] !in users[userId]
        && res == Respond(200, "Product removed from wishlist", users[userId])
    {
      if productId !in catalog {
        return Thrown(404, "Product not found");
      }
      var ref := catalog[productId];
      if userId !in users {
        return Unhandled;
      }
      users := users[userId := RemoveAll(users[userId], ref)];
      res := Respond(200, "Product removed from wishlist", users[userId]);
    }

    /** GET /wishlist: the stored references resolved against `docs`, unresolved ones
        dropped; the stored array itself is only read. */
    method GetWishlist(userId: UserId, docs: map<ObjectId, ProductModel.Product>) returns (res: Response<ProductModel.Product>)
      ensures CountMatches(res)
      ensures userId !in users ==> res == Thrown(404, "User not found")
      ensures userId in users ==>
        && res.Json? && res.status == 200 && res.body.success
        && res.body.message == "Wishlist retrieved successfully"
        && |res.body.wishlist| <= |users[userId]|
        && (forall p :: p in res.body.wishlist ==>
              exists i :: 0 <= i < |users[userId]| && users[userId][i] in docs && docs[users[userId][i]] == p)
        && (forall i :: 0 <= i < |users[userId]| && users[userId][i] in docs ==>
              docs[users[userId][i]] in res.body.wishlist)
        && res.body.wishlist == ResolvedDocs(users[userId], docs)
        && res.body.wishlistCount == Resolving(users[userId], docs)
    {
      if userId !in users {
        return Thrown(404, "User not found");
      }
      var stored := users[userId];
      var wishlistProducts := DropNulls(Populate(stored, docs));
      ResolvedViewIsExact(stored, docs);
      ReadPathIsResolvedDocs(stored, docs);
      res := Respond(200, "Wishlist retrieved successfully", wishlistProducts);
    }

    /** DELETE /wishlist: empties the user's array and answers 200 with an empty list; the
        handler does not look at the update's result, so an unknown user gets 200 too. */
    method ClearWishlist(userId: UserId) returns (res: Response<ObjectId>)
      requires Valid()
      modifies this
      ensures Valid() && CountMatches(res)
      ensures users == if userId in old(users) then old(users)[userId := []] else old(users)
      ensures res == Json(200, Body(true, "Wishlist cleared successfully", [], 0))
    {
      if userId in users {
        users := users[userId := []];
      }
      res := Json(200, Body(true, "Wishlist cleared successfully", [], 0));
    }
  }

  /** The add/add/remove/remove scenario on an empty wishlist, for a product whose
      reference is 7: as written the first add answers 200, where the intended answer is 201;
      the counts go 1, 1, 0, 0 either way. */
  lemma ScenarioTwoAddsTwoRemoves()
    ensures var s1 := AddToSet([], 7); var s2 := AddToSet(s1, 7);
            var s3 := RemoveAll(s2, 7); var s4 := RemoveAll(s3, 7);
            && AddResponseAsWritten(s1, 7).status == 200
            && AddResponseIntended([], 7).status == 201
            && AddResponseIntended(s1, 7).status == 200
            && |s1| == 1 && |s2| == 1 && s3 == [] && s4 == []
  {
  }
}
