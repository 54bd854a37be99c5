/** The advertisement routes over the Advertisement collection: the ten newest ads,
    header-checked create and delete. */
module Ads {
  import opened Wrappers
  import opened Http
  import opened Tables
  import opened AdvertisementSchema

  /** How many ads the public list returns. */
  const ListLimit: nat := 10

  /** `sort({created_at: -1})`: newer first. */
  predicate NewerFirst(a: Ad, b: Ad) { a.createdAt >= b.createdAt }

  lemma NewerFirstOrders()
    ensures TotalPreorder(NewerFirst)
  {
  }

  /** `target_node || 'Global'`: the route never leaves the target empty. */
  function TargetOrGlobal(targetNode: Option<string>): (r: string)
    ensures r != ""
    ensures targetNode.Some? && targetNode.value != "" ==> r == targetNode.value
    ensures targetNode.None? || targetNode.value == "" ==> r == DefaultTarget
  {
    if targetNode.Some? && targetNode.value != "" then targetNode.value else DefaultTarget
  }

  function AdId(a: Ad): ObjectId { a.id }

  predicate HasId(oid: ObjectId, a: Ad) { a.id == oid }

  /** The ads a delete by `_id` keeps. */
  function OtherAd(oid: ObjectId): Ad -> bool {
    a => !HasId(oid, a)
  }

  /** With distinct ids, removing the one ad at position `i` removes exactly the ads
      with its id, keeping the order of the rest. */
  lemma RemoveAtIsFilter(s: seq<Ad>, i: nat)
    requires DistinctBy(s, AdId) && i < |s|
    ensures s[..i] + s[i + 1..] == Filter(s, OtherAd(s[i].id))
  {
    FilterDropsOne(s, i, OtherAd(s[i].id));
  }

  /** The Advertisement collection: documents in insertion order and the source of
      fresh ObjectIds. */
  class AdCollection {
    var ads: seq<Ad>
    var nextId: ObjectId

    ghost predicate Valid()
      reads this
    {
      DistinctBy(ads, AdId) && forall a :: a in ads ==> a.id < nextId
    }

    constructor ()
      ensures Valid() && ads == [] && nextId == 0
    {
      ads, nextId := [], 0;
    }

    /** GET /: at most ten ads, newest first, and no ad left out is newer than one
        returned; no authorization needed. */
    method List() returns (r: seq<Ad>)
      ensures |r| == if |ads| < ListLimit then |ads| else ListLimit
      ensures multiset(r) <= multiset(ads)
      ensures Sorted(r, NewerFirst)
      ensures forall x, y :: x in r && y in multiset(ads) - multiset(r) ==> NewerFirst(x, y)
    {
      NewerFirstOrders();
      var sorted := Sort(ads, NewerFirst);
      var k := if |sorted| < ListLimit then |sorted| else ListLimit;
      TakeIsLeast(sorted, k, NewerFirst);
      r := sorted[..k];
    }

    /** POST /: a new ad under a fresh id with the target defaulted to 'Global'; a
        missing or empty `image_url` fails validation with 500. The reply body is the
        new id; the route wraps it as `{ id, status: 'success' }`. */
    method Create(authorization: Option<string>, imageUrl: Option<string>, caption: Option<string>,
                  targetNode: Option<string>, now: Time) returns (reply: Reply<ObjectId>)
      requires Valid()
      modifies this
      ensures Valid()
      ensures !HeaderPresent(authorization) ==> reply == Fail(401, Unauthorized)
      ensures HeaderPresent(authorization) && !ImageGiven(imageUrl) ==> reply == Fail(500, Caught(""))
      ensures reply.Fail? ==> ads == old(ads) && nextId == old(nextId)
      ensures reply.Ok? <==> HeaderPresent(authorization) && ImageGiven(imageUrl)
      ensures reply.Ok? ==>
                && reply == Ok(200, old(nextId)) && nextId == old(nextId) + 1
                && (forall a :: a in old(ads) ==> a.id != reply.body)
                && ads == old(ads) + [Ad(reply.body, imageUrl.value, caption.GetOr(DefaultCaption),
                                         TargetOrGlobal(targetNode), now)]
    {
      if !HeaderPresent(authorization) {
        return Fail(401, Unauthorized);
      }
      var ad := NewAd(nextId, imageUrl, caption, Some(TargetOrGlobal(targetNode)), now);
      if ad.None? {
        return Fail(500, Caught(""));
      }
      ads := ads + [ad.value];
      nextId := nextId + 1;
      reply := Ok(200, ad.value.id);
    }

    /** DELETE /:id: remove the ad with that id; an id that is not an ObjectId is a
        CastError (500), an unknown one gives 404. */
    method Delete(authorization: Option<string>, id: IdParam) returns (reply: Reply<Ack>)
      requires Valid()
      modifies this`ads
      ensures Valid()
      ensures !HeaderPresent(authorization) ==> reply == Fail(401, Unauthorized)
      ensures HeaderPresent(authorization) && id.Uncastable? ==> reply == Fail(500, Caught(""))
      ensures HeaderPresent(authorization) && id.Cast? && (forall a :: a in old(ads) ==> !HasId(id.oid, a))
              ==> reply == Fail(404, Message("Advertisement not found"))
      ensures reply.Fail? ==> ads == old(ads)
      ensures reply.Ok? <==> HeaderPresent(authorization) && id.Cast? && exists a :: a in old(ads) && HasId(id.oid, a)
      ensures reply.Ok? ==> reply == Ok(200, Success) && |ads| == |old(ads)| - 1
                            && ads == Filter(old(ads), OtherAd(id.oid))
                            && forall a :: a in ads <==> a in old(ads) && a.id != id.oid
    {
      if !HeaderPresent(authorization) {
        return Fail(401, Unauthorized);
      }
      if id.Uncastable? {
        return Fail(500, Caught(""));
      }
      var i := FirstIndex(ads, a => HasId(id.oid, a));
      if i.None? {
        return Fail(404, Message("Advertisement not found"));
      }
      RemoveAtIsFilter(ads, i.value);
      FilterMembers(ads, OtherAd(id.oid));
      FilterKeepsDistinct(ads, OtherAd(id.oid), AdId);
      ads := ads[..i.value] + ads[i.value + 1..];
      reply := Ok(200, Success);
    }
  }
}
