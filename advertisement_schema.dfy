/** The Advertisement document: a required image URL, a caption and a target node
    with defaults, and a creation time. */
module AdvertisementSchema {
  import opened Wrappers
  import opened Http

  datatype Ad = Ad(id: ObjectId, imageUrl: string, caption: string, targetNode: string, createdAt: Time)

  const DefaultCaption: string := ""
  const DefaultTarget: string := "Global"

  /** The `required` check on `image_url`: present and non-empty. */
  predicate ImageGiven(imageUrl: Option<string>) {
    imageUrl.Some? && imageUrl.value != ""
  }

  /** Validating and defaulting a new document; `None` is a ValidationError.
      Defaults apply to absent fields only: an empty caption stays empty. */
  function NewAd(id: ObjectId, imageUrl: Option<string>, caption: Option<string>, targetNode: Option<string>,
                 now: Time): (r: Option<Ad>)
    ensures r.Some? <==> ImageGiven(imageUrl)
    ensures r.Some? ==> && r.value.id == id && r.value.imageUrl == imageUrl.value && r.value.imageUrl != ""
                        && r.value.createdAt == now
                        && (caption.Some? ==> r.value.caption == caption.value)
                        && (caption.None? ==> r.value.caption == DefaultCaption)
                        && (targetNode.Some? ==> r.value.targetNode == targetNode.value)
                        && (targetNode.None? ==> r.value.targetNode == DefaultTarget)
  {
    if ImageGiven(imageUrl) then
      Some(Ad(id, imageUrl.value, caption.GetOr(DefaultCaption), targetNode.GetOr(DefaultTarget), now))
    else
      None
  }
}
