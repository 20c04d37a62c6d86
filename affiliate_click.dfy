/** `POST /api/affiliates/click`: count a click on an active affiliate. The
    read and the update run in one transaction, so the whole step is one
    atomic change of the `affiliates` collection. */
module AffiliateClick {
  import opened Json
  import opened Http
  import opened Firestore

  datatype ClickRequest = ClickRequest(affiliateId: Option<string>)

  datatype ClickReply = ClickReply(success: bool)

  const MissingAffiliateIdError := "Missing affiliateId"

  /** `data.clickCount || 0` */
  function ClickCount(a: Affiliate): int {
    a.clickCount.GetOr(0)
  }

  /** The transaction body: when the affiliate exists and is active, its
      `clickCount` goes up by one and `updatedAt` becomes `now`; otherwise
      nothing is written. */
  function RecordClick(affiliates: map<DocId, Affiliate>, id: DocId, now: Timestamp)
    : (r: map<DocId, Affiliate>)
    ensures r.Keys == affiliates.Keys
    ensures forall k :: k in affiliates && k != id ==> r[k] == affiliates[k]
    ensures id in affiliates && affiliates[id].isActive ==>
              && ClickCount(r[id]) == ClickCount(affiliates[id]) + 1
              && r[id].isActive
              && r[id].updatedAt == Some(now)
    ensures !(id in affiliates && affiliates[id].isActive) ==> r == affiliates
    ensures forall k :: k in affiliates ==> ClickCount(r[k]) >= ClickCount(affiliates[k])
  {
    if id !in affiliates then affiliates
    else
      var data := affiliates[id];
      if !data.isActive then affiliates
      else affiliates[id := data.(clickCount := Some(ClickCount(data) + 1), updatedAt := Some(now))]
  }

  /** POST: no authentication. The reply is a success whether or not a click
      was counted. */
  method Click(db: Store, req: ClickRequest, now: Timestamp) returns (resp: Response<ClickReply>)
    modifies db
    ensures !Truthy(req.affiliateId) ==> resp == BadRequest(MissingAffiliateIdError)
    ensures !Truthy(req.affiliateId) ==> db.State() == old(db.State())
    ensures Truthy(req.affiliateId) ==>
              && resp == Ok(ClickReply(true))
              && db.State() == old(db.State()).(affiliates :=
                   RecordClick(old(db.affiliates), req.affiliateId.value, now))
  {
    if !Truthy(req.affiliateId) {
      return BadRequest(MissingAffiliateIdError);
    }
    var affiliateId := req.affiliateId.value;
    if affiliateId in db.affiliates {
      var data := db.affiliates[affiliateId];
      if data.isActive {
        db.affiliates := db.affiliates[affiliateId :=
          data.(clickCount := Some(ClickCount(data) + 1), updatedAt := Some(now))];
      }
    }
    return Ok(ClickReply(true));
  }
}
