/** The single-table service for reviews: reads pass through to the store,
    update and delete first check that the review is active. */
module ReviewService {
  import opened Model
  import opened Table
  import opened Database
  import opened ReviewDao

  class ReviewService {
    const dao: ReviewDAO

    constructor (db: Database)
      ensures dao.db == db
    {
      dao := new ReviewDAO(db);
    }

    /** `getAllReviews`: the store's listing of active reviews. */
    method GetAllReviews() returns (r: Option<seq<Row<ReviewData>>>, ghost fault: bool)
      requires dao.db.Valid()
      ensures r.None? <==> fault
      ensures r.Some? ==> ListsActive(dao.db.reviews, r.value)
    {
      r, fault := dao.GetAllReviews();
    }

    /** `getReviewById`: the active row or null. */
    method GetReviewById(id: int) returns (r: Option<Row<ReviewData>>, ghost fault: bool)
      ensures r.Some? <==> !fault && ActiveAt(dao.db.reviews, id)
      ensures r.Some? ==> r.value == dao.db.reviews[id]
    {
      r, fault := dao.GetReviewById(id);
    }

    /** `updateReview`: refuses an id with no active row before it reaches
        the update statement; otherwise rating and content change. */
    method UpdateReview(r: Review, now: Time) returns (ok: bool, ghost fault: bool)
      requires dao.db.Valid()
      modifies dao.db`reviews
      ensures dao.db.Valid()
      ensures ok == (!fault && ActiveAt(old(dao.db.reviews), r.reviewId))
      ensures dao.db.reviews ==
                if ok then EditReview(old(dao.db.reviews), r.reviewId, r.rating, r.content, now)
                else old(dao.db.reviews)
    {
      var existing, missed := dao.GetReviewById(r.reviewId);
      if existing.None? {
        return false, missed;
      }
      ok, fault := dao.UpdateReview(r, now);
    }

    /** `deleteReview`: refuses an id with no active row, so that unlike the
        store's delete it reports a review that is already deleted;
        otherwise soft-deletes exactly that review. */
    method DeleteReview(id: int, now: Time) returns (ok: bool, ghost fault: bool)
      requires dao.db.Valid()
      modifies dao.db`reviews
      ensures dao.db.Valid()
      ensures ok == (!fault && ActiveAt(old(dao.db.reviews), id))
      ensures dao.db.reviews == if ok then SoftDeleteById(old(dao.db.reviews), id, now) else old(dao.db.reviews)
    {
      var existing, missed := dao.GetReviewById(id);
      if existing.None? {
        return false, missed;
      }
      ok, fault := dao.DeleteReview(id, now);
    }
  }

  /** Deleting the same review twice: once the first call has succeeded the
      second reports failure, and the review stays deleted. */
  method DeleteReviewTwice(s: ReviewService, id: int, now1: Time, now2: Time) returns (first: bool, second: bool)
    requires s.dao.db.Valid()
    modifies s.dao.db`reviews
    ensures first ==> !second
    ensures first ==> id in s.dao.db.reviews && s.dao.db.reviews[id].status == Deleted
  {
    ghost var f1, f2;
    first, f1 := s.DeleteReview(id, now1);
    second, f2 := s.DeleteReview(id, now2);
  }
}
