/** The record store for the `reviews` table. */
module ReviewDao {
  import opened Model
  import opened Table
  import opened Database

  /** `UPDATE reviews SET rating = ?, content = ?, updated_at = now()
      WHERE review_id = ? AND status = 0`. */
  function EditReview(t: ReviewTable, id: int, rating: Byte, content: string, now: Time): (r: ReviewTable)
    ensures r.Keys == t.Keys
    ensures forall k :: k in t && k != id ==> r[k] == t[k]
    ensures !ActiveAt(t, id) ==> r == t
    ensures ActiveAt(t, id) ==>
              && r[id].data.rating == rating && r[id].data.content == content
              && r[id].data.enrollmentId == t[id].data.enrollmentId
              && r[id].updatedAt == Some(now)
              && r[id].id == t[id].id && r[id].status == Active
              && r[id].createdAt == t[id].createdAt && r[id].deletedAt == t[id].deletedAt
    ensures Evolves(t, r)
  {
    if ActiveAt(t, id) then
      t[id := t[id].(data := t[id].data.(rating := rating, content := content), updatedAt := Some(now))]
    else t
  }

  class ReviewDAO {
    const db: Database

    constructor (db: Database)
      ensures this.db == db
    {
      this.db := db;
    }

    /** `getAllReviews`: the active rows, or null when the query fails. */
    method GetAllReviews() returns (r: Option<seq<Row<ReviewData>>>, ghost fault: bool)
      requires db.Valid()
      ensures r.None? <==> fault
      ensures r.Some? ==> ListsActive(db.reviews, r.value)
    {
      var ran := db.Execute();
      if !ran {
        return None, true;
      }
      var rows := ReadActive(db.reviews, db.nextReviewId);
      return Some(rows), false;
    }

    /** `getReviewById`: the row with that id if it is active, otherwise
        null; null as well when the query fails. */
    method GetReviewById(id: int) returns (r: Option<Row<ReviewData>>, ghost fault: bool)
      ensures r.Some? <==> !fault && ActiveAt(db.reviews, id)
      ensures r.Some? ==> r.value == db.reviews[id]
    {
      var ran := db.Execute();
      if ran && id in db.reviews && db.reviews[id].status == Active {
        return Some(db.reviews[id]), false;
      }
      return None, !ran;
    }

    /** `addReview`: inserts an active row with the object's rating, content
        and enrollment id under the next generated id. The insert is refused
        when the enrollment row does not exist (foreign key) or already has
        an active review (unique index over active rows). */
    method AddReview(r: Review, now: Time) returns (ok: bool, ghost fault: bool)
      requires db.Valid()
      modifies db`reviews, db`nextReviewId
      ensures db.Valid()
      ensures unchanged(r)
      ensures ok == (&& !fault
                     && r.enrollmentId in old(db.enrollments)
                     && !HasActiveChild(old(db.reviews), ReviewParent, r.enrollmentId))
      ensures ok ==>
                && db.nextReviewId == old(db.nextReviewId) + 1
                && db.reviews == old(db.reviews)[old(db.nextReviewId) :=
                     NewRow(old(db.nextReviewId), ReviewData(r.rating, r.content, r.enrollmentId), now)]
      ensures !ok ==> db.nextReviewId == old(db.nextReviewId) && db.reviews == old(db.reviews)
    {
      var ran := db.Execute();
      if !ran {
        return false, true;
      }
      fault := false;
      if r.enrollmentId !in db.enrollments || HasActiveChild(db.reviews, ReviewParent, r.enrollmentId) {
        return false, false;
      }
      var id := db.nextReviewId;
      InsertNewRow(db.reviews, id, ReviewData(r.rating, r.content, r.enrollmentId), now);
      db.reviews := db.reviews[id := NewRow(id, ReviewData(r.rating, r.content, r.enrollmentId), now)];
      db.nextReviewId := id + 1;
      ok := true;
    }

    /** `updateReview`: replaces rating and content of the active row with
        the object's id, never its enrollment; true only when such a row was
        there. */
    method UpdateReview(r: Review, now: Time) returns (ok: bool, ghost fault: bool)
      requires db.Valid()
      modifies db`reviews
      ensures db.Valid()
      ensures ok == (!fault && ActiveAt(old(db.reviews), r.reviewId))
      ensures db.reviews ==
                if fault then old(db.reviews) else EditReview(old(db.reviews), r.reviewId, r.rating, r.content, now)
    {
      var ran := db.Execute();
      if !ran {
        return false, true;
      }
      ok := ActiveAt(db.reviews, r.reviewId);
      db.reviews := EditReview(db.reviews, r.reviewId, r.rating, r.content, now);
      fault := false;
    }

    /** `deleteReview`: soft-deletes the active row with that id; true
        whenever the statement ran, also when no row matched. */
    method DeleteReview(id: int, now: Time) returns (ok: bool, ghost fault: bool)
      requires db.Valid()
      modifies db`reviews
      ensures db.Valid()
      ensures ok == !fault
      ensures db.reviews == if fault then old(db.reviews) else SoftDeleteById(old(db.reviews), id, now)
    {
      var ran := db.Execute();
      if !ran {
        return false, true;
      }
      db.reviews := SoftDeleteById(db.reviews, id, now);
      return true, false;
    }

    /** `deleteReviewByEnrollmentId`: soft-deletes every active review of
        that enrollment; true whenever the statement ran. */
    method DeleteReviewByEnrollmentId(enrollmentId: int, now: Time) returns (ok: bool, ghost fault: bool)
      requires db.Valid()
      modifies db`reviews
      ensures db.Valid()
      ensures ok == !fault
      ensures db.reviews ==
                if fault then old(db.reviews)
                else SoftDeleteByParent(old(db.reviews), ReviewParent, enrollmentId, now)
    {
      var ran := db.Execute();
      if !ran {
        return false, true;
      }
      db.reviews := SoftDeleteByParent(db.reviews, ReviewParent, enrollmentId, now);
      return true, false;
    }
  }
}
