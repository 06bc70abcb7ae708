/** The coordinator of operations that span enrollments, payments and
    reviews. Each grouped operation disables auto-commit, runs its steps,
    commits when all of them report success and rolls back otherwise
    (also when the commit itself fails), and always switches auto-commit
    back on before it returns. */
module IntegratedService {
  import opened Model
  import opened Table
  import opened Database
  import opened EnrollmentDao
  import opened PaymentDao
  import opened ReviewDao

  /** The committed effect of deleting enrollment `eid`: its payments, its
      reviews and the enrollment itself are soft-deleted. */
  function CascadeFromEnrollment(t: Tables, eid: int, now: Time): Tables
  {
    Tables(SoftDeleteById(t.enrollments, eid, now),
           SoftDeleteByParent(t.payments, PaymentParent, eid, now),
           SoftDeleteByParent(t.reviews, ReviewParent, eid, now))
  }

  /** The committed effect of deleting payment `pid`: the payment, the
      reviews of its enrollment and that enrollment are soft-deleted. */
  function CascadeFromPayment(t: Tables, pid: int, now: Time): Tables
    requires pid in t.payments
  {
    var eid := t.payments[pid].data.enrollmentId;
    Tables(SoftDeleteById(t.enrollments, eid, now),
           SoftDeleteById(t.payments, pid, now),
           SoftDeleteByParent(t.reviews, ReviewParent, eid, now))
  }

  /** The integrity of the store survives the cascade, and its changes
      are ones the history of the store allows. */
  lemma CascadeKeepsInvariants(t: Tables, eid: int, now: Time, ne: int, np: int, nr: int)
    requires TablesValid(t, ne, np, nr)
    ensures TablesValid(CascadeFromEnrollment(t, eid, now), ne, np, nr)
    ensures History(t, CascadeFromEnrollment(t, eid, now))
  {
    var r := CascadeFromEnrollment(t, eid, now);
    SoftDeleteByIdKeeps(t.enrollments, eid, now, ne);
    SoftDeleteByParentKeeps(t.payments, eid, now, np, PaymentParent);
    SoftDeleteByParentKeeps(t.reviews, eid, now, nr, ReviewParent);
    ReferencingSameKeys(r.payments, PaymentParent, t.enrollments, r.enrollments);
    ReferencingSameKeys(r.reviews, ReviewParent, t.enrollments, r.enrollments);
  }

  /** Deleting an enrollment deletes its whole group, stamping `deleted_at`
      on every member, and leaves every row outside the group as it was. */
  lemma CascadeFromEnrollmentComplete(t: Tables, eid: int, now: Time, ne: int, np: int, nr: int)
    requires TablesValid(t, ne, np, nr)
    ensures var r := CascadeFromEnrollment(t, eid, now);
      && TablesValid(r, ne, np, nr)
      && History(t, r)
      && !ActiveAt(r.enrollments, eid)
      && !HasActiveChild(r.payments, PaymentParent, eid)
      && !HasActiveChild(r.reviews, ReviewParent, eid)
      && (eid in t.enrollments ==> r.enrollments[eid].status == Deleted && r.enrollments[eid].deletedAt.Some?)
      && (forall k :: k in t.payments && t.payments[k].data.enrollmentId == eid ==>
            r.payments[k].status == Deleted && r.payments[k].deletedAt.Some?)
      && (forall k :: k in t.reviews && t.reviews[k].data.enrollmentId == eid ==>
            r.reviews[k].status == Deleted && r.reviews[k].deletedAt.Some?)
      && (forall k :: k in t.enrollments && k != eid ==> r.enrollments[k] == t.enrollments[k])
      && (forall k :: k in t.payments && t.payments[k].data.enrollmentId != eid ==> r.payments[k] == t.payments[k])
      && (forall k :: k in t.reviews && t.reviews[k].data.enrollmentId != eid ==> r.reviews[k] == t.reviews[k])
  {
    CascadeKeepsInvariants(t, eid, now, ne, np, nr);
  }

  /** Because at most one payment per enrollment is active, deleting an
      active payment has exactly the effect of deleting its enrollment. */
  lemma CascadesCoincide(t: Tables, pid: int, now: Time, ne: int, np: int, nr: int)
    requires TablesValid(t, ne, np, nr) && ActiveAt(t.payments, pid)
    ensures CascadeFromPayment(t, pid, now) == CascadeFromEnrollment(t, t.payments[pid].data.enrollmentId, now)
  {
    var eid := t.payments[pid].data.enrollmentId;
    var byId := SoftDeleteById(t.payments, pid, now);
    var byParent := SoftDeleteByParent(t.payments, PaymentParent, eid, now);
    forall k | k in t.payments
      ensures byId[k] == byParent[k]
    {
      if k != pid {
        assert ActiveAt(t.payments, k) && PaymentParent(t.payments[k].data) == eid ==> k == pid;
      }
    }
    assert byId == byParent;
  }

  /** Deleting an active payment deletes its whole group: no active payment
      or review of its enrollment remains, nor the enrollment itself. */
  lemma CascadeFromPaymentComplete(t: Tables, pid: int, now: Time, ne: int, np: int, nr: int)
    requires TablesValid(t, ne, np, nr) && ActiveAt(t.payments, pid)
    ensures var r := CascadeFromPayment(t, pid, now);
      var eid := t.payments[pid].data.enrollmentId;
      && TablesValid(r, ne, np, nr)
      && History(t, r)
      && !ActiveAt(r.enrollments, eid)
      && !HasActiveChild(r.payments, PaymentParent, eid)
      && !HasActiveChild(r.reviews, ReviewParent, eid)
  {
    CascadesCoincide(t, pid, now, ne, np, nr);
    CascadeFromEnrollmentComplete(t, t.payments[pid].data.enrollmentId, now, ne, np, nr);
  }

  class IntegratedService {
    const db: Database
    const enrollmentDao: EnrollmentDAO
    const paymentDao: PaymentDAO
    const reviewDao: ReviewDAO

    /** All three stores share the service's connection. */
    ghost predicate Wired()
    {
      enrollmentDao.db == db && paymentDao.db == db && reviewDao.db == db
    }

    constructor (db: Database)
      ensures this.db == db && Wired()
    {
      this.db := db;
      enrollmentDao := new EnrollmentDAO(db);
      paymentDao := new PaymentDAO(db);
      reviewDao := new ReviewDAO(db);
    }

    /** The end of every grouped operation: commit when all steps reported
        success, otherwise roll back; a commit that fails is rolled back
        too (the `catch` block); auto-commit is switched back on in every
        case (the `finally` block). */
    method Finish(stepsOk: bool) returns (committed: bool, ghost fault: bool)
      requires db.Valid() && !db.autoCommit
      modifies db`enrollments, db`payments, db`reviews, db`saved, db`autoCommit
      ensures db.Valid() && db.autoCommit
      ensures committed == (stepsOk && !fault)
      ensures committed ==> db.Snapshot() == old(db.Snapshot())
      ensures !committed ==> db.Snapshot() == old(db.saved)
    {
      if !stepsOk {
        db.Rollback();
        committed, fault := false, false;
      } else {
        committed := db.Commit();
        if !committed {
          db.Rollback();
        }
        fault := !committed;
      }
      db.SetAutoCommit(true);
    }

    /** `registerEnrollmentAndPayment`: inserts the enrollment, threads its
        generated id into the payment, inserts the payment, and commits;
        any failure rolls both inserts back. A fresh enrollment has no
        payment yet, so only a storage failure can make it fail. */
    method RegisterEnrollmentAndPayment(e: Enrollment, p: Payment, now: Time) returns (ok: bool, ghost fault: bool)
      requires Wired() && db.Valid()
      modifies db, e`enrollmentId, p`enrollmentId
      ensures db.Valid() && db.autoCommit
      ensures ok == !fault
      ensures ok ==>
                var eid := old(db.nextEnrollmentId);
                var pid := old(db.nextPaymentId);
                && e.enrollmentId == eid && p.enrollmentId == eid
                && db.nextEnrollmentId == eid + 1 && db.nextPaymentId == pid + 1
                && db.Snapshot() == Tables(
                     old(db.enrollments)[eid := NewRow(eid, EnrollmentData(e.studentId, e.classId), now)],
                     old(db.payments)[pid := NewRow(pid, PaymentData(p.amount, eid), now)],
                     old(db.reviews))
      ensures !ok ==> db.Snapshot() == old(db.RollbackTarget())
      ensures old(db.autoCommit) ==> History(old(db.Snapshot()), db.Snapshot())
      ensures || (e.enrollmentId == old(e.enrollmentId) && p.enrollmentId == old(p.enrollmentId))
              || (e.enrollmentId == old(db.nextEnrollmentId) && p.enrollmentId == old(db.nextEnrollmentId))
      ensures old(db.nextEnrollmentId) <= db.nextEnrollmentId <= old(db.nextEnrollmentId) + 1
      ensures old(db.nextPaymentId) <= db.nextPaymentId <= old(db.nextPaymentId) + 1
      ensures db.nextReviewId == old(db.nextReviewId)
    {
      db.SetAutoCommit(false);
      var created, f1 := enrollmentDao.AddEnrollment(e, now);
      ghost var f2 := false;
      var paid := false;
      if created {
        ghost var eid, pid := e.enrollmentId, db.nextPaymentId;
        InsertNewRow(old(db.enrollments), eid, EnrollmentData(e.studentId, e.classId), now);
        p.enrollmentId := e.enrollmentId;
        assert !HasActiveChild(db.payments, PaymentParent, eid) by {
          assert Referencing(old(db.payments), PaymentParent, old(db.enrollments));
        }
        paid, f2 := paymentDao.AddPayment(p, now);
        if paid {
          InsertNewRow(old(db.payments), pid, PaymentData(p.amount, eid), now);
        }
      }
      ghost var f3;
      ok, f3 := Finish(created && paid);
      fault := f1 || f2 || f3;
    }

    /** `registerReview`: refuses, inserting nothing, when the review's
        enrollment is not active; otherwise the store's insert. No
        transaction is opened. */
    method RegisterReview(r: Review, now: Time) returns (ok: bool, ghost fault: bool)
      requires Wired() && db.Valid()
      modifies db`reviews, db`nextReviewId
      ensures db.Valid()
      ensures ok == (&& !fault
                     && ActiveAt(old(db.enrollments), r.enrollmentId)
                     && !HasActiveChild(old(db.reviews), ReviewParent, r.enrollmentId))
      ensures ok ==>
                && db.nextReviewId == old(db.nextReviewId) + 1
                && db.reviews == old(db.reviews)[old(db.nextReviewId) :=
                     NewRow(old(db.nextReviewId), ReviewData(r.rating, r.content, r.enrollmentId), now)]
      ensures !ok ==> db.nextReviewId == old(db.nextReviewId) && db.reviews == old(db.reviews)
    {
      var active, missed := enrollmentDao.IsActiveEnrollment(r.enrollmentId);
      if !active {
        return false, missed;
      }
      ok, fault := reviewDao.AddReview(r, now);
    }

    /** `deleteEnrollment`: refuses, without opening a transaction, an id
        with no active enrollment; otherwise soft-deletes the enrollment's
        payments, its reviews and the enrollment, all or nothing. */
    method DeleteEnrollment(id: int, now: Time) returns (ok: bool, ghost fault: bool, ghost began: bool)
      requires Wired() && db.Valid()
      modifies db
      ensures db.Valid()
      ensures ok == (!fault && ActiveAt(old(db.enrollments), id))
      ensures !ActiveAt(old(db.enrollments), id) ==> !began
      ensures !began ==>
                && !ok && db.Snapshot() == old(db.Snapshot())
                && db.autoCommit == old(db.autoCommit) && db.saved == old(db.saved)
      ensures began ==> db.autoCommit
      ensures ok ==> db.Snapshot() == CascadeFromEnrollment(old(db.Snapshot()), id, now)
      ensures began && !ok ==> db.Snapshot() == old(db.RollbackTarget())
      ensures old(db.autoCommit) ==> History(old(db.Snapshot()), db.Snapshot())
      ensures db.nextEnrollmentId == old(db.nextEnrollmentId)
      ensures db.nextPaymentId == old(db.nextPaymentId) && db.nextReviewId == old(db.nextReviewId)
    {
      var existing, missed := enrollmentDao.GetEnrollmentById(id);
      if existing.None? {
        return false, missed, false;
      }
      began := true;
      db.SetAutoCommit(false);
      var paymentsDeleted, f1 := paymentDao.DeletePaymentByEnrollmentId(id, now);
      var reviewsDeleted, f2 := reviewDao.DeleteReviewByEnrollmentId(id, now);
      var enrollmentDeleted, f3 := enrollmentDao.DeleteEnrollment(id, now);
      ghost var f4;
      ok, f4 := Finish(paymentsDeleted && reviewsDeleted && enrollmentDeleted);
      fault := f1 || f2 || f3 || f4;
    }

    /** `deletePayment`: refuses, without opening a transaction, an id with
        no active payment; otherwise soft-deletes the payment, the reviews
        of its enrollment and that enrollment, all or nothing. */
    method DeletePayment(id: int, now: Time) returns (ok: bool, ghost fault: bool, ghost began: bool)
      requires Wired() && db.Valid()
      modifies db
      ensures db.Valid()
      ensures ok == (!fault && ActiveAt(old(db.payments), id))
      ensures !ActiveAt(old(db.payments), id) ==> !began
      ensures !began ==>
                && !ok && db.Snapshot() == old(db.Snapshot())
                && db.autoCommit == old(db.autoCommit) && db.saved == old(db.saved)
      ensures began ==> db.autoCommit
      ensures ok ==> db.Snapshot() == CascadeFromPayment(old(db.Snapshot()), id, now)
      ensures began && !ok ==> db.Snapshot() == old(db.RollbackTarget())
      ensures old(db.autoCommit) ==> History(old(db.Snapshot()), db.Snapshot())
      ensures db.nextEnrollmentId == old(db.nextEnrollmentId)
      ensures db.nextPaymentId == old(db.nextPaymentId) && db.nextReviewId == old(db.nextReviewId)
    {
      var existing, missed := paymentDao.GetPaymentById(id);
      if existing.None? {
        return false, missed, false;
      }
      var enrollmentId := existing.value.data.enrollmentId;
      began := true;
      db.SetAutoCommit(false);
      var paymentDeleted, f1 := paymentDao.DeletePayment(id, now);
      var reviewsDeleted, f2 := reviewDao.DeleteReviewByEnrollmentId(enrollmentId, now);
      var enrollmentDeleted, f3 := enrollmentDao.DeleteEnrollment(enrollmentId, now);
      ghost var f4;
      ok, f4 := Finish(paymentDeleted && reviewsDeleted && enrollmentDeleted);
      fault := f1 || f2 || f3 || f4;
    }
  }
}
