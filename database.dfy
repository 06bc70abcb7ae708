/** The single shared JDBC connection together with the database behind it:
    the three tables, their AUTO_INCREMENT counters, the auto-commit flag
    and, while a transaction is open, the state a rollback returns to. */
module Database {
  import opened Model
  import opened Table

  /** The integrity the schema and the store maintain on committed and
      uncommitted states alike. */
  ghost predicate TablesValid(t: Tables, nextEnrollment: int, nextPayment: int, nextReview: int)
  {
    && WellKeyed(t.enrollments, nextEnrollment)
    && WellKeyed(t.payments, nextPayment)
    && WellKeyed(t.reviews, nextReview)
    && Stamped(t.enrollments) && Stamped(t.payments) && Stamped(t.reviews)
    && ActiveUnique(t.payments, PaymentParent)
    && ActiveUnique(t.reviews, ReviewParent)
    && Referencing(t.payments, PaymentParent, t.enrollments)
    && Referencing(t.reviews, ReviewParent, t.enrollments)
  }

  /** Terminal deletion across all three tables: rows are never removed and
      a deleted row never changes again. */
  ghost predicate History(before: Tables, after: Tables)
  {
    Evolves(before.enrollments, after.enrollments)
    && Evolves(before.payments, after.payments)
    && Evolves(before.reviews, after.reviews)
  }

  class Database {
    var enrollments: EnrollmentTable
    var payments: PaymentTable
    var reviews: ReviewTable
    /** AUTO_INCREMENT counters; a rollback does not give their values back. */
    var nextEnrollmentId: int
    var nextPaymentId: int
    var nextReviewId: int
    var autoCommit: bool
    /** The state at the start of the open transaction (meaningful only
        while `autoCommit` is false). */
    var saved: Tables

    function Snapshot(): Tables
      reads this
    {
      Tables(enrollments, payments, reviews)
    }

    /** The state `rollback` would return to. */
    function RollbackTarget(): Tables
      reads this
    {
      if autoCommit then Snapshot() else saved
    }

    ghost predicate Valid()
      reads this
    {
      && TablesValid(Snapshot(), nextEnrollmentId, nextPaymentId, nextReviewId)
      && (!autoCommit ==> TablesValid(saved, nextEnrollmentId, nextPaymentId, nextReviewId))
    }

    /** An empty database on a connection in auto-commit mode. */
    constructor ()
      ensures Valid() && autoCommit
      ensures Snapshot() == Tables(map[], map[], map[])
      ensures nextEnrollmentId == 1 && nextPaymentId == 1 && nextReviewId == 1
    {
      enrollments, payments, reviews := map[], map[], map[];
      nextEnrollmentId, nextPaymentId, nextReviewId := 1, 1, 1;
      autoCommit := true;
      saved := Tables(map[], map[], map[]);
    }

    /** Whether one statement reaches the database (true) or fails with an
        `SQLException` (false). The outcome is outside the program's control. */
    method Execute() returns (ran: bool)
    {
      ran :| true;
    }

    /** `Connection.setAutoCommit(on)`: switching it off opens a transaction
        at the current state; switching it on ends the open transaction,
        keeping its changes. */
    method SetAutoCommit(on: bool)
      modifies this`autoCommit, this`saved
      ensures autoCommit == on
      ensures old(autoCommit) && !on ==> saved == Snapshot()
      ensures !(old(autoCommit) && !on) ==> saved == old(saved)
      ensures RollbackTarget() == if on then Snapshot() else old(RollbackTarget())
      ensures old(Valid()) ==> Valid()
    {
      if autoCommit && !on {
        saved := Snapshot();
      }
      autoCommit := on;
    }

    /** `Connection.commit()`: fails in auto-commit mode and may fail for
        storage reasons; on success the current state becomes the base of
        the next transaction. */
    method Commit() returns (ok: bool)
      modifies this`saved
      ensures old(autoCommit) ==> !ok
      ensures ok ==> saved == Snapshot()
      ensures !ok ==> saved == old(saved)
      ensures ok ==> RollbackTarget() == Snapshot()
      ensures !ok ==> RollbackTarget() == old(RollbackTarget())
      ensures old(Valid()) ==> Valid()
    {
      if autoCommit {
        ok := false;
      } else {
        ok := Execute();
        if ok {
          saved := Snapshot();
        }
      }
    }

    /** `Connection.rollback()`: the tables return to the start of the open
        transaction (nothing to undo in auto-commit mode). */
    method Rollback()
      modifies this`enrollments, this`payments, this`reviews
      ensures Snapshot() == old(RollbackTarget())
      ensures RollbackTarget() == Snapshot()
      ensures old(Valid()) ==> Valid()
    {
      if !autoCommit {
        enrollments, payments, reviews := saved.enrollments, saved.payments, saved.reviews;
      }
    }
  }
}
