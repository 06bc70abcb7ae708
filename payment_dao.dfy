/** The record store for the `payments` table. */
module PaymentDao {
  import opened Model
  import opened Table
  import opened Database

  /** `UPDATE payments SET amount = ?, updated_at = now()
      WHERE payment_id = ? AND status = 0`. */
  function EditPayment(t: PaymentTable, id: int, amount: int, now: Time): (r: PaymentTable)
    ensures r.Keys == t.Keys
    ensures forall k :: k in t && k != id ==> r[k] == t[k]
    ensures !ActiveAt(t, id) ==> r == t
    ensures ActiveAt(t, id) ==>
              && r[id].data.amount == amount
              && r[id].data.enrollmentId == t[id].data.enrollmentId
              && r[id].updatedAt == Some(now)
              && r[id].id == t[id].id && r[id].status == Active
              && r[id].createdAt == t[id].createdAt && r[id].deletedAt == t[id].deletedAt
    ensures Evolves(t, r)
  {
    if ActiveAt(t, id) then t[id := t[id].(data := t[id].data.(amount := amount), updatedAt := Some(now))]
    else t
  }

  class PaymentDAO {
    const db: Database

    constructor (db: Database)
      ensures this.db == db
    {
      this.db := db;
    }

    /** `getAllPayments`: the active rows, or null when the query fails. */
    method GetAllPayments() returns (r: Option<seq<Row<PaymentData>>>, ghost fault: bool)
      requires db.Valid()
      ensures r.None? <==> fault
      ensures r.Some? ==> ListsActive(db.payments, r.value)
    {
      var ran := db.Execute();
      if !ran {
        return None, true;
      }
      var rows := ReadActive(db.payments, db.nextPaymentId);
      return Some(rows), false;
    }

    /** `getPaymentById`: the row with that id if it is active, otherwise
        null; null as well when the query fails. */
    method GetPaymentById(id: int) returns (r: Option<Row<PaymentData>>, ghost fault: bool)
      ensures r.Some? <==> !fault && ActiveAt(db.payments, id)
      ensures r.Some? ==> r.value == db.payments[id]
    {
      var ran := db.Execute();
      if ran && id in db.payments && db.payments[id].status == Active {
        return Some(db.payments[id]), false;
      }
      return None, !ran;
    }

    /** `addPayment`: inserts an active row with the object's amount and
        enrollment id under the next generated id. The insert is refused
        when the enrollment row does not exist (foreign key) or already has
        an active payment (unique index over active rows). The generated id
        is not written back into the object. */
    method AddPayment(p: Payment, now: Time) returns (ok: bool, ghost fault: bool)
      requires db.Valid()
      modifies db`payments, db`nextPaymentId
      ensures db.Valid()
      ensures unchanged(p)
      ensures ok == (&& !fault
                     && p.enrollmentId in old(db.enrollments)
                     && !HasActiveChild(old(db.payments), PaymentParent, p.enrollmentId))
      ensures ok ==>
                && db.nextPaymentId == old(db.nextPaymentId) + 1
                && db.payments == old(db.payments)[old(db.nextPaymentId) :=
                     NewRow(old(db.nextPaymentId), PaymentData(p.amount, p.enrollmentId), now)]
      ensures !ok ==> db.nextPaymentId == old(db.nextPaymentId) && db.payments == old(db.payments)
    {
      var ran := db.Execute();
      if !ran {
        return false, true;
      }
      fault := false;
      if p.enrollmentId !in db.enrollments || HasActiveChild(db.payments, PaymentParent, p.enrollmentId) {
        return false, false;
      }
      var id := db.nextPaymentId;
      InsertNewRow(db.payments, id, PaymentData(p.amount, p.enrollmentId), now);
      db.payments := db.payments[id := NewRow(id, PaymentData(p.amount, p.enrollmentId), now)];
      db.nextPaymentId := id + 1;
      ok := true;
    }

    /** `updatePayment`: replaces the amount of the active row with the
        object's id, never its enrollment; true only when such a row was
        there. */
    method UpdatePayment(p: Payment, now: Time) returns (ok: bool, ghost fault: bool)
      requires db.Valid()
      modifies db`payments
      ensures db.Valid()
      ensures ok == (!fault && ActiveAt(old(db.payments), p.paymentId))
      ensures db.payments ==
                if fault then old(db.payments) else EditPayment(old(db.payments), p.paymentId, p.amount, now)
    {
      var ran := db.Execute();
      if !ran {
        return false, true;
      }
      ok := ActiveAt(db.payments, p.paymentId);
      db.payments := EditPayment(db.payments, p.paymentId, p.amount, now);
      fault := false;
    }

    /** `deletePayment`: soft-deletes the active row with that id; true
        whenever the statement ran, also when no row matched. */
    method DeletePayment(id: int, now: Time) returns (ok: bool, ghost fault: bool)
      requires db.Valid()
      modifies db`payments
      ensures db.Valid()
      ensures ok == !fault
      ensures db.payments == if fault then old(db.payments) else SoftDeleteById(old(db.payments), id, now)
    {
      var ran := db.Execute();
      if !ran {
        return false, true;
      }
      db.payments := SoftDeleteById(db.payments, id, now);
      return true, false;
    }

    /** `deletePaymentByEnrollmentId`: soft-deletes every active payment of
        that enrollment; true whenever the statement ran. */
    method DeletePaymentByEnrollmentId(enrollmentId: int, now: Time) returns (ok: bool, ghost fault: bool)
      requires db.Valid()
      modifies db`payments
      ensures db.Valid()
      ensures ok == !fault
      ensures db.payments ==
                if fault then old(db.payments)
                else SoftDeleteByParent(old(db.payments), PaymentParent, enrollmentId, now)
    {
      var ran := db.Execute();
      if !ran {
        return false, true;
      }
      db.payments := SoftDeleteByParent(db.payments, PaymentParent, enrollmentId, now);
      return true, false;
    }
  }
}
