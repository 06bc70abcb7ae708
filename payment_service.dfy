/** The single-table service for payments: reads pass through to the
    store, an update first checks that the payment is active. */
module PaymentService {
  import opened Model
  import opened Table
  import opened Database
  import opened PaymentDao

  class PaymentService {
    const dao: PaymentDAO

    constructor (db: Database)
      ensures dao.db == db
    {
      dao := new PaymentDAO(db);
    }

    /** `getAllPayments`: the store's listing of active payments. */
    method GetAllPayments() returns (r: Option<seq<Row<PaymentData>>>, ghost fault: bool)
      requires dao.db.Valid()
      ensures r.None? <==> fault
      ensures r.Some? ==> ListsActive(dao.db.payments, r.value)
    {
      r, fault := dao.GetAllPayments();
    }

    /** `getPaymentById`: the active row or null. */
    method GetPaymentById(id: int) returns (r: Option<Row<PaymentData>>, ghost fault: bool)
      ensures r.Some? <==> !fault && ActiveAt(dao.db.payments, id)
      ensures r.Some? ==> r.value == dao.db.payments[id]
    {
      r, fault := dao.GetPaymentById(id);
    }

    /** `updatePayment`: refuses an id with no active row before it reaches
        the update statement; otherwise only the amount changes. */
    method UpdatePayment(p: Payment, now: Time) returns (ok: bool, ghost fault: bool)
      requires dao.db.Valid()
      modifies dao.db`payments
      ensures dao.db.Valid()
      ensures ok == (!fault && ActiveAt(old(dao.db.payments), p.paymentId))
      ensures dao.db.payments ==
                if ok then EditPayment(old(dao.db.payments), p.paymentId, p.amount, now)
                else old(dao.db.payments)
    {
      var existing, missed := dao.GetPaymentById(p.paymentId);
      if existing.None? {
        return false, missed;
      }
      ok, fault := dao.UpdatePayment(p, now);
    }
  }
}
