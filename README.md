# metabirth record store, modelled in Dafny

metabirth keeps course enrollments, the payment for each enrollment and the
review of each enrollment in three MySQL tables. No row is ever removed:
every table has a `status` column (0 active, 1 deleted), and a delete is an
`UPDATE` that sets `status = 1` and stamps `updated_at` and `deleted_at`.
Every read sees active rows only.

The core modelled here has three layers:
- three record stores (`EnrollmentDAO`, `PaymentDAO`, `ReviewDAO`), one
  SQL statement per operation;
- three single-table services, which check that a row is active before
  they update or delete it;
- the coordinator `IntegratedService`. It registers an enrollment together
  with its payment, and it deletes an enrollment or a payment together
  with the rest of its group. Each grouped operation is all-or-nothing:
  auto-commit off, the steps, then a commit, or a rollback when a step
  fails.

Layout:
- `model.dfy`: rows, tables, and the caller's entity objects.
- `table.dfy`: what each SQL statement does to one soft-delete table, and
  the table invariants.
  - Every row sits under its generated id.
  - `deleted_at` is set exactly on deleted rows.
  - An enrollment has at most one active payment and at most one active
    review.
  - Payments and reviews reference an existing enrollment.
  - Outside a rollback, a deleted row never changes again. A rollback can
    make a row deleted inside the open transaction active again.
- `database.dfy`: the shared connection as a class. It holds the three
  tables, the AUTO_INCREMENT counters, the auto-commit flag and the state a
  rollback returns to.
- `*_dao.dfy`, `*_service.dfy` and `integrated_service.dfy`: one class per
  Java class. Each method is proved against the table functions.

Storage failures (`SQLException`) are outside the program's control. They
are modelled as a nondeterministic outcome of `Database.Execute`. Each store
and service method also returns a ghost `fault` flag, so that its result can
be stated exactly: for example, "true if and only if no fault occurred and
the row was active". The database clock `now()` is a `now` parameter.

The foreign keys from `payments.enrollment_id` and `reviews.enrollment_id`
to `enrollments` come from the schema, which is not among the Java files. So
does the unique index over `active_enrollment_id`, a generated column that
holds the enrollment id only while the row is active. `AddPayment` and
`AddReview` fail when the enrollment row is missing or already has an
active child.

The store's delete statements report success whenever they run, also when
no row matched. The model keeps that: `ok == !fault`.

## Model

| member | source | states |
|---|---|---|
| Table.ReadActive | src/main/java/com/metabirth/dao/EnrollmentDAO.java:22-48 | The result-set loop returns every active row exactly once, nothing else, in key order. |
| Table.ListingUnique | src/main/java/com/metabirth/dao/EnrollmentDAO.java:22-48 | Any two results that both list the active rows are the same sequence, so a listing is determined by the table. |
| Table.InsertNewRow | src/main/java/com/metabirth/dao/EnrollmentDAO.java:82-108 | An insert under the next generated id uses a fresh key. It keeps the table well keyed and stamped, and it alters no existing row. |
| Table.SoftDeleteById | src/main/java/com/metabirth/dao/EnrollmentDAO.java:129-142 | Only the row with that id changes, and only when it is active. It becomes deleted with the same data and with `updated_at`/`deleted_at` set to now. The keys stay the same, and a row that was already deleted is untouched. |
| Table.SoftDeleteByParent | src/main/java/com/metabirth/dao/PaymentDAO.java:138-151 | Every active row of that enrollment becomes deleted, keeping its data, with `updated_at` and `deleted_at` set to now. Every other row stays unchanged. Afterwards no active row of that enrollment is left. |
| Table.SoftDeleteByIdKeeps | src/main/java/com/metabirth/dao/EnrollmentDAO.java:129-142 | A soft-delete by key keeps the table well keyed and stamped. |
| Table.SoftDeleteByParentKeeps | src/main/java/com/metabirth/dao/PaymentDAO.java:138-151 | A soft-delete by enrollment keeps the table well keyed and stamped, with at most one active row per enrollment. |
| Table.ReferencingSameKeys | src/main/java/com/metabirth/dao/PaymentDAO.java:79-87 | The foreign key holds for any parent table with the same keys, so soft-deleting enrollments never breaks it. |
| Table.ReinsertAfterSoftDelete | src/main/java/com/metabirth/dao/PaymentDAO.java:79-87 | While an enrollment has an active child, a second insert is refused. Once that child is soft-deleted, a new one is admitted. |
| Database.Database.SetAutoCommit | src/main/java/com/metabirth/service/IntegratedService.java:36 | Switching auto-commit off opens a transaction at the current state. Switching it on keeps the changes. Validity is preserved. |
| Database.Database.Commit | src/main/java/com/metabirth/service/IntegratedService.java:57 | A commit fails in auto-commit mode. On success the current state becomes the rollback target. Validity is preserved. |
| Database.Database.Rollback | src/main/java/com/metabirth/service/IntegratedService.java:41 | The tables return to the rollback target. Validity is preserved. |
| EnrollmentDao.EditEnrollment | src/main/java/com/metabirth/dao/EnrollmentDAO.java:111-126 | Only the active row with that id changes: its student id, class id and `updated_at`. Its key, status, `created_at` and `deleted_at` stay the same. Nothing changes when no active row matches. |
| EnrollmentDao.EnrollmentDAO.GetAllEnrollments | src/main/java/com/metabirth/dao/EnrollmentDAO.java:22-48 | Null exactly on a storage failure; otherwise exactly the active enrollments, in key order. |
| EnrollmentDao.EnrollmentDAO.GetEnrollmentById | src/main/java/com/metabirth/dao/EnrollmentDAO.java:51-79 | Returns the row if and only if no fault occurred and the row with that id is active. It changes nothing. |
| EnrollmentDao.EnrollmentDAO.AddEnrollment | src/main/java/com/metabirth/dao/EnrollmentDAO.java:82-108 | On success: one new active row under the next generated id, the counter advanced, and the id written back into the object. On failure nothing changes. |
| EnrollmentDao.EnrollmentDAO.UpdateEnrollment | src/main/java/com/metabirth/dao/EnrollmentDAO.java:111-126 | True if and only if no fault occurred and the row was active. The table becomes `EditEnrollment` of the old table, or stays unchanged on a fault. |
| EnrollmentDao.EnrollmentDAO.DeleteEnrollment | src/main/java/com/metabirth/dao/EnrollmentDAO.java:129-142 | True if and only if the statement ran, also when no row matched. The table becomes `SoftDeleteById` of the old table. |
| EnrollmentDao.EnrollmentDAO.IsActiveEnrollment | src/main/java/com/metabirth/dao/EnrollmentDAO.java:145-162 | True if and only if no fault occurred and an active enrollment with that id exists. It changes nothing. |
| PaymentDao.EditPayment | src/main/java/com/metabirth/dao/PaymentDAO.java:105-119 | Only the amount and `updated_at` of the active row with that id change, never its enrollment id. Nothing changes when no active row matches. |
| PaymentDao.PaymentDAO.GetAllPayments | src/main/java/com/metabirth/dao/PaymentDAO.java:21-46 | Null exactly on a storage failure; otherwise exactly the active payments, in key order. |
| PaymentDao.PaymentDAO.GetPaymentById | src/main/java/com/metabirth/dao/PaymentDAO.java:49-76 | Returns the row if and only if no fault occurred and the payment is active, so a soft-deleted payment reads as null. |
| PaymentDao.PaymentDAO.AddPayment | src/main/java/com/metabirth/dao/PaymentDAO.java:78-102 | True if and only if no fault occurred, the enrollment row exists and no active payment references it. On success one new active row carries the amount and enrollment id. The object is not changed (no id is written back). |
| PaymentDao.PaymentDAO.UpdatePayment | src/main/java/com/metabirth/dao/PaymentDAO.java:105-119 | True if and only if no fault occurred and the payment was active. The table becomes `EditPayment` of the old table. |
| PaymentDao.PaymentDAO.DeletePayment | src/main/java/com/metabirth/dao/PaymentDAO.java:122-135 | True if and only if the statement ran. The table becomes `SoftDeleteById` of the old table. |
| PaymentDao.PaymentDAO.DeletePaymentByEnrollmentId | src/main/java/com/metabirth/dao/PaymentDAO.java:138-151 | True if and only if the statement ran. The table becomes `SoftDeleteByParent` of the old table. |
| ReviewDao.EditReview | src/main/java/com/metabirth/dao/ReviewDAO.java:108-123 | Only the rating, content and `updated_at` of the active row with that id change, never its enrollment id. Nothing changes when no active row matches. |
| ReviewDao.ReviewDAO.GetAllReviews | src/main/java/com/metabirth/dao/ReviewDAO.java:21-47 | Null exactly on a storage failure; otherwise exactly the active reviews, in key order. |
| ReviewDao.ReviewDAO.GetReviewById | src/main/java/com/metabirth/dao/ReviewDAO.java:50-78 | Returns the row if and only if no fault occurred and the review is active. |
| ReviewDao.ReviewDAO.AddReview | src/main/java/com/metabirth/dao/ReviewDAO.java:79-105 | True if and only if no fault occurred, the enrollment row exists and no active review references it. On success one new active row carries the rating, content and enrollment id. |
| ReviewDao.ReviewDAO.UpdateReview | src/main/java/com/metabirth/dao/ReviewDAO.java:108-123 | True if and only if no fault occurred and the review was active. The table becomes `EditReview` of the old table. |
| ReviewDao.ReviewDAO.DeleteReview | src/main/java/com/metabirth/dao/ReviewDAO.java:126-139 | True if and only if the statement ran. The table becomes `SoftDeleteById` of the old table. |
| ReviewDao.ReviewDAO.DeleteReviewByEnrollmentId | src/main/java/com/metabirth/dao/ReviewDAO.java:142-155 | True if and only if the statement ran. The table becomes `SoftDeleteByParent` of the old table. |
| EnrollmentService.EnrollmentService.GetAllEnrollments | src/main/java/com/metabirth/service/EnrollmentService.java:23-25 | The store's listing: exactly the active enrollments, or null on a fault. |
| EnrollmentService.EnrollmentService.GetEnrollmentById | src/main/java/com/metabirth/service/EnrollmentService.java:28-30 | The active row or null. It changes nothing. |
| EnrollmentService.EnrollmentService.UpdateEnrollment | src/main/java/com/metabirth/service/EnrollmentService.java:33-40 | True if and only if no fault occurred and the enrollment was active. In that case the table is the store's update of it; otherwise the table is unchanged. |
| PaymentService.PaymentService.GetAllPayments | src/main/java/com/metabirth/service/PaymentService.java:23-25 | The store's listing: exactly the active payments, or null on a fault. |
| PaymentService.PaymentService.GetPaymentById | src/main/java/com/metabirth/service/PaymentService.java:28-30 | The active payment or null. It changes nothing. |
| PaymentService.PaymentService.UpdatePayment | src/main/java/com/metabirth/service/PaymentService.java:33-40 | True if and only if no fault occurred and the payment was active. In that case only its amount and `updated_at` change; otherwise the table is unchanged. |
| ReviewService.ReviewService.GetAllReviews | src/main/java/com/metabirth/service/ReviewService.java:23-25 | The store's listing: exactly the active reviews, or null on a fault. |
| ReviewService.ReviewService.GetReviewById | src/main/java/com/metabirth/service/ReviewService.java:28-30 | The active review or null. It changes nothing. |
| ReviewService.ReviewService.UpdateReview | src/main/java/com/metabirth/service/ReviewService.java:33-40 | True if and only if no fault occurred and the review was active. In that case its rating and content change; otherwise the table is unchanged. |
| ReviewService.ReviewService.DeleteReview | src/main/java/com/metabirth/service/ReviewService.java:43-50 | True if and only if no fault occurred and the review was active. In that case exactly that review is soft-deleted; otherwise the table is unchanged. |
| ReviewService.DeleteReviewTwice | src/main/java/com/metabirth/service/ReviewService.java:43-50 | When the first delete of a review succeeds, a second delete of it fails, and the review stays deleted. |
| IntegratedService.CascadeKeepsInvariants | src/main/java/com/metabirth/service/IntegratedService.java:92-111 | The grouped soft-delete keeps every table invariant, and its changes are ones the store's history allows. |
| IntegratedService.CascadeFromEnrollmentComplete | src/main/java/com/metabirth/service/IntegratedService.java:85-119 | After an enrollment's group is deleted, the enrollment and all its payments and reviews are deleted with `deleted_at` set, and no active member of the group is left. Rows outside the group are unchanged, and the invariants hold. |
| IntegratedService.CascadesCoincide | src/main/java/com/metabirth/service/IntegratedService.java:125-160 | Deleting an active payment has exactly the effect of deleting its enrollment, because that enrollment has no other active payment. |
| IntegratedService.CascadeFromPaymentComplete | src/main/java/com/metabirth/service/IntegratedService.java:125-160 | After an active payment is deleted, no active payment, review or enrollment of its enrollment is left, and the invariants hold. |
| IntegratedService.IntegratedService.Finish | src/main/java/com/metabirth/service/IntegratedService.java:104-118 | Commits only when all steps succeeded and the commit went through. Otherwise the tables return to the start of the transaction. Auto-commit is on afterwards in every case. |
| IntegratedService.IntegratedService.RegisterEnrollmentAndPayment | src/main/java/com/metabirth/service/IntegratedService.java:34-66 | True if and only if no fault occurred. On success, exactly one new active enrollment and one new active payment are added, the payment carrying the enrollment's new id, and both AUTO_INCREMENT counters advance by one. On failure the tables return to the state at the start of the open transaction (the state before the call when auto-commit was on). Auto-commit is on afterwards. |
| IntegratedService.IntegratedService.RegisterReview | src/main/java/com/metabirth/service/IntegratedService.java:72-79 | True if and only if no fault occurred, the enrollment is active and it has no active review. On refusal nothing is inserted; otherwise it is the store's insert. |
| IntegratedService.IntegratedService.DeleteEnrollment | src/main/java/com/metabirth/service/IntegratedService.java:85-119 | True if and only if no fault occurred and the enrollment was active. Without an active enrollment no transaction is opened and nothing changes. On success the tables are `CascadeFromEnrollment` of the old tables; on a later failure they return to the state at the start of the open transaction (the state before the call when auto-commit was on). Auto-commit is on afterwards. |
| IntegratedService.IntegratedService.DeletePayment | src/main/java/com/metabirth/service/IntegratedService.java:125-160 | True if and only if no fault occurred and the payment was active. Without an active payment no transaction is opened and nothing changes. On success the tables are `CascadeFromPayment` of the old tables; on a later failure they return to the state at the start of the open transaction (the state before the call when auto-commit was on). Auto-commit is on afterwards. |

## Left out

- Failures of `setAutoCommit` and `rollback` themselves are not modelled, and the all-or-nothing contracts of the coordinator assume that `rollback` succeeds. In the source, a failing `setAutoCommit(false)` or a failing `rollback()` inside the `try` makes the call return false through the `catch` block. If the `rollback()` in the `catch` block fails as well, it is only logged, and the `finally` block's `setAutoCommit(true)` then commits whatever steps had already run, so a half-done group can be committed.
- A failed commit is modelled: it is rolled back, as in the source.
- Ids are unbounded integers. A Java `int` key running past 2^31-1 is not modelled.
- `BigDecimal` amounts are integers (cents). No arithmetic is performed on them.
- Logging is left out.
- The conversion from `Timestamp` to `LocalDateTime` is left out.
- The mapping from result set to object is left out. A read returns the row itself.
- One `now` value is used for every statement of a coordinator call. The database would read its clock once per statement.
- A failed insert does not use up an AUTO_INCREMENT value in the model. A rollback does not give back the values a successful insert took.
- The review rating is a Java `byte`. The 1–5 range appears only as a console prompt and is not enforced, so the model does not assert it.
- The console views, `Application` and the aggregate service they call are not part of this model.
- Connection sharing, isolation levels and concurrency are left out: one connection and one thread are assumed.
- Result-set order: `SELECT ... WHERE status = 0` has no `ORDER BY`. The listings are modelled in ascending key order, the order a primary-key scan returns.
- The comment on `registerEnrollmentAndPayment` asks that the enrollment be checked as active before the payment is inserted. The code performs no such check, and the model follows the code. The enrollment was inserted in the same transaction, so it is always active there.
