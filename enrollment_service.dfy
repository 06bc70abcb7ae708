/** The single-table service for enrollments: reads pass through to the
    store, an update first checks that the enrollment is active. */
module EnrollmentService {
  import opened Model
  import opened Table
  import opened Database
  import opened EnrollmentDao

  class EnrollmentService {
    const dao: EnrollmentDAO

    constructor (db: Database)
      ensures dao.db == db
    {
      dao := new EnrollmentDAO(db);
    }

    /** `getAllEnrollments`: the store's listing of active enrollments. */
    method GetAllEnrollments() returns (r: Option<seq<Row<EnrollmentData>>>, ghost fault: bool)
      requires dao.db.Valid()
      ensures r.None? <==> fault
      ensures r.Some? ==> ListsActive(dao.db.enrollments, r.value)
    {
      r, fault := dao.GetAllEnrollments();
    }

    /** `getEnrollmentById`: the active row or null. */
    method GetEnrollmentById(id: int) returns (r: Option<Row<EnrollmentData>>, ghost fault: bool)
      ensures r.Some? <==> !fault && ActiveAt(dao.db.enrollments, id)
      ensures r.Some? ==> r.value == dao.db.enrollments[id]
    {
      r, fault := dao.GetEnrollmentById(id);
    }

    /** `updateEnrollment`: refuses an id with no active row before it
        reaches the update statement; otherwise the store's update. */
    method UpdateEnrollment(e: Enrollment, now: Time) returns (ok: bool, ghost fault: bool)
      requires dao.db.Valid()
      modifies dao.db`enrollments
      ensures dao.db.Valid()
      ensures ok == (!fault && ActiveAt(old(dao.db.enrollments), e.enrollmentId))
      ensures dao.db.enrollments ==
                if ok then EditEnrollment(old(dao.db.enrollments), e.enrollmentId, e.studentId, e.classId, now)
                else old(dao.db.enrollments)
    {
      var existing, missed := dao.GetEnrollmentById(e.enrollmentId);
      if existing.None? {
        return false, missed;
      }
      ok, fault := dao.UpdateEnrollment(e, now);
    }
  }
}
