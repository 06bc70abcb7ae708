/** The record store for the `enrollments` table. */
module EnrollmentDao {
  import opened Model
  import opened Table
  import opened Database

  /** `UPDATE enrollments SET student_id = ?, class_id = ?, updated_at = now()
      WHERE enrollment_id = ? AND status = 0`. */
  function EditEnrollment(t: EnrollmentTable, id: int, studentId: int, classId: int, now: Time): (r: EnrollmentTable)
    ensures r.Keys == t.Keys
    ensures forall k :: k in t && k != id ==> r[k] == t[k]
    ensures !ActiveAt(t, id) ==> r == t
    ensures ActiveAt(t, id) ==>
              && r[id].data == EnrollmentData(studentId, classId)
              && r[id].updatedAt == Some(now)
              && r[id].id == t[id].id && r[id].status == Active
              && r[id].createdAt == t[id].createdAt && r[id].deletedAt == t[id].deletedAt
    ensures Evolves(t, r)
  {
    if ActiveAt(t, id) then t[id := t[id].(data := EnrollmentData(studentId, classId), updatedAt := Some(now))]
    else t
  }

  class EnrollmentDAO {
    const db: Database

    constructor (db: Database)
      ensures this.db == db
    {
      this.db := db;
    }

    /** `getAllEnrollments`: the active rows, or null when the query fails. */
    method GetAllEnrollments() returns (r: Option<seq<Row<EnrollmentData>>>, ghost fault: bool)
      requires db.Valid()
      ensures r.None? <==> fault
      ensures r.Some? ==> ListsActive(db.enrollments, r.value)
    {
      var ran := db.Execute();
      if !ran {
        return None, true;
      }
      var rows := ReadActive(db.enrollments, db.nextEnrollmentId);
      return Some(rows), false;
    }

    /** `getEnrollmentById`: the row with that id if it is active, otherwise
        null; null as well when the query fails. */
    method GetEnrollmentById(id: int) returns (r: Option<Row<EnrollmentData>>, ghost fault: bool)
      ensures r.Some? <==> !fault && ActiveAt(db.enrollments, id)
      ensures r.Some? ==> r.value == db.enrollments[id]
    {
      var ran := db.Execute();
      if ran && id in db.enrollments && db.enrollments[id].status == Active {
        return Some(db.enrollments[id]), false;
      }
      return None, !ran;
    }

    /** `addEnrollment`: inserts an active row with the object's student and
        class ids under the next generated id, and writes that id back into
        the object. */
    method AddEnrollment(e: Enrollment, now: Time) returns (ok: bool, ghost fault: bool)
      requires db.Valid()
      modifies db`enrollments, db`nextEnrollmentId, e`enrollmentId
      ensures db.Valid()
      ensures ok == !fault
      ensures ok ==>
                && e.enrollmentId == old(db.nextEnrollmentId)
                && db.nextEnrollmentId == old(db.nextEnrollmentId) + 1
                && db.enrollments == old(db.enrollments)[e.enrollmentId :=
                     NewRow(e.enrollmentId, EnrollmentData(e.studentId, e.classId), now)]
      ensures !ok ==>
                && e.enrollmentId == old(e.enrollmentId)
                && db.nextEnrollmentId == old(db.nextEnrollmentId)
                && db.enrollments == old(db.enrollments)
    {
      var ran := db.Execute();
      if !ran {
        return false, true;
      }
      var id := db.nextEnrollmentId;
      InsertNewRow(db.enrollments, id, EnrollmentData(e.studentId, e.classId), now);
      db.enrollments := db.enrollments[id := NewRow(id, EnrollmentData(e.studentId, e.classId), now)];
      db.nextEnrollmentId := id + 1;
      e.enrollmentId := id;
      return true, false;
    }

    /** `updateEnrollment`: replaces student and class id of the active row
        with the object's id; true only when such a row was there. */
    method UpdateEnrollment(e: Enrollment, now: Time) returns (ok: bool, ghost fault: bool)
      requires db.Valid()
      modifies db`enrollments
      ensures db.Valid()
      ensures ok == (!fault && ActiveAt(old(db.enrollments), e.enrollmentId))
      ensures db.enrollments ==
                if fault then old(db.enrollments)
                else EditEnrollment(old(db.enrollments), e.enrollmentId, e.studentId, e.classId, now)
    {
      var ran := db.Execute();
      if !ran {
        return false, true;
      }
      ok := ActiveAt(db.enrollments, e.enrollmentId);
      db.enrollments := EditEnrollment(db.enrollments, e.enrollmentId, e.studentId, e.classId, now);
      fault := false;
    }

    /** `deleteEnrollment`: soft-deletes the active row with that id; true
        whenever the statement ran, also when no row matched. */
    method DeleteEnrollment(id: int, now: Time) returns (ok: bool, ghost fault: bool)
      requires db.Valid()
      modifies db`enrollments
      ensures db.Valid()
      ensures ok == !fault
      ensures db.enrollments == if fault then old(db.enrollments) else SoftDeleteById(old(db.enrollments), id, now)
    {
      var ran := db.Execute();
      if !ran {
        return false, true;
      }
      db.enrollments := SoftDeleteById(db.enrollments, id, now);
      return true, false;
    }

    /** `isActiveEnrollment`: whether an active row with that id exists;
        false when the query fails. */
    method IsActiveEnrollment(id: int) returns (active: bool, ghost fault: bool)
      ensures active == (!fault && ActiveAt(db.enrollments, id))
    {
      var ran := db.Execute();
      active := ran && id in db.enrollments && db.enrollments[id].status == Active;
      fault := !ran;
    }
  }
}
