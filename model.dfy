/** The three record kinds of the store, as rows of a table and as the
    entity objects the application hands to the record stores. */
module Model {

  /** Column `status`: 0 marks an active row, 1 a soft-deleted one. */
  datatype Status = Active | Deleted

  datatype Option<T> = None | Some(value: T)

  /** A value of the database clock, `now()`. */
  type Time = int

  /** Java `byte`, the type of a review's rating. */
  type Byte = x: int | -128 <= x < 128

  /** The columns every table has, around the entity's own columns `data`.
      `id` is the generated key; `updatedAt` and `deletedAt` are NULL until
      an update or a soft-delete stamps them. */
  datatype Row<D> = Row(
    id: int,
    data: D,
    status: Status,
    createdAt: Time,
    updatedAt: Option<Time>,
    deletedAt: Option<Time>)

  /** `enrollments`: student_id, class_id. */
  datatype EnrollmentData = EnrollmentData(studentId: int, classId: int)

  /** `payments`: amount (a decimal, here in cents) and the enrollment paid for. */
  datatype PaymentData = PaymentData(amount: int, enrollmentId: int)

  /** `reviews`: rating, content and the enrollment reviewed. */
  datatype ReviewData = ReviewData(rating: Byte, content: string, enrollmentId: int)

  type EnrollmentTable = map<int, Row<EnrollmentData>>
  type PaymentTable = map<int, Row<PaymentData>>
  type ReviewTable = map<int, Row<ReviewData>>

  /** The contents of all three tables at one moment. */
  datatype Tables = Tables(enrollments: EnrollmentTable, payments: PaymentTable, reviews: ReviewTable)

  /** The enrollment a payment or a review belongs to (its `enrollment_id`). */
  function PaymentParent(d: PaymentData): int { d.enrollmentId }
  function ReviewParent(d: ReviewData): int { d.enrollmentId }

  /** The caller's `Enrollment` object: the columns the store reads from it,
      and the id it writes back after an insert. */
  class Enrollment {
    var enrollmentId: int
    var studentId: int
    var classId: int

    constructor (enrollmentId: int, studentId: int, classId: int)
      ensures this.enrollmentId == enrollmentId && this.studentId == studentId && this.classId == classId
    {
      this.enrollmentId := enrollmentId;
      this.studentId := studentId;
      this.classId := classId;
    }
  }

  /** The caller's `Payment` object. */
  class Payment {
    var paymentId: int
    var amount: int
    var enrollmentId: int

    constructor (paymentId: int, amount: int, enrollmentId: int)
      ensures this.paymentId == paymentId && this.amount == amount && this.enrollmentId == enrollmentId
    {
      this.paymentId := paymentId;
      this.amount := amount;
      this.enrollmentId := enrollmentId;
    }
  }

  /** The caller's `Review` object. */
  class Review {
    var reviewId: int
    var rating: Byte
    var content: string
    var enrollmentId: int

    constructor (reviewId: int, rating: Byte, content: string, enrollmentId: int)
      ensures this.reviewId == reviewId && this.rating == rating
      ensures this.content == content && this.enrollmentId == enrollmentId
    {
      this.reviewId := reviewId;
      this.rating := rating;
      this.content := content;
      this.enrollmentId := enrollmentId;
    }
  }
}
