/** The `student` table the route handlers read and write through the ORM,
    and the JSON replies they send. The table is a map from primary key to
    record; e-mail addresses are unique, as the unique lookup by e-mail in
    backend/routes/register.js requires. */
module StudentTable {
  import opened Common

  type StudentId = string

  /** One registration as stored. `batch` is `None` for SQL `NULL`. */
  datatype Student = Student(
    id: StudentId,
    full_name: string,
    ID_no: string,
    batch: Option<string>,
    phone: string,
    email: string,
    department: string,
    gender: string,
    apply_for_post: string,
    photo_url: string,
    note: string,
    selected: bool)

  /** An HTTP reply: `{ error }` with a failure status, or `{ success: true,
      message, student? }` with a success status. */
  datatype Reply =
    | Failure(status: nat, error: string)
    | Success(status: nat, message: string, student: Option<Student>)

  /** JavaScript truthiness of an optional string field of a request body. */
  predicate Truthy(field: Option<string>) {
    field.Some? && field.value != ""
  }

  /** Every record sits under its own id, and no two records share an
      e-mail address. */
  ghost predicate TableInv(rows: map<StudentId, Student>) {
    (forall id :: id in rows ==> rows[id].id == id) &&
    (forall a, b :: a in rows && b in rows && rows[a].email == rows[b].email ==> a == b)
  }

  predicate EmailTaken(rows: map<StudentId, Student>, email: string) {
    exists id | id in rows :: rows[id].email == email
  }

  /** Rewriting a record without touching its id or e-mail keeps the
      invariant. */
  lemma UpdateKeepsInv(rows: map<StudentId, Student>, id: StudentId, s: Student)
    requires TableInv(rows) && id in rows
    requires s.id == id && s.email == rows[id].email
    ensures TableInv(rows[id := s])
  {
  }

  lemma RemoveKeepsInv(rows: map<StudentId, Student>, id: StudentId)
    requires TableInv(rows)
    ensures TableInv(rows - {id})
  {
  }

  /** A new record under a fresh id with an unused e-mail keeps the
      invariant. */
  lemma InsertKeepsInv(rows: map<StudentId, Student>, s: Student)
    requires TableInv(rows) && s.id !in rows && !EmailTaken(rows, s.email)
    ensures TableInv(rows[s.id := s])
  {
  }

  /** The database, as the handlers see it. */
  class Table {
    var rows: map<StudentId, Student>

    ghost predicate Valid()
      reads this
    {
      TableInv(rows)
    }

    constructor ()
      ensures rows == map[] && Valid()
    {
      rows := map[];
    }

    /** `prisma.student.findUnique({ where: { id } })`. */
    method FindById(id: StudentId) returns (found: Option<Student>)
      ensures found.Some? <==> id in rows
      ensures found.Some? ==> found.value == rows[id]
    {
      found := if id in rows then Some(rows[id]) else None;
    }

    /** `prisma.student.findUnique({ where: { email } })`. */
    method FindByEmail(email: string) returns (found: Option<Student>)
      ensures found.Some? <==> EmailTaken(rows, email)
      ensures found.Some? ==> found.value in rows.Values && found.value.email == email
    {
      found := None;
      if EmailTaken(rows, email) {
        var id :| id in rows && rows[id].email == email;
        found := Some(rows[id]);
      }
    }

    /** `prisma.student.update`: the record under `id` becomes `s`. */
    method Put(id: StudentId, s: Student)
      requires id in rows
      modifies this
      ensures rows == old(rows)[id := s]
    {
      rows := rows[id := s];
    }

    /** `prisma.student.delete`. */
    method Remove(id: StudentId)
      requires id in rows
      modifies this
      ensures rows == old(rows) - {id}
    {
      rows := rows - {id};
    }

    /** `prisma.student.create` under a fresh key. */
    method Insert(s: Student)
      requires s.id !in rows
      modifies this
      ensures rows == old(rows)[s.id := s]
    {
      rows := rows[s.id := s];
    }
  }
}
