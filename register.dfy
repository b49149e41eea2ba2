/** `POST /api/register` (backend/routes/register.js): a schema check of the
    form body, a refusal of an e-mail address already registered, the new
    record, and a confirmation e-mail whose failure is ignored. */
module Register {
  import opened Common
  import opened StudentTable

  /** The form body; `None` is a field that is absent. */
  datatype RegistrationBody = RegistrationBody(
    full_name: Option<string>,
    ID_no: Option<string>,
    batch: Option<string>,
    phone: Option<string>,
    email: Option<string>,
    department: Option<string>,
    gender: Option<string>,
    apply_for_post: Option<string>,
    photo_url: Option<string>,
    note: Option<string>)

  /** The registration schema: six required non-empty strings, an e-mail
      address and a URL that the schema library's own checks (`isEmail`,
      `isUrl`) accept; `batch` and `note` may be absent. */
  predicate SchemaAccepts(b: RegistrationBody, isEmail: string -> bool, isUrl: string -> bool) {
    && Truthy(b.full_name) && Truthy(b.ID_no) && Truthy(b.phone)
    && b.email.Some? && isEmail(b.email.value)
    && Truthy(b.department) && Truthy(b.gender) && Truthy(b.apply_for_post)
    && b.photo_url.Some? && isUrl(b.photo_url.value)
  }

  /** The record created from an accepted body: a falsy batch is stored as
      `NULL`, a falsy note as the empty string, and nobody starts selected. */
  function NewRecord(b: RegistrationBody, id: StudentId): (s: Student)
    requires b.full_name.Some? && b.ID_no.Some? && b.phone.Some? && b.email.Some?
    requires b.department.Some? && b.gender.Some? && b.apply_for_post.Some? && b.photo_url.Some?
    ensures s.id == id && s.email == b.email.value && !s.selected
    ensures s.batch == (if Truthy(b.batch) then b.batch else None)
    ensures s.note == (if Truthy(b.note) then b.note.value else "")
  {
    Student(id, b.full_name.value, b.ID_no.value,
            if Truthy(b.batch) then Some(b.batch.value) else None,
            b.phone.value, b.email.value, b.department.value, b.gender.value,
            b.apply_for_post.value, b.photo_url.value,
            if Truthy(b.note) then b.note.value else "",
            false)
  }

  const ValidationFailed := Failure(400, "Validation failed")
  const EmailRegistered := Failure(400, "Email already registered")
  const RegistrationFailed := Failure(500, "Registration failed")
  const RegistrationMessage := "Registration successful! Check your email."

  /** The handler on the table's contents. `newId` is the key the database
      assigns to the new row (a clash makes the insert throw), `emailSent`
      whether the confirmation went out. */
  function RegisterOp(rows: map<StudentId, Student>, body: RegistrationBody,
                      isEmail: string -> bool, isUrl: string -> bool,
                      newId: StudentId, storeUp: bool, emailSent: bool)
    : (map<StudentId, Student>, Reply)
  {
    if !SchemaAccepts(body, isEmail, isUrl) then (rows, ValidationFailed)
    else if !storeUp then (rows, RegistrationFailed)
    else if EmailTaken(rows, body.email.value) then (rows, EmailRegistered)
    else if newId in rows then (rows, RegistrationFailed)
    else
      var s := NewRecord(body, newId);
      (rows[newId := s], Success(201, RegistrationMessage, Some(s)))
  }

  /** Registration succeeds exactly when the body passes the schema, the
      database answers, the address is unused and the new key is free. A
      body the schema refuses gets 400 "Validation failed"; otherwise an
      unreachable database gets 500 "Registration failed", and an address
      already in the table, however it got there, gets 400 "Email already
      registered". Success
      then adds exactly one record, carrying the submitted address, and
      leaves every other record alone; on failure nothing is created. */
  lemma RegisterSpec(rows: map<StudentId, Student>, body: RegistrationBody,
                     isEmail: string -> bool, isUrl: string -> bool,
                     newId: StudentId, storeUp: bool, emailSent: bool)
    ensures var (after, reply) := RegisterOp(rows, body, isEmail, isUrl, newId, storeUp, emailSent);
      (reply.Success? <==>
        SchemaAccepts(body, isEmail, isUrl) && storeUp && !EmailTaken(rows, body.email.value) && newId !in rows) &&
      (!SchemaAccepts(body, isEmail, isUrl) ==> reply == ValidationFailed) &&
      (SchemaAccepts(body, isEmail, isUrl) && !storeUp ==> reply == RegistrationFailed) &&
      (SchemaAccepts(body, isEmail, isUrl) && storeUp && EmailTaken(rows, body.email.value) ==>
        reply == EmailRegistered) &&
      (reply.Success? ==>
        after.Keys == rows.Keys + {newId} && newId !in rows &&
        after[newId].email == body.email.value && reply == Success(201, RegistrationMessage, Some(after[newId])) &&
        (forall id :: id in rows ==> after[id] == rows[id])) &&
      (reply.Failure? ==> after == rows)
  {
  }

  /** Once an address is registered, a second registration with it is
      refused, whatever the rest of the body. */
  lemma {:induction false} RegisterTwiceRejected(rows: map<StudentId, Student>, body: RegistrationBody,
                                                 body2: RegistrationBody, isEmail: string -> bool,
                                                 isUrl: string -> bool, newId: StudentId, newId2: StudentId,
                                                 emailSent: bool, emailSent2: bool)
    requires RegisterOp(rows, body, isEmail, isUrl, newId, true, emailSent).1.Success?
    requires SchemaAccepts(body2, isEmail, isUrl) && body2.email == body.email
    ensures var after := RegisterOp(rows, body, isEmail, isUrl, newId, true, emailSent).0;
      RegisterOp(after, body2, isEmail, isUrl, newId2, true, emailSent2) == (after, EmailRegistered)
  {
    var after := RegisterOp(rows, body, isEmail, isUrl, newId, true, emailSent).0;
    assert after[newId].email == body2.email.value;
  }

  /** Whether the confirmation e-mail was sent does not change the outcome. */
  lemma RegisterIgnoresEmail(rows: map<StudentId, Student>, body: RegistrationBody,
                             isEmail: string -> bool, isUrl: string -> bool,
                             newId: StudentId, storeUp: bool)
    ensures RegisterOp(rows, body, isEmail, isUrl, newId, storeUp, true) ==
            RegisterOp(rows, body, isEmail, isUrl, newId, storeUp, false)
  {
  }

  lemma RegisterKeepsInv(rows: map<StudentId, Student>, body: RegistrationBody,
                         isEmail: string -> bool, isUrl: string -> bool,
                         newId: StudentId, storeUp: bool, emailSent: bool)
    requires TableInv(rows)
    ensures TableInv(RegisterOp(rows, body, isEmail, isUrl, newId, storeUp, emailSent).0)
  {
    if SchemaAccepts(body, isEmail, isUrl) && storeUp && !EmailTaken(rows, body.email.value) && newId !in rows {
      InsertKeepsInv(rows, NewRecord(body, newId));
    }
  }

  /** The handler against the database. */
  method HandleRegister(table: Table, body: RegistrationBody, isEmail: string -> bool,
                        isUrl: string -> bool, newId: StudentId, storeUp: bool, emailSent: bool)
    returns (reply: Reply)
    requires table.Valid()
    modifies table
    ensures table.Valid()
    ensures (table.rows, reply) == RegisterOp(old(table.rows), body, isEmail, isUrl, newId, storeUp, emailSent)
  {
    if !SchemaAccepts(body, isEmail, isUrl) {
      return ValidationFailed;
    }
    if !storeUp {
      return RegistrationFailed;
    }
    var existing := table.FindByEmail(body.email.value);
    if existing.Some? {
      return EmailRegistered;
    }
    var clash := table.FindById(newId);
    if clash.Some? {
      return RegistrationFailed;
    }
    var student := NewRecord(body, newId);
    table.Insert(student);
    reply := Success(201, RegistrationMessage, Some(student));
    RegisterKeepsInv(old(table.rows), body, isEmail, isUrl, newId, storeUp, emailSent);
  }
}
