/** `POST /api/select` and `DELETE /api/select/:id`
    (backend/routes/select.js): an admin marks a student as selected, which
    also sends a selection e-mail whose failure is ignored, or deletes a
    student. */
module SelectRoute {
  import opened Common
  import opened StudentTable

  /** The selection handler on the table's contents. `emailSent` is whether
      the selection e-mail went out; the handler swallows its failure. */
  function SelectOp(rows: map<StudentId, Student>, studentId: Option<string>, storeUp: bool,
                    emailSent: bool): (map<StudentId, Student>, Reply)
  {
    if !Truthy(studentId) then (rows, Failure(400, "Student ID required"))
    else if !storeUp then (rows, Failure(500, "Failed to select student"))
    else if studentId.value !in rows then (rows, Failure(404, "Student not found"))
    else
      var id := studentId.value;
      var updated := rows[id].(selected := true);
      (rows[id := updated], Success(200, "Student selected and email sent", Some(updated)))
  }

  /** The deletion handler on the table's contents. */
  function DeleteOp(rows: map<StudentId, Student>, id: StudentId, storeUp: bool)
    : (map<StudentId, Student>, Reply)
  {
    if !storeUp then (rows, Failure(500, "Failed to delete student"))
    else if id !in rows then (rows, Failure(404, "Student not found"))
    else (rows - {id}, Success(200, "Student deleted successfully", None))
  }

  /** Selection succeeds exactly for a known id while the database answers;
      it then sets `selected` on that student only and replies with the
      updated record. A missing id is refused before any lookup, an
      unreachable database gives 500 before the id is looked up, and every
      failure leaves the table unchanged. */
  lemma SelectSpec(rows: map<StudentId, Student>, studentId: Option<string>, storeUp: bool, emailSent: bool)
    ensures var (after, reply) := SelectOp(rows, studentId, storeUp, emailSent);
      (reply.Success? <==> Truthy(studentId) && storeUp && studentId.value in rows) &&
      (!Truthy(studentId) ==> reply == Failure(400, "Student ID required")) &&
      (Truthy(studentId) && !storeUp ==> reply == Failure(500, "Failed to select student")) &&
      (Truthy(studentId) && storeUp && studentId.value !in rows ==> reply == Failure(404, "Student not found")) &&
      (reply.Success? ==>
        var id := studentId.value;
        after.Keys == rows.Keys &&
        after[id] == rows[id].(selected := true) &&
        (forall other :: other in rows && other != id ==> after[other] == rows[other]) &&
        reply.student == Some(after[id])) &&
      (reply.Failure? ==> after == rows)
  {
  }

  /** Selecting twice leaves the table as selecting once, and selecting an
      already selected student changes nothing. */
  lemma SelectIdempotent(rows: map<StudentId, Student>, studentId: Option<string>, storeUp: bool, emailSent: bool)
    ensures var once := SelectOp(rows, studentId, storeUp, emailSent).0;
      SelectOp(once, studentId, storeUp, emailSent).0 == once
    ensures Truthy(studentId) && studentId.value in rows && rows[studentId.value].selected ==>
      SelectOp(rows, studentId, storeUp, emailSent).0 == rows
  {
  }

  /** Whether the selection e-mail was sent does not change the outcome. */
  lemma SelectIgnoresEmail(rows: map<StudentId, Student>, studentId: Option<string>, storeUp: bool)
    ensures SelectOp(rows, studentId, storeUp, true) == SelectOp(rows, studentId, storeUp, false)
  {
  }

  /** Deleting a known id removes exactly that record; an unknown id gives
      404, an unreachable database 500, and neither changes anything. */
  lemma DeleteSpec(rows: map<StudentId, Student>, id: StudentId, storeUp: bool)
    ensures var (after, reply) := DeleteOp(rows, id, storeUp);
      (reply.Success? <==> storeUp && id in rows) &&
      (reply.Success? ==> after.Keys == rows.Keys - {id} &&
                          forall other :: other in after ==> after[other] == rows[other]) &&
      (!storeUp ==> reply == Failure(500, "Failed to delete student")) &&
      (storeUp && id !in rows ==> reply == Failure(404, "Student not found")) &&
      (reply.Failure? ==> after == rows)
  {
  }

  lemma SelectKeepsInv(rows: map<StudentId, Student>, studentId: Option<string>, storeUp: bool, emailSent: bool)
    requires TableInv(rows)
    ensures TableInv(SelectOp(rows, studentId, storeUp, emailSent).0)
  {
    if Truthy(studentId) && storeUp && studentId.value in rows {
      UpdateKeepsInv(rows, studentId.value, rows[studentId.value].(selected := true));
    }
  }

  /** `POST /api/select` against the database. */
  method HandleSelect(table: Table, studentId: Option<string>, storeUp: bool, emailSent: bool)
    returns (reply: Reply)
    requires table.Valid()
    modifies table
    ensures table.Valid()
    ensures (table.rows, reply) == SelectOp(old(table.rows), studentId, storeUp, emailSent)
  {
    if !Truthy(studentId) {
      return Failure(400, "Student ID required");
    }
    if !storeUp {
      return Failure(500, "Failed to select student");
    }
    var id := studentId.value;
    var student := table.FindById(id);
    if student.None? {
      return Failure(404, "Student not found");
    }
    var updated := student.value.(selected := true);
    table.Put(id, updated);
    reply := Success(200, "Student selected and email sent", Some(updated));
    SelectKeepsInv(old(table.rows), studentId, storeUp, emailSent);
  }

  /** `DELETE /api/select/:id` against the database. */
  method HandleDelete(table: Table, id: StudentId, storeUp: bool) returns (reply: Reply)
    requires table.Valid()
    modifies table
    ensures table.Valid()
    ensures (table.rows, reply) == DeleteOp(old(table.rows), id, storeUp)
  {
    if !storeUp {
      return Failure(500, "Failed to delete student");
    }
    var student := table.FindById(id);
    if student.None? {
      return Failure(404, "Student not found");
    }
    table.Remove(id);
    reply := Success(200, "Student deleted successfully", None);
    RemoveKeepsInv(old(table.rows), id);
  }
}
