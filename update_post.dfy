/** `PUT /api/update-post/:id` (backend/routes/updatePost.js): an admin moves
    a student to another committee post. The body's `apply_for_post` must be
    present and one of a fixed list of posts; no e-mail is sent. */
module UpdatePost {
  import opened Common
  import opened StudentTable

  /** The posts an admin may assign, in the order the handler lists them. */
  const ValidPosts: seq<string> := [
    "President",
    "Vice President",
    "General Secretary",
    "Treasurer",
    "Organizing Secretary",
    "Executive Member",
    "Vice President (Technical)",
    "Assistant General Secretary",
    "Joint Secretary",
    "Assistant Joint Secretary",
    "Publicity Secretary (Outreach & Activation)",
    "Publicity Secretary (Social Media Management)",
    "Office Secretary (Resource Management)",
    "Office Secretary (Event Management)",
    "Financial Secretary",
    "IT Secretary (Webmaster)",
    "IT Secretary (Design & Creativity)",
    "Executive Member (Logistics)",
    "Executive Member (Cultural Activities)",
    "Executive Member (Social Media Management)",
    "Executive Member (Documentation)",
    "Executive Member (Event Management)",
    "Executive Member (IT & Gaming)",
    "Secretary"
  ]

  /** The handler on the table's contents: presence of the post, then the
      whitelist, then the lookup (where an unreachable database throws),
      then the update. */
  function UpdatePostOp(rows: map<StudentId, Student>, id: StudentId, post: Option<string>,
                        storeUp: bool): (map<StudentId, Student>, Reply)
  {
    if !Truthy(post) then (rows, Failure(400, "Post required"))
    else if post.value !in ValidPosts then (rows, Failure(400, "Invalid post"))
    else if !storeUp then (rows, Failure(500, "Failed to update post"))
    else if id !in rows then (rows, Failure(404, "Student not found"))
    else
      var updated := rows[id].(apply_for_post := post.value);
      (rows[id := updated], Success(200, "Post updated to " + post.value, Some(updated)))
  }

  /** The request succeeds exactly when the post is present and listed, the
      database answers and the student exists. Then that student's post, and
      nothing else, becomes the given one, and the reply carries the updated
      record; otherwise the table is unchanged. */
  lemma UpdatePostSpec(rows: map<StudentId, Student>, id: StudentId, post: Option<string>, storeUp: bool)
    ensures var (after, reply) := UpdatePostOp(rows, id, post, storeUp);
      (reply.Success? <==> Truthy(post) && post.value in ValidPosts && storeUp && id in rows) &&
      (reply.Success? ==>
        after.Keys == rows.Keys &&
        after[id] == rows[id].(apply_for_post := post.value) &&
        (forall other :: other in rows && other != id ==> after[other] == rows[other]) &&
        reply == Success(200, "Post updated to " + post.value, Some(after[id]))) &&
      (reply.Failure? ==> after == rows)
  {
  }

  /** The guards run in order: a missing post is reported before an unknown
      post, which is reported before the database is consulted; a listed
      post with the database down gives 500, and an unknown student
      surfaces only for a listed post. */
  lemma UpdatePostGuardOrder(rows: map<StudentId, Student>, id: StudentId, post: Option<string>, storeUp: bool)
    ensures !Truthy(post) ==> UpdatePostOp(rows, id, post, storeUp).1 == Failure(400, "Post required")
    ensures Truthy(post) && post.value !in ValidPosts ==>
      UpdatePostOp(rows, id, post, storeUp).1 == Failure(400, "Invalid post")
    ensures Truthy(post) && post.value in ValidPosts && !storeUp ==>
      UpdatePostOp(rows, id, post, storeUp).1 == Failure(500, "Failed to update post")
    ensures UpdatePostOp(rows, id, post, storeUp).1 == Failure(404, "Student not found") <==>
      Truthy(post) && post.value in ValidPosts && storeUp && id !in rows
  {
  }

  /** Repeating a successful update changes nothing more. */
  lemma UpdatePostIdempotent(rows: map<StudentId, Student>, id: StudentId, post: Option<string>)
    ensures var once := UpdatePostOp(rows, id, post, true).0;
      UpdatePostOp(once, id, post, true).0 == once
  {
  }

  /** The update keeps ids and e-mail addresses, hence the table invariant. */
  lemma UpdatePostKeepsInv(rows: map<StudentId, Student>, id: StudentId, post: Option<string>, storeUp: bool)
    requires TableInv(rows)
    ensures TableInv(UpdatePostOp(rows, id, post, storeUp).0)
  {
    if Truthy(post) && post.value in ValidPosts && storeUp && id in rows {
      UpdateKeepsInv(rows, id, rows[id].(apply_for_post := post.value));
    }
  }

  /** The handler against the database. */
  method HandleUpdatePost(table: Table, id: StudentId, post: Option<string>, storeUp: bool)
    returns (reply: Reply)
    requires table.Valid()
    modifies table
    ensures table.Valid()
    ensures (table.rows, reply) == UpdatePostOp(old(table.rows), id, post, storeUp)
  {
    if !Truthy(post) {
      return Failure(400, "Post required");
    }
    if post.value !in ValidPosts {
      return Failure(400, "Invalid post");
    }
    if !storeUp {
      return Failure(500, "Failed to update post");
    }
    var student := table.FindById(id);
    if student.None? {
      return Failure(404, "Student not found");
    }
    var updated := student.value.(apply_for_post := post.value);
    table.Put(id, updated);
    reply := Success(200, "Post updated to " + post.value, Some(updated));
    UpdatePostKeepsInv(old(table.rows), id, post, storeUp);
  }
}
