/**
 * The thesis edit dialog (src/client/components/ThesisPage/ThesisEditForm.tsx):
 * the candidate lists for the author and supervisor selects, and the
 * field-by-field edits of the thesis being edited. The dialog reads a
 * `userId` key on author and supervision entries. The entries it is opened
 * with are the thesis's `AuthorData` and `SupervisionData` records, which
 * have no such key; only entries written by the author select or by the
 * supervisor selection carry one. An entry's key is therefore an `Option`,
 * `None` where the property is undefined.
 */
module ThesisEditForm {
  import opened Wrappers
  import opened Seqs
  import opened ThesisTypes
  import ThesesPage

  /** An author entry of the edited thesis, with its `userId` key when it has one. */
  datatype FormAuthor = FormAuthor(userId: Option<string>)

  /** A supervision entry of the edited thesis, with its `userId` key when it has one. */
  datatype FormSupervision = FormSupervision(userId: Option<string>, percentage: int)

  /** The thesis held in the dialog's state. */
  datatype FormThesis = FormThesis(
    programId: string,
    studyTrackId: Option<string>,
    topic: string,
    status: ThesisStatus,
    startDate: string,
    targetDate: Option<string>,
    supervisions: seq<FormSupervision>,
    authors: seq<FormAuthor>)

  /** A user the selects can offer. */
  datatype UserOption = UserOption(id: string, username: string)

  /**
   * The state the dialog opens with for a thesis: the same fields, and one
   * entry per supervision and per author, none of them with a `userId` key.
   */
  function FormOf(t: ThesisData): (f: FormThesis)
    ensures f.programId == t.programId && f.studyTrackId == t.studyTrackId && f.topic == t.topic
    ensures f.status == t.status && f.startDate == t.startDate && f.targetDate == t.targetDate
    ensures |f.supervisions| == |t.supervisions| && |f.authors| == |t.authors|
    ensures forall i :: 0 <= i < |t.supervisions| ==> f.supervisions[i].percentage == t.supervisions[i].percentage
    ensures forall s :: s in f.supervisions ==> s.userId.None?
    ensures forall a :: a in f.authors ==> a.userId.None?
  {
    FormThesis(t.programId, t.studyTrackId, t.topic, t.status, t.startDate, t.targetDate,
      seq(|t.supervisions|, i requires 0 <= i < |t.supervisions| => FormSupervision(None, t.supervisions[i].percentage)),
      seq(|t.authors|, i requires 0 <= i < |t.authors| => FormAuthor(None)))
  }

  function AuthorIds(authors: seq<FormAuthor>): (ids: seq<Option<string>>)
    ensures |ids| == |authors|
    ensures forall i :: 0 <= i < |authors| ==> ids[i] == authors[i].userId
  {
    seq(|authors|, i requires 0 <= i < |authors| => authors[i].userId)
  }

  function SupervisorIds(supervisions: seq<FormSupervision>): (ids: seq<Option<string>>)
    ensures |ids| == |supervisions|
    ensures forall i :: 0 <= i < |supervisions| ==> ids[i] == supervisions[i].userId
  {
    seq(|supervisions|, i requires 0 <= i < |supervisions| => supervisions[i].userId)
  }

  /**
   * The users whose id is not among the keys `ids`, in their original order
   * and as often as they occur; an absent key (`None`) excludes nobody.
   */
  function WithoutIds(users: seq<UserOption>, ids: seq<Option<string>>): (r: seq<UserOption>)
    ensures forall u :: u in r <==> u in users && Some(u.id) !in ids
    ensures forall u :: multiset(r)[u] == if Some(u.id) in ids then 0 else multiset(users)[u]
  {
    if users == [] then []
    else
      assert users == [users[0]] + users[1..];
      (if Some(users[0].id) in ids then [] else [users[0]]) + WithoutIds(users[1..], ids)
  }

  /** Authors cannot be supervisors: the author select leaves out the users a supervision entry names by key. */
  function PotentialAuthors(users: seq<UserOption>, thesis: FormThesis): (r: seq<UserOption>)
    ensures forall u :: u in r <==> u in users && Some(u.id) !in SupervisorIds(thesis.supervisions)
  {
    WithoutIds(users, SupervisorIds(thesis.supervisions))
  }

  /** Supervisors cannot be authors: the supervisor select leaves out the users an author entry names by key. */
  function PotentialSupervisors(users: seq<UserOption>, thesis: FormThesis): (r: seq<UserOption>)
    ensures forall u :: u in r <==> u in users && Some(u.id) !in AuthorIds(thesis.authors)
  {
    WithoutIds(users, AuthorIds(thesis.authors))
  }

  /** The value shown by the author select: the first author's key (`None` when it has none), or '' without authors. */
  function AuthorSelectValue(thesis: FormThesis): (v: Option<string>)
    ensures |thesis.authors| > 0 ==> v == thesis.authors[0].userId
    ensures |thesis.authors| == 0 ==> v == Some("")
  {
    if |thesis.authors| > 0 then thesis.authors[0].userId else Some("")
  }

  /** Typing in the topic field: only the topic changes. */
  function EditTopic(thesis: FormThesis, topic: string): (r: FormThesis)
    ensures r.topic == topic
    ensures r.(topic := thesis.topic) == thesis
  {
    thesis.(topic := topic)
  }

  /** Picking a program: only the program id changes. */
  function EditProgram(thesis: FormThesis, programId: string): (r: FormThesis)
    ensures r.programId == programId
    ensures r.(programId := thesis.programId) == thesis
  {
    thesis.(programId := programId)
  }

  /** Picking an author: the author list becomes exactly that one user. */
  function ChooseAuthor(thesis: FormThesis, userId: string): (r: FormThesis)
    ensures r.authors == [FormAuthor(Some(userId))]
    ensures r.(authors := thesis.authors) == thesis
  {
    thesis.(authors := [FormAuthor(Some(userId))])
  }

  /** A new supervisor list from the supervisor select: only the supervisions change. */
  function EditSupervisions(thesis: FormThesis, supervisions: seq<FormSupervision>): (r: FormThesis)
    ensures r.supervisions == supervisions
    ensures r.(supervisions := thesis.supervisions) == thesis
  {
    thesis.(supervisions := supervisions)
  }

  /** Picking a status: only the status changes. */
  function EditStatus(thesis: FormThesis, status: ThesisStatus): (r: FormThesis)
    ensures r.status == status
    ensures r.(status := thesis.status) == thesis
  {
    thesis.(status := status)
  }

  /** The filtered list keeps the remaining users in their original order. */
  lemma {:induction false} WithoutIdsSubsequence(users: seq<UserOption>, ids: seq<Option<string>>)
    ensures IsSubsequence(WithoutIds(users, ids), users)
  {
    if users != [] {
      WithoutIdsSubsequence(users[1..], ids);
      assert users == [users[0]] + users[1..];
      if Some(users[0].id) in ids {
        assert WithoutIds(users, ids) == WithoutIds(users[1..], ids);
        SubsequencePrepend(users[0], WithoutIds(users[1..], ids), users[1..]);
      } else {
        SubsequenceCons(users[0], WithoutIds(users[1..], ids), users[1..]);
      }
    }
  }

  /** Keys that are all absent exclude nobody: the filter returns the users unchanged. */
  lemma {:induction false} WithoutAbsentIds(users: seq<UserOption>, ids: seq<Option<string>>)
    requires forall k :: k in ids ==> k.None?
    ensures WithoutIds(users, ids) == users
  {
    if users != [] {
      WithoutAbsentIds(users[1..], ids);
      assert Some(users[0].id) !in ids;
      assert users == [users[0]] + users[1..];
    }
  }

  /**
   * No supervision entry's key is offered as an author and no author entry's
   * key as a supervisor; both lists keep the order of `users`; a user no entry
   * names by key is offered in both.
   */
  lemma CandidateLists(users: seq<UserOption>, thesis: FormThesis)
    ensures forall u, s :: u in PotentialAuthors(users, thesis) && s in thesis.supervisions ==> s.userId != Some(u.id)
    ensures forall u, a :: u in PotentialSupervisors(users, thesis) && a in thesis.authors ==> a.userId != Some(u.id)
    ensures IsSubsequence(PotentialAuthors(users, thesis), users)
    ensures IsSubsequence(PotentialSupervisors(users, thesis), users)
  {
    WithoutIdsSubsequence(users, SupervisorIds(thesis.supervisions));
    WithoutIdsSubsequence(users, AuthorIds(thesis.authors));
    var sIds, aIds := SupervisorIds(thesis.supervisions), AuthorIds(thesis.authors);
    forall u, s | u in PotentialAuthors(users, thesis) && s in thesis.supervisions ensures s.userId != Some(u.id) {
      var i :| 0 <= i < |thesis.supervisions| && thesis.supervisions[i] == s;
      assert sIds[i] == s.userId;
    }
    forall u, a | u in PotentialSupervisors(users, thesis) && a in thesis.authors ensures a.userId != Some(u.id) {
      var i :| 0 <= i < |thesis.authors| && thesis.authors[i] == a;
      assert aIds[i] == a.userId;
    }
  }

  /** A listed user whom no entry names by key is offered in both selects. */
  lemma UnnamedUserOfferedInBoth(users: seq<UserOption>, thesis: FormThesis, u: UserOption)
    requires u in users
    requires forall a :: a in thesis.authors ==> a.userId != Some(u.id)
    requires forall s :: s in thesis.supervisions ==> s.userId != Some(u.id)
    ensures u in PotentialAuthors(users, thesis) && u in PotentialSupervisors(users, thesis)
  {
  }

  /**
   * A thesis the dialog is opened with has no keyed entries, so until an
   * entry is rewritten both selects offer every user, its supervisors and
   * authors included.
   */
  lemma OpenedFormExcludesNobody(users: seq<UserOption>, t: ThesisData)
    ensures PotentialAuthors(users, FormOf(t)) == users
    ensures PotentialSupervisors(users, FormOf(t)) == users
  {
    var f := FormOf(t);
    forall k | k in SupervisorIds(f.supervisions) ensures k.None? {
      var i :| 0 <= i < |f.supervisions| && SupervisorIds(f.supervisions)[i] == k;
      assert f.supervisions[i] in f.supervisions;
    }
    forall k | k in AuthorIds(f.authors) ensures k.None? {
      var i :| 0 <= i < |f.authors| && AuthorIds(f.authors)[i] == k;
      assert f.authors[i] in f.authors;
    }
    WithoutAbsentIds(users, SupervisorIds(f.supervisions));
    WithoutAbsentIds(users, AuthorIds(f.authors));
  }

  /**
   * The new-thesis template names the logged-in user as its supervisor, yet
   * the author select of the dialog opened on it offers that user.
   */
  lemma TemplateSupervisorOfferedAsAuthor(
    user: AuthorData, programs: seq<ProgramData>, today: string, inOneYear: string, users: seq<UserOption>)
    requires |programs| > 0
    requires UserOption(user.id, user.username) in users
    ensures ThesesPage.NewThesisTemplate(user, programs, today, inOneYear).Some?
    ensures ThesesPage.NewThesisTemplate(user, programs, today, inOneYear).value.supervisions[0].user == user
    ensures UserOption(user.id, user.username)
      in PotentialAuthors(users, FormOf(ThesesPage.NewThesisTemplate(user, programs, today, inOneYear).value))
  {
    OpenedFormExcludesNobody(users, ThesesPage.NewThesisTemplate(user, programs, today, inOneYear).value);
  }

  /** After picking an author the select shows that author, and the supervisor select no longer offers them. */
  lemma ChosenAuthorShownAndExcluded(users: seq<UserOption>, thesis: FormThesis, userId: string)
    ensures AuthorSelectValue(ChooseAuthor(thesis, userId)) == Some(userId)
    ensures forall u :: u in PotentialSupervisors(users, ChooseAuthor(thesis, userId)) ==> u.id != userId
  {
    assert AuthorIds([FormAuthor(Some(userId))]) == [Some(userId)];
  }
}
