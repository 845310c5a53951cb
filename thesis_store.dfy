/**
 * The thesis tables behind /api/theses and the four routes that read and
 * change them, as src/server/routes/thesis.integration-test.js observes
 * them: the Thesis rows, the Supervision, Grader and Author rows of each
 * thesis, its attachments, the User table and the files removed from disk.
 */
module ThesisStore {
  import opened Wrappers
  import opened Seqs
  import opened ThesisTypes
  import opened Access
  import opened Reconciliation
  import opened AttachmentFiles

  /** Database keys of theses, handed out in increasing order. */
  type ThesisId = nat

  /** The columns of a Thesis row. */
  datatype ThesisRow = ThesisRow(
    programId: string,
    studyTrackId: Option<string>,
    topic: string,
    status: ThesisStatus,
    startDate: string,
    targetDate: Option<string>)

  /** The `json` field of a POST or PUT request. */
  datatype ThesisSubmission = ThesisSubmission(
    programId: string,
    studyTrackId: Option<string>,
    topic: string,
    status: ThesisStatus,
    startDate: string,
    targetDate: Option<string>,
    supervisions: seq<SubmittedSupervision>,
    graders: seq<SubmittedGrader>,
    authors: seq<UserId>)

  /** The Thesis row a submission is stored as. */
  function RowOf(s: ThesisSubmission): (row: ThesisRow)
    ensures row.programId == s.programId && row.topic == s.topic && row.status == s.status
    ensures row.studyTrackId == s.studyTrackId && row.startDate == s.startDate && row.targetDate == s.targetDate
  {
    ThesisRow(s.programId, s.studyTrackId, s.topic, s.status, s.startDate, s.targetDate)
  }

  /**
   * A thesis as the routes answer with it: its row, its supervisions,
   * graders and authors, and its attachments. People appear by user key.
   */
  datatype ThesisView = ThesisView(
    id: ThesisId,
    thesis: ThesisRow,
    supervisions: seq<SupervisionRow>,
    graders: seq<GraderRow>,
    authors: seq<UserId>,
    attachments: Attachments)

  /** What a route answers besides its status code. */
  datatype Body =
    | NoBody
    | ThesisList(theses: seq<ThesisView>)
    | OneThesis(view: ThesisView)
    | FieldErrors(error: string, programId: seq<string>)

  datatype Response = Response(status: int, body: Body)

  /** The thesis keys of a list of views, in order. */
  function ViewIds(views: seq<ThesisView>): (ids: seq<ThesisId>)
    ensures |ids| == |views|
    ensures forall i :: 0 <= i < |views| ==> ids[i] == views[i].id
  {
    seq(|views|, i requires 0 <= i < |views| => views[i].id)
  }

  /** The 403 answer to a status change the caller may not make. */
  const StatusDenied := Response(403, FieldErrors(StatusDeniedMessage, [StatusDeniedMessage]))

  /** The users supervising one thesis. */
  function SupervisorKeys(rows: seq<SupervisionRow>): (ids: set<UserId>)
    ensures forall u :: u in ids <==> exists i :: 0 <= i < |rows| && rows[i].userId == u
  {
    set i | 0 <= i < |rows| :: rows[i].userId
  }

  /** The supervisors' keys are the keys of `SupervisorUserIds`, as a set. */
  lemma SupervisorKeysOfUserIds(rows: seq<SupervisionRow>)
    ensures SupervisorKeys(rows) == set u | u in SupervisorUserIds(rows)
  {
    var ids := SupervisorUserIds(rows);
    forall u | u in ids ensures u in SupervisorKeys(rows) {
      var i :| 0 <= i < |ids| && ids[i] == u;
      assert rows[i].userId == u;
    }
  }

  /** The supervisors of thesis `id`; none when it has no rows. */
  function SupervisorsOf(supervisions: map<ThesisId, seq<SupervisionRow>>, id: ThesisId): set<UserId> {
    if id in supervisions then SupervisorKeys(supervisions[id]) else {}
  }

  /** The current program of thesis `id`, or None when there is no such thesis. */
  function ProgramOf(theses: map<ThesisId, ThesisRow>, id: ThesisId): (p: Option<string>)
    ensures p.Some? <==> id in theses
    ensures p.Some? ==> p.value == theses[id].programId
  {
    if id in theses then Some(theses[id].programId) else None
  }

  /** The theses the caller may see: those they administer, manage the program of, or supervise. */
  function Visible(role: Role, theses: map<ThesisId, ThesisRow>, supervisions: map<ThesisId, seq<SupervisionRow>>)
    : (ids: set<ThesisId>)
    ensures ids <= theses.Keys
  {
    set id | id in theses && MayAccess(role, theses[id].programId, SupervisorsOf(supervisions, id))
  }

  /** An admin sees every thesis. */
  lemma AdminSeesAll(role: Role, theses: map<ThesisId, ThesisRow>, supervisions: map<ThesisId, seq<SupervisionRow>>)
    requires role.isAdmin
    ensures Visible(role, theses, supervisions) == theses.Keys
  {
  }

  /**
   * Any other caller sees exactly the theses of the programs they manage
   * together with the theses they supervise.
   */
  lemma EmployeeSeesManagedAndSupervised(role: Role, theses: map<ThesisId, ThesisRow>, supervisions: map<ThesisId, seq<SupervisionRow>>)
    requires !role.isAdmin
    ensures Visible(role, theses, supervisions) ==
      (set id | id in theses && theses[id].programId in role.managedProgramIds)
      + (set id | id in theses && id in supervisions && role.userId in SupervisorKeys(supervisions[id]))
  {
  }

  /** A caller who manages no program of any thesis and supervises none sees nothing. */
  lemma UninvolvedSeesNothing(role: Role, theses: map<ThesisId, ThesisRow>, supervisions: map<ThesisId, seq<SupervisionRow>>)
    requires !role.isAdmin
    requires forall id :: id in theses ==> theses[id].programId !in role.managedProgramIds
    requires forall id :: id in supervisions ==> role.userId !in SupervisorKeys(supervisions[id])
    ensures Visible(role, theses, supervisions) == {}
  {
  }

  /** Reconciling keeps user keys unique and lists every supervisor once. */
  lemma ReconcileIsWellFormed(d: Directory, supervisions: seq<SubmittedSupervision>, graders: seq<SubmittedGrader>)
    requires WellKeyed(d)
    ensures WellKeyed(Reconcile(d, supervisions, graders).directory)
    ensures NoDuplicates(SupervisorUserIds(Reconcile(d, supervisions, graders).supervisions))
  {
    ResolveAllAppendsExternalUsers(d, SupervisorPeople(supervisions));
    ResolveAllAppendsExternalUsers(ResolveAll(d, SupervisorPeople(supervisions)).0, GraderPeople(graders));
    ReconciledSupervisions(d, supervisions, graders);
  }

  class Store {
    var theses: map<ThesisId, ThesisRow>
    var supervisions: map<ThesisId, seq<SupervisionRow>>
    var graders: map<ThesisId, seq<GraderRow>>
    var authors: map<ThesisId, seq<UserId>>
    var attachments: map<ThesisId, Attachments>
    var directory: Directory
    var nextThesisId: nat
    /** Every filename removed from disk so far, in order. */
    var unlinked: seq<string>

    /**
     * Keys are unique and below the next key, every thesis has exactly one
     * entry in each child table, and no thesis lists a supervisor twice.
     */
    predicate Valid()
      reads this
    {
      && WellKeyed(directory)
      && (forall id :: id in theses ==> id < nextThesisId)
      && supervisions.Keys == theses.Keys
      && graders.Keys == theses.Keys
      && authors.Keys == theses.Keys
      && attachments.Keys == theses.Keys
      && (forall id :: id in supervisions ==> NoDuplicates(SupervisorUserIds(supervisions[id])))
    }

    /** An empty database over the given users. */
    constructor (d: Directory)
      requires WellKeyed(d)
      ensures Valid()
      ensures theses == map[] && directory == d && unlinked == []
    {
      theses, supervisions, graders, authors, attachments := map[], map[], map[], map[], map[];
      directory := d;
      nextThesisId := 0;
      unlinked := [];
    }

    /**
     * GET /api/theses: each thesis the caller may see, once, in no
     * particular order.
     */
    method List(role: Role) returns (r: Response)
      requires Valid()
      ensures r.status == ListCode(role)
      ensures r.status == 200 ==> r.body.ThesisList? && NoDuplicates(ViewIds(r.body.theses))
      ensures r.status == 200 ==> forall id :: id in ViewIds(r.body.theses) <==> id in Visible(role, theses, supervisions)
      ensures r.status == 200 ==> forall v :: v in r.body.theses ==> v.id in theses && v == ViewOf(v.id)
      ensures r.status != 200 ==> r.body == NoBody
    {
      if !HasThesisRole(role) {
        return Response(403, NoBody);
      }
      var remaining := theses.Keys;
      var ids: seq<ThesisId> := [];
      while remaining != {}
        invariant remaining <= theses.Keys
        invariant NoDuplicates(ids)
        invariant forall id :: id in ids ==> id !in remaining
        invariant forall id :: id in ids <==> id in Visible(role, theses, supervisions) && id !in remaining
        decreases |remaining|
      {
        var id :| id in remaining;
        if MayAccess(role, theses[id].programId, SupervisorsOf(supervisions, id)) {
          ids := ids + [id];
        }
        remaining := remaining - {id};
      }
      return Response(200, ThesisList(ViewsOf(ids)));
    }

    /** GET /api/theses/:id. */
    method Get(role: Role, id: ThesisId) returns (r: Response)
      requires Valid()
      ensures r.status == ReadCode(role, ProgramOf(theses, id), SupervisorsOf(supervisions, id))
      ensures r.status == 200 ==> id in theses && r.body == OneThesis(ViewOf(id))
      ensures r.status != 200 ==> r.body == NoBody
    {
      if !HasThesisRole(role) {
        return Response(403, NoBody);
      }
      if id !in theses || !MayAccess(role, theses[id].programId, SupervisorsOf(supervisions, id)) {
        return Response(404, NoBody);
      }
      return Response(200, OneThesis(ViewOf(id)));
    }

    /** Thesis `id` as the routes answer with it: the row with its people and files. */
    function ViewOf(id: ThesisId): (v: ThesisView)
      reads this
      requires Valid() && id in theses
      ensures v.id == id && v.thesis == theses[id]
    {
      ThesisView(id, theses[id], supervisions[id], graders[id], authors[id], attachments[id])
    }

    /** The views of the stored theses `ids`, in the same order. */
    function ViewsOf(ids: seq<ThesisId>): (views: seq<ThesisView>)
      reads this
      requires Valid() && forall id :: id in ids ==> id in theses
      ensures ViewIds(views) == ids
      ensures forall v :: v in views ==> v.id in theses && v == ViewOf(v.id)
    {
      if ids == [] then [] else [ViewOf(ids[0])] + ViewsOf(ids[1..])
    }

    /**
     * Resolving submitted people one by one against the User table: known
     * external emails are reused, new external people are inserted.
     */
    method ResolvePeople(people: seq<PersonRef>) returns (ids: seq<UserId>)
      modifies this`directory
      ensures (directory, ids) == ResolveAll(old(directory), people)
    {
      ids := [];
      var i := 0;
      while i < |people|
        invariant 0 <= i <= |people|
        invariant (directory, ids) == ResolveAll(old(directory), people[..i])
      {
        assert people[..i + 1][..i] == people[..i];
        var step := ResolveOne(directory, people[i]);
        directory := step.0;
        ids := ids + [step.1];
        i := i + 1;
      }
      assert people[..i] == people;
    }

    /**
     * POST /api/theses: a new thesis under the next key, with its people
     * reconciled and both uploads stored.
     */
    method Post(role: Role, s: ThesisSubmission, uploads: Uploads) returns (r: Response)
      requires Valid()
      modifies this
      ensures Valid()
      ensures r.status == CreateCode(role, s.programId, s.status, uploads.researchPlan.Some?, uploads.waysOfWorking.Some?)
      ensures r.status == 403 && HasThesisRole(role) ==> r == StatusDenied
      ensures r.status != 201 ==> unchanged(this)
      ensures r.status == 201 ==>
        var id := old(nextThesisId);
        var rec := Reconcile(old(directory), s.supervisions, s.graders);
        && id !in old(theses)
        && r.body == OneThesis(ThesisView(id, RowOf(s), rec.supervisions, rec.graders, s.authors, Attachments(uploads.researchPlan, uploads.waysOfWorking)))
        && nextThesisId == id + 1
        && theses == old(theses)[id := RowOf(s)]
        && supervisions == old(supervisions)[id := rec.supervisions]
        && graders == old(graders)[id := rec.graders]
        && authors == old(authors)[id := s.authors]
        && attachments == old(attachments)[id := Attachments(uploads.researchPlan, uploads.waysOfWorking)]
        && directory == rec.directory
        && unlinked == old(unlinked)
    {
      if !HasThesisRole(role) {
        return Response(403, NoBody);
      }
      if !MaySetStatus(role, s.programId, s.status) {
        return StatusDenied;
      }
      if uploads.researchPlan.None? || uploads.waysOfWorking.None? {
        return Response(400, NoBody);
      }
      var id := nextThesisId;
      StoreThesis(id, s, Attachments(uploads.researchPlan, uploads.waysOfWorking));
      nextThesisId := id + 1;
      return Response(201, OneThesis(ViewOf(id)));
    }

    /**
     * PUT /api/theses/:id: the row and the people of the thesis are
     * replaced, and each uploaded attachment replaces the stored one.
     */
    method Put(role: Role, id: ThesisId, s: ThesisSubmission, uploads: Uploads) returns (r: Response)
      requires Valid()
      modifies this
      ensures Valid()
      ensures r.status == UpdateCode(role, s.programId, s.status, ProgramOf(old(theses), id), SupervisorsOf(old(supervisions), id))
      ensures r.status == 403 && HasThesisRole(role) ==> r == StatusDenied
      ensures r.status != 200 ==> unchanged(this)
      ensures r.status == 200 ==>
        var rec := Reconcile(old(directory), s.supervisions, s.graders);
        var rep := Replace(old(attachments)[id], uploads);
        && id in old(theses)
        && r.body == OneThesis(ThesisView(id, RowOf(s), rec.supervisions, rec.graders, s.authors, rep.attachments))
        && nextThesisId == old(nextThesisId)
        && theses == old(theses)[id := RowOf(s)]
        && supervisions == old(supervisions)[id := rec.supervisions]
        && graders == old(graders)[id := rec.graders]
        && authors == old(authors)[id := s.authors]
        && attachments == old(attachments)[id := rep.attachments]
        && directory == rec.directory
        && unlinked == old(unlinked) + rep.unlinked
    {
      if !HasThesisRole(role) {
        return Response(403, NoBody);
      }
      if !MaySetStatus(role, s.programId, s.status) {
        return StatusDenied;
      }
      if id !in theses || !MayAccess(role, theses[id].programId, SupervisorsOf(supervisions, id)) {
        return Response(404, NoBody);
      }
      var rep := Replace(attachments[id], uploads);
      StoreThesis(id, s, rep.attachments);
      unlinked := unlinked + rep.unlinked;
      return Response(200, OneThesis(ViewOf(id)));
    }

    /**
     * DELETE /api/theses/:id: the thesis and its child rows go, and its
     * stored files are removed from disk.
     */
    method Delete(role: Role, id: ThesisId) returns (r: Response)
      requires Valid()
      modifies this
      ensures Valid()
      ensures r.status == DeleteCode(role, ProgramOf(old(theses), id), SupervisorsOf(old(supervisions), id))
      ensures r.body == NoBody
      ensures r.status != 204 ==> unchanged(this)
      ensures r.status == 204 ==>
        && id in old(theses)
        && theses == old(theses) - {id}
        && supervisions == old(supervisions) - {id}
        && graders == old(graders) - {id}
        && authors == old(authors) - {id}
        && attachments == old(attachments) - {id}
        && directory == old(directory)
        && nextThesisId == old(nextThesisId)
        && unlinked == old(unlinked) + StoredFilenames(old(attachments)[id])
    {
      if !HasThesisRole(role) {
        return Response(403, NoBody);
      }
      if id !in theses || !MayAccess(role, theses[id].programId, SupervisorsOf(supervisions, id)) {
        return Response(404, NoBody);
      }
      unlinked := unlinked + StoredFilenames(attachments[id]);
      theses := theses - {id};
      supervisions := supervisions - {id};
      graders := graders - {id};
      authors := authors - {id};
      attachments := attachments - {id};
      return Response(204, NoBody);
    }

    /**
     * Writing thesis `id` with its reconciled people and the given
     * attachments; shared by create and update.
     */
    method StoreThesis(id: ThesisId, s: ThesisSubmission, files: Attachments)
      requires WellKeyed(directory)
      modifies this
      ensures nextThesisId == old(nextThesisId) && unlinked == old(unlinked)
      ensures var rec := Reconcile(old(directory), s.supervisions, s.graders);
        && theses == old(theses)[id := RowOf(s)]
        && supervisions == old(supervisions)[id := rec.supervisions]
        && graders == old(graders)[id := rec.graders]
        && authors == old(authors)[id := s.authors]
        && attachments == old(attachments)[id := files]
        && directory == rec.directory
      ensures WellKeyed(directory) && NoDuplicates(SupervisorUserIds(supervisions[id]))
    {
      var d := directory;
      var supIds := ResolvePeople(SupervisorPeople(s.supervisions));
      var graderIds := ResolvePeople(GraderPeople(s.graders));
      var rows := EvenSupervisions(Dedup(supIds), directory.users);
      var graderRows := GraderRows(graderIds, s.graders, directory.users);
      assert Reconcile(d, s.supervisions, s.graders) == Reconciled(directory, rows, graderRows);
      ReconcileIsWellFormed(d, s.supervisions, s.graders);
      theses := theses[id := RowOf(s)];
      supervisions := supervisions[id := rows];
      graders := graders[id := graderRows];
      authors := authors[id := s.authors];
      attachments := attachments[id := files];
    }
  }
}
