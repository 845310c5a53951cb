/**
 * Who may list, read, create, update and delete theses, and which status
 * code each thesis route answers with (the thesis routes as
 * src/server/routes/thesis.integration-test.js pins them down).
 *
 * A request carries a role: the admin group, the employee (teacher) group,
 * the user's id and the programs the user manages (the `programId`s of the
 * user's ProgramManagement rows, src/server/routes/user.ts:15-18).
 */
module Access {
  import opened Wrappers
  import opened ThesisTypes

  datatype Role = Role(isAdmin: bool, isEmployee: bool, userId: nat, managedProgramIds: set<string>)

  /** The request comes from a member of the admin or the teacher group. */
  predicate HasThesisRole(role: Role) {
    role.isAdmin || role.isEmployee
  }

  /**
   * The thesis of program `programId` supervised by `supervisorIds` is the
   * caller's business: they are an admin, manage its program, or supervise it.
   */
  predicate MayAccess(role: Role, programId: string, supervisorIds: set<nat>) {
    role.isAdmin || programId in role.managedProgramIds || role.userId in supervisorIds
  }

  /** Any caller may keep a thesis in PLANNING; other states need an admin or a manager of `programId`. */
  predicate MaySetStatus(role: Role, programId: string, status: ThesisStatus) {
    status == Planning || role.isAdmin || programId in role.managedProgramIds
  }

  /** The message of the 403 answer to a forbidden status, also listed under `programId`. */
  const StatusDeniedMessage := "User is not authorized to change the status of the thesis"

  /** GET /api/theses. */
  function ListCode(role: Role): (code: int)
    ensures code == 200 <==> HasThesisRole(role)
    ensures code == 403 <==> !HasThesisRole(role)
  {
    if HasThesisRole(role) then 200 else 403
  }

  /** GET /api/theses/:id for a thesis of program `current` (None: no such thesis). */
  function ReadCode(role: Role, current: Option<string>, supervisorIds: set<nat>): (code: int)
    ensures code == 200 <==> HasThesisRole(role) && current.Some? && MayAccess(role, current.value, supervisorIds)
    ensures code == 403 <==> !HasThesisRole(role)
    ensures code == 200 || code == 403 || code == 404
  {
    if !HasThesisRole(role) then 403
    else if current.None? || !MayAccess(role, current.value, supervisorIds) then 404
    else 200
  }

  /** POST /api/theses with the submitted program and status and which files were uploaded. */
  function CreateCode(role: Role, programId: string, status: ThesisStatus, hasResearchPlan: bool, hasWaysOfWorking: bool)
    : (code: int)
    ensures code == 201 <==> HasThesisRole(role) && MaySetStatus(role, programId, status) && hasResearchPlan && hasWaysOfWorking
    ensures code == 403 <==> !HasThesisRole(role) || !MaySetStatus(role, programId, status)
    ensures code == 201 || code == 400 || code == 403
  {
    if !HasThesisRole(role) then 403
    else if !MaySetStatus(role, programId, status) then 403
    else if !hasResearchPlan || !hasWaysOfWorking then 400
    else 201
  }

  /**
   * PUT /api/theses/:id with the submitted program and status, for a thesis
   * of program `current` (None: no such thesis) supervised by `supervisorIds`.
   * The status gate looks at the submitted program and comes before the
   * access check; access is judged on the thesis's current program.
   */
  function UpdateCode(role: Role, programId: string, status: ThesisStatus, current: Option<string>, supervisorIds: set<nat>)
    : (code: int)
    ensures code == 200 <==>
      HasThesisRole(role) && MaySetStatus(role, programId, status) && current.Some? && MayAccess(role, current.value, supervisorIds)
    ensures code == 403 <==> !HasThesisRole(role) || !MaySetStatus(role, programId, status)
    ensures code == 200 || code == 403 || code == 404
  {
    if !HasThesisRole(role) then 403
    else if !MaySetStatus(role, programId, status) then 403
    else if current.None? || !MayAccess(role, current.value, supervisorIds) then 404
    else 200
  }

  /** DELETE /api/theses/:id for a thesis of program `current` (None: no such thesis). */
  function DeleteCode(role: Role, current: Option<string>, supervisorIds: set<nat>): (code: int)
    ensures code == 204 <==> HasThesisRole(role) && current.Some? && MayAccess(role, current.value, supervisorIds)
    ensures code == 403 <==> !HasThesisRole(role)
    ensures code == 204 || code == 403 || code == 404
  {
    if !HasThesisRole(role) then 403
    else if current.None? || !MayAccess(role, current.value, supervisorIds) then 404
    else 204
  }

  /** Without the admin or the teacher group every thesis route answers 403, whatever the request. */
  lemma NoRoleIsForbiddenEverywhere(
    role: Role, id: Option<string>, supervisorIds: set<nat>,
    programId: string, status: ThesisStatus, hasResearchPlan: bool, hasWaysOfWorking: bool)
    requires !role.isAdmin && !role.isEmployee
    ensures ListCode(role) == 403
    ensures ReadCode(role, id, supervisorIds) == 403
    ensures CreateCode(role, programId, status, hasResearchPlan, hasWaysOfWorking) == 403
    ensures UpdateCode(role, programId, status, id, supervisorIds) == 403
    ensures DeleteCode(role, id, supervisorIds) == 403
  {
  }

  /**
   * A non-PLANNING status from a caller who is neither an admin nor a
   * manager of the submitted program is refused with 403 on create and on
   * update, even when the update would otherwise be refused with 404.
   */
  lemma StatusGateComesFirst(
    role: Role, programId: string, status: ThesisStatus, current: Option<string>, supervisorIds: set<nat>,
    hasResearchPlan: bool, hasWaysOfWorking: bool)
    requires HasThesisRole(role) && !role.isAdmin && programId !in role.managedProgramIds
    requires status != Planning
    ensures CreateCode(role, programId, status, hasResearchPlan, hasWaysOfWorking) == 403
    ensures UpdateCode(role, programId, status, current, supervisorIds) == 403
  {
  }

  /**
   * A supervisor who neither administers nor manages may edit the thesis
   * while it is planned, and is refused any other status.
   */
  lemma SupervisorMayOnlyPlan(role: Role, programId: string, current: string, supervisorIds: set<nat>, status: ThesisStatus)
    requires role.isEmployee && !role.isAdmin && role.userId in supervisorIds
    requires programId !in role.managedProgramIds
    ensures UpdateCode(role, programId, status, Some(current), supervisorIds) == (if status == Planning then 200 else 403)
  {
  }

  /**
   * Managing only the program a thesis is moved to is not enough: a caller
   * who does not supervise it and manages neither its current program nor
   * is an admin gets 404.
   */
  lemma TargetProgramManagerIsNotEnough(role: Role, programId: string, current: string, supervisorIds: set<nat>)
    requires role.isEmployee && !role.isAdmin && role.userId !in supervisorIds
    requires programId in role.managedProgramIds && current !in role.managedProgramIds
    ensures UpdateCode(role, programId, Planning, Some(current), supervisorIds) == 404
    ensures DeleteCode(role, Some(current), supervisorIds) == 404
  {
  }

  /** An id with no thesis behind it is 404 on read, update and delete, even for an admin. */
  lemma MissingThesisIsNotFound(role: Role, programId: string, status: ThesisStatus, supervisorIds: set<nat>)
    requires HasThesisRole(role) && MaySetStatus(role, programId, status)
    ensures ReadCode(role, None, supervisorIds) == 404
    ensures UpdateCode(role, programId, status, None, supervisorIds) == 404
    ensures DeleteCode(role, None, supervisorIds) == 404
  {
  }
}
