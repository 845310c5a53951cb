/**
 * The records the client and the server exchange for a thesis
 * (src/server/types.ts). Identifiers are the strings the client sees.
 */
module ThesisTypes {
  import opened Wrappers

  /** The five lifecycle states of a thesis. */
  datatype ThesisStatus = Planning | Started | InProgress | Completed | Cancelled

  /** The public part of a user that a thesis refers to (`AuthorData`). */
  datatype AuthorData = AuthorData(
    id: string,
    username: string,
    firstName: string,
    lastName: string,
    email: Option<string>)

  /**
   * One supervisor of a thesis and their share. The declared type has no
   * `isPrimarySupervisor`; the client's supervisor selection carries it.
   */
  datatype SupervisionData = SupervisionData(
    user: AuthorData,
    percentage: int,
    isExternal: bool,
    isPrimarySupervisor: bool)

  /**
   * One grader of a thesis. `isExternal` is not a declared key of the type:
   * the new-thesis template sets it, GraderSelect leaves it out (None).
   */
  datatype GraderData = GraderData(
    user: AuthorData,
    isPrimaryGrader: bool,
    isExternal: Option<bool>)

  /** A stored attachment: the name on disk, the uploaded name and the MIME type. */
  datatype FileData = FileData(filename: string, name: string, mimetype: string)

  /** A thesis with its people and its two optional attachments. */
  datatype ThesisData = ThesisData(
    id: Option<string>,
    programId: string,
    studyTrackId: Option<string>,
    topic: string,
    status: ThesisStatus,
    startDate: string,
    targetDate: Option<string>,
    supervisions: seq<SupervisionData>,
    authors: seq<AuthorData>,
    graders: seq<GraderData>,
    researchPlan: Option<FileData>,
    waysOfWorking: Option<FileData>)

  datatype StudyTrackData = StudyTrackData(id: string, programId: string)

  datatype ProgramData = ProgramData(id: string, studyTracks: seq<StudyTrackData>)
}
