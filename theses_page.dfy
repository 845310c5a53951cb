/**
 * The "new thesis" button of the thesis list page
 * (src/client/components/ThesisPage/ThesesPage.tsx): the thesis the edit
 * dialog opens with. The page renders once the program list has loaded,
 * even when that list is empty; the handler then reads the first program
 * and throws, which the model answers with `None`. The two dates come from
 * the clock and are passed in.
 */
module ThesesPage {
  import opened Wrappers
  import opened ThesisTypes

  /** The sum of the supervision percentages. */
  function TotalPercentage(supervisions: seq<SupervisionData>): int {
    if supervisions == [] then 0
    else supervisions[0].percentage + TotalPercentage(supervisions[1..])
  }

  /** The first study track of a program, if it has one (`studyTracks[0]?.id`). */
  function FirstStudyTrackId(program: ProgramData): (r: Option<string>)
    ensures r.Some? <==> |program.studyTracks| > 0
    ensures r.Some? ==> r.value == program.studyTracks[0].id
  {
    if |program.studyTracks| > 0 then Some(program.studyTracks[0].id) else None
  }

  /**
   * The new-thesis template: the logged-in user supervises it alone and is
   * its primary grader, nobody is its author yet, it is being planned and
   * belongs to the first program. With no programs the handler fails on
   * the first program's id: `None`.
   */
  function NewThesisTemplate(user: AuthorData, programs: seq<ProgramData>, today: string, inOneYear: string)
    : (r: Option<ThesisData>)
    ensures r.None? <==> programs == []
    ensures r.Some? ==> r.value.status == Planning && r.value.topic == ""
    ensures r.Some? ==> r.value.programId == programs[0].id
    ensures r.Some? ==> r.value.studyTrackId == FirstStudyTrackId(programs[0])
    ensures r.Some? ==> |r.value.supervisions| == 1
    ensures r.Some? ==> r.value.supervisions[0].user == user && r.value.supervisions[0].percentage == 100
    ensures r.Some? ==> r.value.supervisions[0].isPrimarySupervisor && !r.value.supervisions[0].isExternal
    ensures r.Some? ==> |r.value.graders| == 1
    ensures r.Some? ==> r.value.graders[0].user == user && r.value.graders[0].isPrimaryGrader && r.value.graders[0].isExternal == Some(false)
    ensures r.Some? ==> r.value.authors == []
    ensures r.Some? ==> r.value.id.None? && r.value.researchPlan.None? && r.value.waysOfWorking.None?
  {
    if programs == [] then None
    else Some(ThesisData(
      id := None,
      programId := programs[0].id,
      studyTrackId := FirstStudyTrackId(programs[0]),
      topic := "",
      status := Planning,
      startDate := today,
      targetDate := Some(inOneYear),
      supervisions := [SupervisionData(user, 100, false, true)],
      authors := [],
      graders := [GraderData(user, true, Some(false))],
      researchPlan := None,
      waysOfWorking := None))
  }

  /** The template's supervision shares add up to 100 and exactly one grader is primary. */
  lemma TemplateIsComplete(user: AuthorData, programs: seq<ProgramData>, today: string, inOneYear: string)
    requires |programs| > 0
    ensures NewThesisTemplate(user, programs, today, inOneYear).Some?
    ensures TotalPercentage(NewThesisTemplate(user, programs, today, inOneYear).value.supervisions) == 100
    ensures forall i :: 0 <= i < |NewThesisTemplate(user, programs, today, inOneYear).value.graders| ==>
      (NewThesisTemplate(user, programs, today, inOneYear).value.graders[i].isPrimaryGrader <==> i == 0)
  {
    var t := NewThesisTemplate(user, programs, today, inOneYear).value;
    assert t.supervisions[1..] == [];
  }
}
