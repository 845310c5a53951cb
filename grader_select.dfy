/**
 * Component GraderSelect of the thesis form
 * (src/client/components/ThesisPage/GraderSelect/GraderSelect.tsx):
 * putting a new grader into one slot, and the per-slot field settings.
 */
module GraderSelect {
  import opened Wrappers
  import opened ThesisTypes

  /** Which instruction text a grader field shows under it. */
  datatype HelperText = ProfessorInstructions | PhdInstructions

  /** The settings a grader field is rendered with. */
  datatype FieldSettings = FieldSettings(required: bool, helperText: HelperText)

  /**
   * Choosing `grader` in slot `index`: the selections are copied into a new
   * array, the copy's slot `index` is overwritten and the copy is returned.
   * The slot is marked primary exactly when it is the first one. The caller
   * only passes the index of a rendered slot.
   */
  method HandleChange(selections: seq<GraderData>, index: nat, grader: AuthorData)
    returns (updated: seq<GraderData>)
    requires index < |selections|
    ensures |updated| == |selections|
    ensures updated[index].user == grader
    ensures updated[index].isPrimaryGrader <==> index == 0
    ensures updated[index].isExternal == None
    ensures forall j :: 0 <= j < |selections| && j != index ==> updated[j] == selections[j]
  {
    var copy := new GraderData[|selections|](j requires 0 <= j < |selections| => selections[j]);
    copy[index] := GraderData(grader, index == 0, None);
    updated := copy[..];
  }

  /** The field of slot `index`: the first is required and asks for a professor, the rest for a PhD. */
  function FieldSettingsAt(index: nat): (s: FieldSettings)
    ensures s.required <==> index == 0
    ensures s.helperText == ProfessorInstructions <==> index == 0
  {
    FieldSettings(index == 0, if index == 0 then ProfessorInstructions else PhdInstructions)
  }

  /** How many of the first `n` slots are required fields. */
  function RequiredFields(n: nat): nat {
    if n == 0 then 0 else RequiredFields(n - 1) + (if FieldSettingsAt(n - 1).required then 1 else 0)
  }

  /** However many graders are listed, exactly one field, the first, is required. */
  lemma {:induction false} ExactlyOneRequiredField(n: nat)
    requires n >= 1
    ensures RequiredFields(n) == 1
  {
    if n > 1 {
      ExactlyOneRequiredField(n - 1);
    }
  }
}
