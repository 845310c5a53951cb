/**
 * Which attachment files a thesis keeps and which stored files are removed
 * from disk when a thesis is updated or deleted
 * (src/server/routes/thesis.integration-test.js, the unlink expectations).
 * A thesis has at most one file under each of two labels, `researchPlan`
 * and `waysOfWorking`; a request may carry a new upload for either label.
 */
module AttachmentFiles {
  import opened Wrappers
  import opened ThesisTypes

  /** The stored files of one thesis, by label. */
  datatype Attachments = Attachments(researchPlan: Option<FileData>, waysOfWorking: Option<FileData>)

  /** The files uploaded with one request, by label. */
  datatype Uploads = Uploads(researchPlan: Option<FileData>, waysOfWorking: Option<FileData>)

  /** The stored file of a label after the request, and the names removed from disk for that label. */
  datatype LabelOutcome = LabelOutcome(stored: Option<FileData>, unlinked: seq<string>)

  /**
   * One label: a new upload replaces the stored file and the old file, if
   * there was one, is removed from disk; without an upload the stored file
   * is kept and nothing is removed.
   */
  function ReplaceLabel(previous: Option<FileData>, upload: Option<FileData>): (r: LabelOutcome)
    ensures upload.Some? ==> r.stored == upload
    ensures upload.None? ==> r.stored == previous
    ensures |r.unlinked| == (if upload.Some? && previous.Some? then 1 else 0)
    ensures upload.Some? && previous.Some? ==> r.unlinked == [previous.value.filename]
  {
    if upload.None? then LabelOutcome(previous, [])
    else if previous.None? then LabelOutcome(upload, [])
    else LabelOutcome(upload, [previous.value.filename])
  }

  /** The stored files and the removed names after an update. */
  datatype Replaced = Replaced(attachments: Attachments, unlinked: seq<string>)

  /** Both labels of an update, research plan first. */
  function Replace(a: Attachments, u: Uploads): (r: Replaced)
    ensures r.attachments.researchPlan == if u.researchPlan.Some? then u.researchPlan else a.researchPlan
    ensures r.attachments.waysOfWorking == if u.waysOfWorking.Some? then u.waysOfWorking else a.waysOfWorking
    ensures |r.unlinked| <= UploadCount(u)
    ensures forall name :: name in r.unlinked ==> name in StoredFilenames(a)
  {
    var rp := ReplaceLabel(a.researchPlan, u.researchPlan);
    var ww := ReplaceLabel(a.waysOfWorking, u.waysOfWorking);
    Replaced(Attachments(rp.stored, ww.stored), rp.unlinked + ww.unlinked)
  }

  /** The names of the files a thesis has on disk. */
  function StoredFilenames(a: Attachments): (names: seq<string>)
    ensures |names| == (if a.researchPlan.Some? then 1 else 0) + (if a.waysOfWorking.Some? then 1 else 0)
    ensures a.researchPlan.Some? ==> a.researchPlan.value.filename in names
    ensures a.waysOfWorking.Some? ==> a.waysOfWorking.value.filename in names
  {
    (if a.researchPlan.Some? then [a.researchPlan.value.filename] else [])
      + (if a.waysOfWorking.Some? then [a.waysOfWorking.value.filename] else [])
  }

  /** How many labels a request uploads a new file for. */
  function UploadCount(u: Uploads): (n: nat)
    ensures n <= 2
    ensures n == 0 <==> u.researchPlan.None? && u.waysOfWorking.None?
  {
    (if u.researchPlan.Some? then 1 else 0) + (if u.waysOfWorking.Some? then 1 else 0)
  }

  /**
   * With both files stored, an update removes one file per uploaded label
   * (two, one or none), each of them the old file of a label that received
   * an upload; the labels without an upload keep their file.
   */
  lemma UnlinkedPerUpload(a: Attachments, u: Uploads)
    requires a.researchPlan.Some? && a.waysOfWorking.Some?
    ensures |Replace(a, u).unlinked| == UploadCount(u)
    ensures forall name :: name in Replace(a, u).unlinked <==>
      (u.researchPlan.Some? && name == a.researchPlan.value.filename) ||
      (u.waysOfWorking.Some? && name == a.waysOfWorking.value.filename)
    ensures u.researchPlan.None? ==> Replace(a, u).attachments.researchPlan == a.researchPlan
    ensures u.waysOfWorking.None? ==> Replace(a, u).attachments.waysOfWorking == a.waysOfWorking
  {
  }

  /**
   * No stored file is lost track of: every file a thesis had before an
   * update is either still stored or removed from disk, and nothing else is
   * removed. Deleting a thesis afterwards therefore removes exactly what is
   * left.
   */
  lemma UpdateAccountsForEveryFile(a: Attachments, u: Uploads)
    ensures var r := Replace(a, u);
      multiset(r.unlinked) + multiset(StoredFilenames(KeptOnly(r.attachments, u)))
        == multiset(StoredFilenames(a))
  {
  }

  /** The files of `a` under the labels that `u` did not upload. */
  function KeptOnly(a: Attachments, u: Uploads): (k: Attachments)
    ensures u.researchPlan.None? ==> k.researchPlan == a.researchPlan
    ensures u.researchPlan.Some? ==> k.researchPlan.None?
    ensures u.waysOfWorking.None? ==> k.waysOfWorking == a.waysOfWorking
    ensures u.waysOfWorking.Some? ==> k.waysOfWorking.None?
  {
    Attachments(
      if u.researchPlan.Some? then None else a.researchPlan,
      if u.waysOfWorking.Some? then None else a.waysOfWorking)
  }

  /** An update without uploads changes no file and removes none. */
  lemma NoUploadsNoChange(a: Attachments)
    ensures Replace(a, Uploads(None, None)) == Replaced(a, [])
  {
  }
}
