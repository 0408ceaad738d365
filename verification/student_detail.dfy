/**
 * A student's folder: the medication record with its correction/update distinction (an update
 * keeps the previous prescription as a history entry), and the saving of programs coming back
 * from the two designers. Today's date, the current timestamp and new ids are parameters.
 */
module StudentDetail {
  import opened Wrappers
  import opened Seqs
  import opened MockData
  import Programs
  import SkillProgramDesigner
  import BehaviorProgramDesigner

  // ----- medications -----

  /** The medication form's values; the start date as the ISO day the form's date converts to. */
  datatype MedicationValues = MedicationValues(
    name: string, dose: string, frequency: string, startDate: string, prescribedBy: string, notes: string)

  datatype SaveMode = Correction | Update

  /** `med.history || []`. */
  function History(med: MedicationRecord): seq<MedicationRecord> {
    med.history.GetOr([])
  }

  /** The form filled from a record for editing (`prescribedBy || ''`, `notes || ''`). */
  function EditValues(med: MedicationRecord): (v: MedicationValues)
    ensures v.name == med.name && v.dose == med.dose && v.frequency == med.frequency
    ensures v.startDate == med.startDate && v.prescribedBy == med.prescribedBy
    ensures v.notes == med.notes.GetOr("")
  {
    MedicationValues(med.name, med.dose, med.frequency, med.startDate, med.prescribedBy, med.notes.GetOr(""))
  }

  /** "Corrección": the entered data replaces the record's, keeping its id, status, end date and history. */
  function Correct(med: MedicationRecord, v: MedicationValues): (r: MedicationRecord)
    ensures r.id == med.id && r.status == med.status && r.endDate == med.endDate && r.history == med.history
    ensures r.name == v.name && r.dose == v.dose && r.frequency == v.frequency && r.startDate == v.startDate
    ensures r.prescribedBy == v.prescribedBy && r.notes == Some(v.notes)
  {
    med.(name := v.name, dose := v.dose, frequency := v.frequency, startDate := v.startDate,
         prescribedBy := v.prescribedBy, notes := Some(v.notes))
  }

  /** Saving a correction without changing the form leaves the record as it was (an absent note becomes empty). */
  lemma CorrectionWithUnchangedForm(med: MedicationRecord)
    ensures Correct(med, EditValues(med)) == med.(notes := Some(med.notes.GetOr("")))
  {
  }

  /** The old prescription as kept in the history: without its own history, ended today, inactive. */
  function Snapshot(med: MedicationRecord, today: string): (s: MedicationRecord)
    ensures s.history.None? && s.endDate == Some(today) && s.status == MedInactive
    ensures s.(history := med.history, endDate := med.endDate, status := med.status) == med
  {
    med.(history := None, endDate := Some(today), status := MedInactive)
  }

  /**
   * "Actualización": the entered data becomes the current prescription, starting today, and the
   * previous one heads the history.
   */
  function Evolve(med: MedicationRecord, v: MedicationValues, today: string): (r: MedicationRecord)
    ensures r.id == med.id && r.status == med.status && r.endDate == med.endDate
    ensures r.name == v.name && r.dose == v.dose && r.frequency == v.frequency && r.startDate == today
    ensures r.prescribedBy == v.prescribedBy && r.notes == Some(v.notes)
    ensures |History(r)| == |History(med)| + 1
    ensures History(r)[0] == Snapshot(med, today) && History(r)[1..] == History(med)
  {
    med.(name := v.name, dose := v.dose, frequency := v.frequency, startDate := today,
         prescribedBy := v.prescribedBy, notes := Some(v.notes),
         history := Some([Snapshot(med, today)] + History(med)))
  }

  /** `if (editingMedicationId)`: an empty id counts as not editing. */
  predicate Editing(editingId: Option<string>) {
    editingId.Some? && editingId.value != ""
  }

  /** A new prescription: active, with no end date and an empty history. */
  function NewMedication(v: MedicationValues, newId: string): (m: MedicationRecord)
    ensures m.id == newId && m.status == MedActive && m.endDate.None? && m.history == Some([])
    ensures m.name == v.name && m.dose == v.dose && m.frequency == v.frequency && m.startDate == v.startDate
    ensures m.prescribedBy == v.prescribedBy && m.notes == Some(v.notes)
  {
    MedicationRecord(newId, v.name, v.dose, v.frequency, MedActive, v.startDate, None, v.prescribedBy, Some(v.notes), Some([]))
  }

  /**
   * "Guardar": while editing, the record with that id is corrected or evolved and every other
   * record is kept; otherwise a new active record is appended.
   */
  function SaveMedication(meds: seq<MedicationRecord>, editingId: Option<string>, mode: SaveMode,
                          v: MedicationValues, today: string, newId: string): (r: seq<MedicationRecord>)
    ensures Editing(editingId) ==> |r| == |meds| && forall i :: 0 <= i < |meds| ==>
      r[i] == (if meds[i].id != editingId.value then meds[i]
               else if mode == Correction then Correct(meds[i], v)
               else Evolve(meds[i], v, today))
    ensures !Editing(editingId) ==> r == meds + [NewMedication(v, newId)]
  {
    if Editing(editingId) then
      var id := editingId.value;
      MapWhere(meds, (m: MedicationRecord) => m.id == id,
               (m: MedicationRecord) => if mode == Correction then Correct(m, v) else Evolve(m, v, today))
    else meds + [NewMedication(v, newId)]
  }

  /** "Eliminar": exactly the records with that id disappear, the rest keep their order. */
  function RemoveMedication(meds: seq<MedicationRecord>, id: string): (r: seq<MedicationRecord>)
    ensures forall m :: m in r <==> m in meds && m.id != id
    ensures IsSubsequence(r, meds)
  {
    FilterIsSubsequence(meds, (m: MedicationRecord) => m.id != id);
    Filter(meds, (m: MedicationRecord) => m.id != id)
  }

  /** Suspending sets today's end date; reactivating clears it. */
  function ToggleOne(med: MedicationRecord, today: string): (r: MedicationRecord)
    ensures r.status != med.status
    ensures r.endDate.Some? <==> r.status == MedInactive
    ensures r.endDate.Some? ==> r.endDate.value == today
    ensures r.(status := med.status, endDate := med.endDate) == med
  {
    var status := if med.status == MedActive then MedInactive else MedActive;
    med.(status := status, endDate := if status == MedInactive then Some(today) else None)
  }

  /** "Suspender"/"Reactivar" on the record with that id only. */
  function ToggleMedicationStatus(meds: seq<MedicationRecord>, id: string, today: string): (r: seq<MedicationRecord>)
    ensures |r| == |meds|
    ensures forall i :: 0 <= i < |meds| ==> r[i] == (if meds[i].id == id then ToggleOne(meds[i], today) else meds[i])
  {
    MapWhere(meds, (m: MedicationRecord) => m.id == id, (m: MedicationRecord) => ToggleOne(m, today))
  }

  /**
   * Toggling twice restores every status; an active prescription without an end date comes back
   * exactly as it was.
   */
  lemma ToggleTwice(meds: seq<MedicationRecord>, id: string, today: string, later: string)
    ensures var r := ToggleMedicationStatus(ToggleMedicationStatus(meds, id, today), id, later);
      |r| == |meds|
      && (forall i :: 0 <= i < |meds| ==> r[i].status == meds[i].status)
      && (forall i :: 0 <= i < |meds| && meds[i].status == MedActive && meds[i].endDate.None? ==> r[i] == meds[i])
  {
    var once := ToggleMedicationStatus(meds, id, today);
    var r := ToggleMedicationStatus(once, id, later);
    forall i | 0 <= i < |meds|
      ensures r[i].status == meds[i].status
      ensures meds[i].status == MedActive && meds[i].endDate.None? ==> r[i] == meds[i]
    {
      if meds[i].id == id {
        assert once[i] == ToggleOne(meds[i], today);
        assert r[i] == ToggleOne(once[i], later);
      }
    }
  }

  // ----- programs -----

  /** `programsData.filter(p => p.studentId === student.id)`. */
  function ProgramsOf(all: seq<Programs.Program>, studentId: string): (r: seq<Programs.Program>)
    ensures forall p :: p in r <==> p in all && p.studentId == studentId
    ensures IsSubsequence(r, all)
  {
    FilterIsSubsequence(all, (p: Programs.Program) => p.studentId == studentId);
    Filter(all, (p: Programs.Program) => p.studentId == studentId)
  }

  /** `{ ...p, ...data, lastModified }` for a skill program: the designer's fields replace the program's. */
  function MergeSkill(p: Programs.Program, d: SkillProgramDesigner.SkillPatch, nowIso: string): (r: Programs.Program)
    requires p.Skill?
    ensures r.Skill? && r.id == p.id && r.studentId == p.studentId && r.status == p.status
    ensures r.createdDate == p.createdDate && r.createdBy == p.createdBy && r.lastModified == nowIso
    ensures SkillProgramDesigner.Initial(Some(r)) == SkillProgramDesigner.DesignerState(d.values, d.steps, d.sets)
  {
    var v := d.values;
    p.(name := v.name, objective := v.objective, antecedent := v.antecedent, procedure := v.procedure,
       prompts := Some(v.prompts), errorCorrection := Some(v.errorCorrection),
       masteryCriteria := Some(v.masteryCriteria), generalization := Some(v.generalization),
       steps := d.steps, sets := Some(d.sets), lastModified := nowIso)
  }

  /**
   * A new skill program: active, for this student, created today by the current user. The
   * defaults it spreads first (`data.name || 'Nuevo Programa'`, ...) are all overridden by the
   * designer's fields, which it always sends.
   */
  function NewSkill(d: SkillProgramDesigner.SkillPatch, studentId: string, newId: string, today: string, nowIso: string)
    : (r: Programs.Program)
    ensures r.Skill? && r.id == newId && r.studentId == studentId && r.status == Programs.Active
    ensures r.createdDate == today && r.lastModified == nowIso && r.createdBy == "Usuario Actual"
    ensures SkillProgramDesigner.Initial(Some(r)) == SkillProgramDesigner.DesignerState(d.values, d.steps, d.sets)
  {
    var v := d.values;
    Programs.Skill(newId, studentId, v.name, Programs.Active, v.objective, v.antecedent, d.steps, v.procedure,
                   Some(d.sets), Some(v.prompts), Some(v.errorCorrection), Some(v.masteryCriteria),
                   Some(v.generalization), today, nowIso, "Usuario Actual")
  }

  /** Every program with the selected id is of the designer's category (true whenever a designer was opened on it). */
  predicate SelectedIs(programs: seq<Programs.Program>, selected: Option<Programs.Program>, c: Programs.Category) {
    selected.Some? ==> forall i :: 0 <= i < |programs| && programs[i].id == selected.value.id ==>
      Programs.CategoryOf(programs[i]) == c
  }

  /** Saving from the skill designer: merge into the selected program, or append a new one. */
  function SaveSkillProgram(programs: seq<Programs.Program>, selected: Option<Programs.Program>,
                            d: SkillProgramDesigner.SkillPatch, studentId: string, newId: string,
                            today: string, nowIso: string): (r: seq<Programs.Program>)
    requires SelectedIs(programs, selected, Programs.SkillAcquisition)
    ensures selected.Some? ==> |r| == |programs| && forall i :: 0 <= i < |programs| ==>
      r[i] == (if programs[i].id == selected.value.id then MergeSkill(programs[i], d, nowIso) else programs[i])
    ensures selected.None? ==> r == programs + [NewSkill(d, studentId, newId, today, nowIso)]
  {
    match selected
    case Some(s) =>
      seq(|programs|, i requires 0 <= i < |programs| =>
        if programs[i].id == s.id then MergeSkill(programs[i], d, nowIso) else programs[i])
    case None => programs + [NewSkill(d, studentId, newId, today, nowIso)]
  }

  /** `{ ...p, ...values, lastModified }` for a behaviour plan. */
  function MergeBehavior(p: Programs.Program, f: BehaviorProgramDesigner.BehaviorForm, nowIso: string): (r: Programs.Program)
    requires p.Behavior?
    ensures r.Behavior? && r.id == p.id && r.studentId == p.studentId && r.status == p.status
    ensures r.createdDate == p.createdDate && r.createdBy == p.createdBy && r.lastModified == nowIso
    ensures BehaviorProgramDesigner.Initial(Some(r)) == f
  {
    p.(name := f.name, topography := f.topography, operationalDefinition := f.operationalDefinition,
       currentDimension := Some(f.currentDimension), precursorBehaviors := Some(f.precursorBehaviors),
       functions := f.functions, replacementBehavior := Some(f.replacementBehavior), procedure := f.procedure,
       masteryCriteria := Some(f.masteryCriteria), crisisPlan := Some(f.crisisPlan), lastModified := nowIso)
  }

  /** A new behaviour plan: active, for this student, created today, with the designer's fields. */
  function NewBehavior(f: BehaviorProgramDesigner.BehaviorForm, studentId: string, newId: string, today: string, nowIso: string)
    : (r: Programs.Program)
    ensures r.Behavior? && r.id == newId && r.studentId == studentId && r.status == Programs.Active
    ensures r.createdDate == today && r.lastModified == nowIso && r.createdBy == "Usuario Actual"
    ensures BehaviorProgramDesigner.Initial(Some(r)) == f
  {
    Programs.Behavior(newId, studentId, f.name, Programs.Active, f.topography, f.operationalDefinition,
                      Some(f.currentDimension), f.functions, Some(f.precursorBehaviors), Some(f.replacementBehavior),
                      f.procedure, Some(f.masteryCriteria), Some(f.crisisPlan), today, nowIso, "Usuario Actual")
  }

  /** Saving from the behaviour designer: merge into the selected plan, or append a new one. */
  function SaveBehaviorProgram(programs: seq<Programs.Program>, selected: Option<Programs.Program>,
                               f: BehaviorProgramDesigner.BehaviorForm, studentId: string, newId: string,
                               today: string, nowIso: string): (r: seq<Programs.Program>)
    requires SelectedIs(programs, selected, Programs.BehaviorManagement)
    ensures selected.Some? ==> |r| == |programs| && forall i :: 0 <= i < |programs| ==>
      r[i] == (if programs[i].id == selected.value.id then MergeBehavior(programs[i], f, nowIso) else programs[i])
    ensures selected.None? ==> r == programs + [NewBehavior(f, studentId, newId, today, nowIso)]
  {
    match selected
    case Some(s) =>
      seq(|programs|, i requires 0 <= i < |programs| =>
        if programs[i].id == s.id then MergeBehavior(programs[i], f, nowIso) else programs[i])
    case None => programs + [NewBehavior(f, studentId, newId, today, nowIso)]
  }

  // ----- the designers across openings -----

  /*
   * Both designers are rendered once, with no selection, and React reads `useState` and `useForm`
   * initial values only at that mount. As written, opening a designer later to edit a program
   * therefore shows the state it already holds, at first the blank form, not the program. The
   * corrected designer is re-initialised from the program each time it opens, which is what
   * `SkillProgramDesigner.Initial(Some(p))` and `BehaviorProgramDesigner.Initial(Some(p))` describe.
   */

  /**
   * As written: the first edit of a skill program opens the blank mounted form; once a valid name
   * and objective are typed in, saving merges the empty step list over the program's steps.
   */
  lemma EditSkillAsWrittenErasesSteps(programs: seq<Programs.Program>, i: nat, name: string, objective: string,
                                      studentId: string, newId: string, today: string, nowIso: string)
    requires i < |programs| && programs[i].Skill? && |programs[i].steps| > 0
    requires SelectedIs(programs, Some(programs[i]), Programs.SkillAcquisition)
    requires |name| >= 3 && |objective| >= 10
    ensures var mounted := SkillProgramDesigner.Initial(None);
      var typed := mounted.(form := mounted.form.(name := name, objective := objective));
      var d := SkillProgramDesigner.Submit(typed);
      mounted != SkillProgramDesigner.Initial(Some(programs[i])) && d.Some?
      && SaveSkillProgram(programs, Some(programs[i]), d.value, studentId, newId, today, nowIso)[i].steps == []
  {
    var mounted := SkillProgramDesigner.Initial(None);
    assert mounted.steps != SkillProgramDesigner.Initial(Some(programs[i])).steps;
  }

  /** Corrected: opening the designer on a valid program and saving it unchanged keeps its texts, steps and sets. */
  lemma EditSkillUnchangedKeepsProgram(programs: seq<Programs.Program>, i: nat,
                                       studentId: string, newId: string, today: string, nowIso: string)
    requires i < |programs| && programs[i].Skill?
    requires SelectedIs(programs, Some(programs[i]), Programs.SkillAcquisition)
    requires |programs[i].name| >= 3 && |programs[i].objective| >= 10
    ensures var d := SkillProgramDesigner.Submit(SkillProgramDesigner.Initial(Some(programs[i])));
      d.Some? &&
      var r := SaveSkillProgram(programs, Some(programs[i]), d.value, studentId, newId, today, nowIso)[i];
      var p := programs[i];
      r.name == p.name && r.objective == p.objective && r.antecedent == p.antecedent && r.procedure == p.procedure
      && r.steps == p.steps && r.sets.GetOr([]) == p.sets.GetOr([]) && r.id == p.id && r.status == p.status
  {
  }

  /**
   * As written: the first edit of a behaviour plan opens the blank mounted form; once the required
   * fields are typed in, saving replaces the plan's crisis plan with an empty text.
   */
  lemma EditBehaviorAsWrittenErasesCrisisPlan(programs: seq<Programs.Program>, i: nat,
                                              name: string, topography: string, definition: string,
                                              fn: Programs.BehaviorFunction,
                                              studentId: string, newId: string, today: string, nowIso: string)
    requires i < |programs| && programs[i].Behavior? && programs[i].crisisPlan.GetOr("") != ""
    requires SelectedIs(programs, Some(programs[i]), Programs.BehaviorManagement)
    requires |name| >= 3 && |topography| >= 10 && |definition| >= 20
    ensures var mounted := BehaviorProgramDesigner.Initial(None);
      var typed := mounted.(name := name, topography := topography, operationalDefinition := definition,
                            functions := [fn]);
      var f := BehaviorProgramDesigner.Submit(typed);
      mounted != BehaviorProgramDesigner.Initial(Some(programs[i])) && f.Some?
      && SaveBehaviorProgram(programs, Some(programs[i]), f.value, studentId, newId, today, nowIso)[i].crisisPlan == Some("")
  {
    var mounted := BehaviorProgramDesigner.Initial(None);
    assert mounted.crisisPlan != BehaviorProgramDesigner.Initial(Some(programs[i])).crisisPlan;
  }

  /**
   * Corrected: saving a skill design and reopening the designer, re-initialised from the saved
   * program, shows exactly what was submitted, for an edit as for a new program.
   */
  lemma SavedSkillReopens(programs: seq<Programs.Program>, selected: Option<Programs.Program>,
                          d: SkillProgramDesigner.SkillPatch, studentId: string, newId: string,
                          today: string, nowIso: string, i: nat)
    requires SelectedIs(programs, selected, Programs.SkillAcquisition)
    requires var r := SaveSkillProgram(programs, selected, d, studentId, newId, today, nowIso);
      i < |r| && (if selected.Some? then programs[i].id == selected.value.id else i == |programs|)
    ensures var r := SaveSkillProgram(programs, selected, d, studentId, newId, today, nowIso);
      r[i].Skill? && SkillProgramDesigner.Initial(Some(r[i])) == SkillProgramDesigner.DesignerState(d.values, d.steps, d.sets)
  {
  }
}
