/**
 * The skill-acquisition program designer: a form over the program's texts plus two lists edited
 * in place, the numbered teaching steps and the stimulus sets with their items. Submitting a
 * valid form hands the texts, steps and sets to the caller. New ids are parameters.
 */
module SkillProgramDesigner {
  import opened Wrappers
  import opened Seqs
  import opened Text
  import opened Programs

  // ----- steps -----

  /** The step numbers read 1, 2, ..., n in list order. */
  predicate Sequential(steps: seq<Step>) {
    forall i :: 0 <= i < |steps| ==> steps[i].order == i + 1
  }

  /** "Agregar paso": an empty step numbered after the last. */
  function AddStep(steps: seq<Step>, newId: string): (r: seq<Step>)
    ensures |r| == |steps| + 1 && r[..|steps|] == steps
    ensures r[|steps|] == Step(newId, |steps| + 1, "")
    ensures Sequential(steps) ==> Sequential(r)
  {
    steps + [Step(newId, |steps| + 1, "")]
  }

  /** `.map((step, index) => ({ ...step, order: index + 1 }))`. */
  function Renumber(steps: seq<Step>): (r: seq<Step>)
    ensures |r| == |steps| && Sequential(r)
    ensures forall i :: 0 <= i < |steps| ==> r[i].id == steps[i].id && r[i].description == steps[i].description
  {
    seq(|steps|, i requires 0 <= i < |steps| => steps[i].(order := i + 1))
  }

  /** Renumbering a list that is already numbered 1..n changes nothing. */
  lemma RenumberSequential(steps: seq<Step>)
    requires Sequential(steps)
    ensures Renumber(steps) == steps
  {
    assert forall i :: 0 <= i < |steps| ==> Renumber(steps)[i] == steps[i];
  }

  function OtherSteps(steps: seq<Step>, id: string): (r: seq<Step>)
    ensures forall s :: s in r <==> s in steps && s.id != id
    ensures IsSubsequence(r, steps)
  {
    FilterIsSubsequence(steps, (s: Step) => s.id != id);
    Filter(steps, (s: Step) => s.id != id)
  }

  /** "Eliminar paso": the other steps, in order, numbered 1..n again whatever their numbers were. */
  function RemoveStep(steps: seq<Step>, id: string): (r: seq<Step>)
    ensures Sequential(r)
    ensures |r| == |OtherSteps(steps, id)|
    ensures forall i :: 0 <= i < |r| ==> r[i] == OtherSteps(steps, id)[i].(order := i + 1)
    ensures forall i :: 0 <= i < |r| ==> r[i].id != id
  {
    Renumber(OtherSteps(steps, id))
  }

  /** Adding a step and removing it again gives back a numbered list unchanged. */
  lemma AddThenRemoveStep(steps: seq<Step>, newId: string)
    requires Sequential(steps)
    requires forall i :: 0 <= i < |steps| ==> steps[i].id != newId
    ensures RemoveStep(AddStep(steps, newId), newId) == steps
  {
    var keep := (s: Step) => s.id != newId;
    var added := AddStep(steps, newId);
    assert added == steps + [Step(newId, |steps| + 1, "")];
    FilterAppend(steps, [Step(newId, |steps| + 1, "")], keep);
    FilterKeepsAll(steps, keep);
    assert Filter([Step(newId, |steps| + 1, "")], keep) == [];
    RenumberSequential(steps);
  }

  /** Removing an id no step has leaves a numbered list as it was. */
  lemma RemoveAbsentStep(steps: seq<Step>, id: string)
    requires Sequential(steps)
    requires forall i :: 0 <= i < |steps| ==> steps[i].id != id
    ensures RemoveStep(steps, id) == steps
  {
    FilterKeepsAll(steps, (s: Step) => s.id != id);
    RenumberSequential(steps);
  }

  /** Editing a step's text: only that step's description changes. */
  function UpdateStep(steps: seq<Step>, id: string, description: string): (r: seq<Step>)
    ensures |r| == |steps|
    ensures forall i :: 0 <= i < |steps| ==>
      r[i].id == steps[i].id && r[i].order == steps[i].order
      && r[i].description == (if steps[i].id == id then description else steps[i].description)
    ensures Sequential(steps) ==> Sequential(r)
  {
    MapWhere(steps, (s: Step) => s.id == id, (s: Step) => s.(description := description))
  }

  // ----- sets -----

  /** "Agregar set": a new unnamed set with no items. */
  function AddSet(sets: seq<ProgramSet>, newId: string): (r: seq<ProgramSet>)
    ensures |r| == |sets| + 1 && r[..|sets|] == sets
    ensures r[|sets|] == ProgramSet(newId, "", [])
  {
    sets + [ProgramSet(newId, "", [])]
  }

  function RemoveSet(sets: seq<ProgramSet>, id: string): (r: seq<ProgramSet>)
    ensures forall s :: s in r <==> s in sets && s.id != id
    ensures IsSubsequence(r, sets)
  {
    FilterIsSubsequence(sets, (s: ProgramSet) => s.id != id);
    Filter(sets, (s: ProgramSet) => s.id != id)
  }

  /** Applies `f` to the items of the set with that id; every other set is untouched. */
  function MapItems(sets: seq<ProgramSet>, setId: string, f: seq<string> -> seq<string>): (r: seq<ProgramSet>)
    ensures |r| == |sets|
    ensures forall i :: 0 <= i < |sets| ==>
      r[i].id == sets[i].id && r[i].name == sets[i].name
      && r[i].items == (if sets[i].id == setId then f(sets[i].items) else sets[i].items)
  {
    MapWhere(sets, (s: ProgramSet) => s.id == setId, (s: ProgramSet) => s.(items := f(s.items)))
  }

  function UpdateSetName(sets: seq<ProgramSet>, id: string, name: string): (r: seq<ProgramSet>)
    ensures |r| == |sets|
    ensures forall i :: 0 <= i < |sets| ==>
      r[i].id == sets[i].id && r[i].items == sets[i].items
      && r[i].name == (if sets[i].id == id then name else sets[i].name)
  {
    MapWhere(sets, (s: ProgramSet) => s.id == id, (s: ProgramSet) => s.(name := name))
  }

  /** `items.map((item, i) => i === index ? value : item)`: an index outside the list changes nothing. */
  function ReplaceAt(items: seq<string>, index: int, value: string): (r: seq<string>)
    ensures |r| == |items|
    ensures forall i :: 0 <= i < |items| ==> r[i] == (if i == index then value else items[i])
  {
    seq(|items|, i requires 0 <= i < |items| => if i == index then value else items[i])
  }

  /** `items.filter((_, i) => i !== index)`: drops that position, if it exists. */
  function RemoveAt(items: seq<string>, index: int): (r: seq<string>)
    ensures 0 <= index < |items| ==>
      (|r| == |items| - 1
       && (forall i :: 0 <= i < index ==> r[i] == items[i])
       && (forall i :: index <= i < |r| ==> r[i] == items[i + 1]))
    ensures !(0 <= index < |items|) ==> r == items
  {
    if 0 <= index < |items| then items[..index] + items[index + 1..] else items
  }

  function AddSetItem(sets: seq<ProgramSet>, setId: string): (r: seq<ProgramSet>)
    ensures |r| == |sets|
    ensures forall i :: 0 <= i < |sets| ==>
      r[i].id == sets[i].id && r[i].name == sets[i].name
      && r[i].items == (if sets[i].id == setId then sets[i].items + [""] else sets[i].items)
  {
    MapItems(sets, setId, (items: seq<string>) => items + [""])
  }

  function UpdateSetItem(sets: seq<ProgramSet>, setId: string, index: int, value: string): (r: seq<ProgramSet>)
    ensures |r| == |sets|
    ensures forall i :: 0 <= i < |sets| ==>
      r[i].id == sets[i].id && r[i].name == sets[i].name
      && r[i].items == (if sets[i].id == setId then ReplaceAt(sets[i].items, index, value) else sets[i].items)
  {
    MapItems(sets, setId, (items: seq<string>) => ReplaceAt(items, index, value))
  }

  function RemoveSetItem(sets: seq<ProgramSet>, setId: string, index: int): (r: seq<ProgramSet>)
    ensures |r| == |sets|
    ensures forall i :: 0 <= i < |sets| ==>
      r[i].id == sets[i].id && r[i].name == sets[i].name
      && r[i].items == (if sets[i].id == setId then RemoveAt(sets[i].items, index) else sets[i].items)
  {
    MapItems(sets, setId, (items: seq<string>) => RemoveAt(items, index))
  }

  /** Adding an item to a set and removing the last item again restores the sets. */
  lemma AddThenRemoveItem(sets: seq<ProgramSet>, setId: string, k: nat)
    requires k < |sets| && sets[k].id == setId
    requires forall i :: 0 <= i < |sets| && i != k ==> sets[i].id != setId
    ensures RemoveSetItem(AddSetItem(sets, setId), setId, |sets[k].items|) == sets
  {
    var added := AddSetItem(sets, setId);
    var r := RemoveSetItem(added, setId, |sets[k].items|);
    forall i | 0 <= i < |sets|
      ensures r[i] == sets[i]
    {
      if i == k {
        assert added[i].items == sets[i].items + [""];
        assert RemoveAt(added[i].items, |sets[k].items|) == sets[i].items;
      }
    }
  }

  // ----- the form -----

  datatype SkillForm = SkillForm(
    name: string,
    objective: string,
    antecedent: string,
    procedure: string,
    prompts: string,
    errorCorrection: string,
    masteryCriteria: string,
    generalization: string)

  datatype DesignerState = DesignerState(form: SkillForm, steps: seq<Step>, sets: seq<ProgramSet>)

  /** `program?.x || ''`: a new design starts blank, an existing one from its texts, steps and sets. */
  function Initial(program: Option<Program>): (st: DesignerState)
    requires program.None? || program.value.Skill?
    ensures program.None? ==> st == DesignerState(SkillForm("", "", "", "", "", "", "", ""), [], [])
    ensures program.Some? ==>
      var p := program.value;
      st.form.name == p.name && st.form.objective == p.objective && st.form.antecedent == p.antecedent
      && st.form.procedure == p.procedure
      && st.form.prompts == p.prompts.GetOr("") && st.form.errorCorrection == p.errorCorrection.GetOr("")
      && st.form.masteryCriteria == p.masteryCriteria.GetOr("") && st.form.generalization == p.generalization.GetOr("")
      && st.steps == p.steps && st.sets == p.sets.GetOr([])
  {
    match program
    case None => DesignerState(SkillForm("", "", "", "", "", "", "", ""), [], [])
    case Some(p) =>
      DesignerState(
        SkillForm(p.name, p.objective, p.antecedent, p.procedure, p.prompts.GetOr(""),
                  p.errorCorrection.GetOr(""), p.masteryCriteria.GetOr(""), p.generalization.GetOr("")),
        p.steps, p.sets.GetOr([]))
  }

  datatype FormErrors = FormErrors(name: bool, objective: bool)

  /** The validators: a name whose `length` is at least 3 and an objective whose `length` is at least 10. */
  function Validate(form: SkillForm): (e: FormErrors)
    ensures e.name <==> Utf16Length(form.name) < 3
    ensures e.objective <==> Utf16Length(form.objective) < 10
  {
    FormErrors(Utf16Length(form.name) < 3, Utf16Length(form.objective) < 10)
  }

  /** A name of two characters, one of them an emoji, has `length` 3 and passes the name check. */
  lemma EmojiNamePasses(form: SkillForm)
    requires form.name == "\U{1F600}a"
    ensures !Validate(form).name
  {
  }

  /** What `onSave` receives: every text of the form plus the current steps and sets. */
  datatype SkillPatch = SkillPatch(values: SkillForm, steps: seq<Step>, sets: seq<ProgramSet>)

  /** "Guardar": a form that fails a validator is not submitted. */
  function Submit(st: DesignerState): (r: Option<SkillPatch>)
    ensures r.Some? <==> Validate(st.form) == FormErrors(false, false)
    ensures r.Some? ==> r.value.values == st.form && r.value.steps == st.steps && r.value.sets == st.sets
    ensures r.Some? ==> Utf16Length(r.value.values.name) >= 3 && Utf16Length(r.value.values.objective) >= 10
  {
    if Validate(st.form) != FormErrors(false, false) then None
    else Some(SkillPatch(st.form, st.steps, st.sets))
  }
}
