/**
 * The behaviour-management plan designer: a form over the plan's texts and the set of
 * hypothesised functions of the behaviour. A valid form is handed to the caller unchanged.
 */
module BehaviorProgramDesigner {
  import opened Wrappers
  import opened Seqs
  import opened Text
  import opened Programs

  datatype BehaviorForm = BehaviorForm(
    name: string,
    topography: string,
    operationalDefinition: string,
    currentDimension: string,
    precursorBehaviors: string,
    functions: seq<BehaviorFunction>,
    replacementBehavior: string,
    procedure: string,
    masteryCriteria: string,
    crisisPlan: string)

  const BlankForm: BehaviorForm := BehaviorForm("", "", "", "", "", [], "", "", "", "")

  /** `program?.x || ''`: a new plan starts blank with no functions, an existing one from its fields. */
  function Initial(program: Option<Program>): (f: BehaviorForm)
    requires program.None? || program.value.Behavior?
    ensures program.None? ==>
      f.name == "" && f.topography == "" && f.operationalDefinition == "" && f.currentDimension == ""
      && f.precursorBehaviors == "" && f.functions == [] && f.replacementBehavior == ""
      && f.procedure == "" && f.masteryCriteria == "" && f.crisisPlan == ""
    ensures program.Some? ==>
      var p := program.value;
      f.name == p.name && f.topography == p.topography && f.operationalDefinition == p.operationalDefinition
      && f.currentDimension == p.currentDimension.GetOr("") && f.precursorBehaviors == p.precursorBehaviors.GetOr("")
      && f.functions == p.functions && f.replacementBehavior == p.replacementBehavior.GetOr("")
      && f.procedure == p.procedure && f.masteryCriteria == p.masteryCriteria.GetOr("")
      && f.crisisPlan == p.crisisPlan.GetOr("")
  {
    match program
    case None => BlankForm
    case Some(p) =>
      BehaviorForm(p.name, p.topography, p.operationalDefinition, p.currentDimension.GetOr(""),
                   p.precursorBehaviors.GetOr(""), p.functions, p.replacementBehavior.GetOr(""),
                   p.procedure, p.masteryCriteria.GetOr(""), p.crisisPlan.GetOr(""))
  }

  datatype FormErrors = FormErrors(name: bool, topography: bool, operationalDefinition: bool, functions: bool)

  const NoErrors: FormErrors := FormErrors(false, false, false, false)

  /**
   * The validators, on `length` in UTF-16 code units: a name of at least 3, a topography of at least
   * 10, an operational definition of at least 20, and at least one function selected.
   */
  function Validate(f: BehaviorForm): (e: FormErrors)
    ensures e.name <==> Utf16Length(f.name) < 3
    ensures e.topography <==> Utf16Length(f.topography) < 10
    ensures e.operationalDefinition <==> Utf16Length(f.operationalDefinition) < 20
    ensures e.functions <==> f.functions == []
  {
    FormErrors(Utf16Length(f.name) < 3, Utf16Length(f.topography) < 10, Utf16Length(f.operationalDefinition) < 20, |f.functions| == 0)
  }

  /** The blank form of a new plan fails every validator. */
  lemma BlankFormFailsEveryCheck()
    ensures Validate(Initial(None)) == FormErrors(true, true, true, true)
  {
  }

  /** The four function checkboxes, in display order. */
  const FunctionOptions: seq<BehaviorFunction> := [Attention, Escape, Sensory, Tangible]

  /** Every function is offered, exactly once. */
  lemma FunctionOptionsComplete(fn: BehaviorFunction)
    ensures fn in FunctionOptions
    ensures Distinct(FunctionOptions) && |FunctionOptions| == 4
  {
  }

  /** "Guardar": a valid form goes to the caller as it is; an invalid one is not submitted. */
  function Submit(f: BehaviorForm): (r: Option<BehaviorForm>)
    ensures r.Some? <==> Validate(f) == NoErrors
    ensures r.Some? ==> r.value == f
    ensures r.Some? ==> Utf16Length(f.name) >= 3 && Utf16Length(f.topography) >= 10 && Utf16Length(f.operationalDefinition) >= 20 && |f.functions| > 0
  {
    if Validate(f) == NoErrors then Some(f) else None
  }
}
