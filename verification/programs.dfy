/**
 * The intervention programs of a student: skill-acquisition programs (an objective taught in
 * ordered steps, with optional stimulus sets) and behaviour-management plans (a target behaviour
 * with its hypothesised functions). Dates are kept as the ISO strings the app stores.
 */
module Programs {
  import opened Wrappers

  datatype Category = SkillAcquisition | BehaviorManagement

  datatype ProgramStatus = Active | Achieved | Paused | Discontinued

  datatype BehaviorFunction = Attention | Escape | Sensory | Tangible

  datatype Step = Step(id: string, order: int, description: string)

  datatype ProgramSet = ProgramSet(id: string, name: string, items: seq<string>)

  datatype Program =
    | Skill(
        id: string,
        studentId: string,
        name: string,
        status: ProgramStatus,
        objective: string,
        antecedent: string,
        steps: seq<Step>,
        procedure: string,
        sets: Option<seq<ProgramSet>>,
        prompts: Option<string>,
        errorCorrection: Option<string>,
        masteryCriteria: Option<string>,
        generalization: Option<string>,
        createdDate: string,
        lastModified: string,
        createdBy: string)
    | Behavior(
        id: string,
        studentId: string,
        name: string,
        status: ProgramStatus,
        topography: string,
        operationalDefinition: string,
        currentDimension: Option<string>,
        functions: seq<BehaviorFunction>,
        precursorBehaviors: Option<string>,
        replacementBehavior: Option<string>,
        procedure: string,
        masteryCriteria: Option<string>,
        crisisPlan: Option<string>,
        createdDate: string,
        lastModified: string,
        createdBy: string)

  /** The `category` tag of the union. */
  function CategoryOf(p: Program): (c: Category)
    ensures c == SkillAcquisition <==> p.Skill?
    ensures c == BehaviorManagement <==> p.Behavior?
  {
    if p.Skill? then SkillAcquisition else BehaviorManagement
  }
}
