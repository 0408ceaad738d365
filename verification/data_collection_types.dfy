/**
 * The data-collection vocabulary: trial responses, prompt levels, intervention phases, the
 * trial and interval records the recorders build, and the label/colour tables the screens
 * show. Every table is one-to-one, which each label function states by naming its inverse.
 */
module DataCollectionTypes {
  import opened Wrappers

  datatype TrialResponse = Independent | Prompted | Error | NoResponse

  datatype PromptLevel =
    | FullPhysical | PartialPhysical | Gestural | Shadow | Model
    | EchoicFull | EchoicPartial | VerbalFull | VerbalPartial | Unspecified

  datatype StimulusPromptLevel =
    | Position | Redundancy | Movement | TimeDelay0 | TimeDelay3 | TimeDelay5 | TimeDelay10

  datatype Phase = Baseline | Treatment | Generalization | Maintenance

  /** One discrete trial; `timestamp` is the recording instant in milliseconds. */
  datatype Trial = Trial(id: string, number: int, response: TrialResponse, promptLevel: Option<PromptLevel>, timestamp: int)

  /** One observation interval; `occurred` is `None` until the observer marks it. */
  datatype IntervalData = IntervalData(intervalNumber: int, occurred: Option<bool>, timestamp: int, timeRemaining: Option<int>)

  // ----- responses -----

  function ResponseLabel(r: TrialResponse): (s: string)
    ensures ResponseFromLabel(s) == Some(r)
  {
    match r
    case Independent => "I"
    case Prompted => "A"
    case Error => "E"
    case NoResponse => "NR"
  }

  function ResponseFromLabel(s: string): (r: Option<TrialResponse>)
  {
    if s == "I" then Some(Independent)
    else if s == "A" then Some(Prompted)
    else if s == "E" then Some(Error)
    else if s == "NR" then Some(NoResponse)
    else None
  }

  function ResponseColor(r: TrialResponse): (c: string)
    ensures ResponseFromColor(c) == Some(r)
  {
    match r
    case Independent => "green"
    case Prompted => "yellow"
    case Error => "red"
    case NoResponse => "gray"
  }

  function ResponseFromColor(c: string): (r: Option<TrialResponse>)
  {
    if c == "green" then Some(Independent)
    else if c == "yellow" then Some(Prompted)
    else if c == "red" then Some(Error)
    else if c == "gray" then Some(NoResponse)
    else None
  }

  // ----- prompt levels -----

  function PromptLevelLabel(p: PromptLevel): (s: string)
    ensures PromptLevelFromLabel(s) == Some(p)
  {
    match p
    case FullPhysical => "AFT (Ayuda Física Total)"
    case PartialPhysical => "AFP (Ayuda Física Parcial)"
    case Gestural => "AG (Ayuda Gestual)"
    case Shadow => "Sombra"
    case Model => "Modelado"
    case EchoicFull => "ET (Ecoica Total)"
    case EchoicPartial => "EP (Ecoica Parcial)"
    case VerbalFull => "VT (Verbal Total)"
    case VerbalPartial => "VP (Verbal Parcial)"
    case Unspecified => "Ayuda no específica"
  }

  function PromptLevelFromLabel(s: string): (p: Option<PromptLevel>)
  {
    if s == "AFT (Ayuda Física Total)" then Some(FullPhysical)
    else if s == "AFP (Ayuda Física Parcial)" then Some(PartialPhysical)
    else if s == "AG (Ayuda Gestual)" then Some(Gestural)
    else if s == "Sombra" then Some(Shadow)
    else if s == "Modelado" then Some(Model)
    else if s == "ET (Ecoica Total)" then Some(EchoicFull)
    else if s == "EP (Ecoica Parcial)" then Some(EchoicPartial)
    else if s == "VT (Verbal Total)" then Some(VerbalFull)
    else if s == "VP (Verbal Parcial)" then Some(VerbalPartial)
    else if s == "Ayuda no específica" then Some(Unspecified)
    else None
  }

  function StimulusLabel(p: StimulusPromptLevel): (s: string)
    ensures StimulusFromLabel(s) == Some(p)
  {
    match p
    case Position => "Posición"
    case Redundancy => "Redundancia"
    case Movement => "Movimiento"
    case TimeDelay0 => "Time Delay 0 seg"
    case TimeDelay3 => "Time Delay 3 seg"
    case TimeDelay5 => "Time Delay 5 seg"
    case TimeDelay10 => "Time Delay 10 seg"
  }

  function StimulusFromLabel(s: string): (p: Option<StimulusPromptLevel>)
  {
    if s == "Posición" then Some(Position)
    else if s == "Redundancia" then Some(Redundancy)
    else if s == "Movimiento" then Some(Movement)
    else if s == "Time Delay 0 seg" then Some(TimeDelay0)
    else if s == "Time Delay 3 seg" then Some(TimeDelay3)
    else if s == "Time Delay 5 seg" then Some(TimeDelay5)
    else if s == "Time Delay 10 seg" then Some(TimeDelay10)
    else None
  }

  // ----- phases -----

  function PhaseLabel(p: Phase): (s: string)
    ensures PhaseFromLabel(s) == Some(p)
  {
    match p
    case Baseline => "Línea Base"
    case Treatment => "Tratamiento"
    case Generalization => "Generalización"
    case Maintenance => "Mantenimiento"
  }

  function PhaseFromLabel(s: string): (p: Option<Phase>)
  {
    if s == "Línea Base" then Some(Baseline)
    else if s == "Tratamiento" then Some(Treatment)
    else if s == "Generalización" then Some(Generalization)
    else if s == "Mantenimiento" then Some(Maintenance)
    else None
  }

  function PhaseColor(p: Phase): (c: string)
    ensures PhaseFromColor(c) == Some(p)
  {
    match p
    case Baseline => "gray"
    case Treatment => "blue"
    case Generalization => "violet"
    case Maintenance => "green"
  }

  function PhaseFromColor(c: string): (p: Option<Phase>)
  {
    if c == "gray" then Some(Baseline)
    else if c == "blue" then Some(Treatment)
    else if c == "violet" then Some(Generalization)
    else if c == "green" then Some(Maintenance)
    else None
  }

  /** A label read back names the response that shows it. */
  lemma ResponseFromLabelSound(s: string)
    ensures ResponseFromLabel(s).Some? ==> ResponseLabel(ResponseFromLabel(s).value) == s
  {
  }

  /** Distinct responses get distinct labels, so a trial's badge identifies its response. */
  lemma ResponseLabelInjective(a: TrialResponse, b: TrialResponse)
    requires ResponseLabel(a) == ResponseLabel(b)
    ensures a == b
  {
    assert ResponseFromLabel(ResponseLabel(a)) == Some(a);
  }

  lemma PromptLevelLabelInjective(a: PromptLevel, b: PromptLevel)
    requires PromptLevelLabel(a) == PromptLevelLabel(b)
    ensures a == b
  {
    assert PromptLevelFromLabel(PromptLevelLabel(a)) == Some(a);
  }
}
