/**
 * Percentage (discrete-trial) recording: a session of N trials, each clicked through the
 * response cycle NR -> I -> A -> E; prompted trials carry the prompt level chosen from a menu,
 * and the summary counts each response and the rounded percentage of independent trials.
 * The clock reading `now` (ms) is a parameter.
 */
module PercentageRecorder {
  import opened Wrappers
  import opened Seqs
  import opened Arith
  import opened Text
  import opened DataCollectionTypes

  /** The trial count the configuration form keeps: an empty or zero entry falls back to 10. */
  function TrialCountInput(entered: Option<int>): (n: int)
    ensures entered.Some? && entered.value != 0 ==> n == entered.value
    ensures n != 0
  {
    if entered.Some? && entered.value != 0 then entered.value else 10
  }

  function TrialId(i: nat): string {
    "trial-" + NatToString(i)
  }

  /** The configured session: `n` fresh trials numbered 1..n, all unanswered. */
  function Configure(n: nat, now: int): (ts: seq<Trial>)
    ensures |ts| == n
    ensures forall i :: 0 <= i < n ==> ts[i].number == i + 1 && ts[i].id == TrialId(i + 1)
    ensures forall i :: 0 <= i < n ==> ts[i].response == NoResponse && ts[i].promptLevel == None
    ensures PromptInvariant(ts)
  {
    seq(n, i requires 0 <= i < n => Trial(TrialId(i + 1), i + 1, NoResponse, None, now))
  }

  lemma TrialIdInjective(a: nat, b: nat)
    requires TrialId(a) == TrialId(b)
    ensures a == b
  {
    assert TrialId(a)[6..] == NatToString(a);
    assert TrialId(b)[6..] == NatToString(b);
    NatToStringInjective(a, b);
  }

  /** No two configured trials share an id, so a click changes exactly one trial. */
  lemma ConfigureIdsDistinct(n: nat, now: int)
    ensures forall i, j :: 0 <= i < j < n ==> Configure(n, now)[i].id != Configure(n, now)[j].id
  {
    var ts := Configure(n, now);
    forall i, j | 0 <= i < j < n
      ensures ts[i].id != ts[j].id
    {
      if ts[i].id == ts[j].id {
        TrialIdInjective(i + 1, j + 1);
      }
    }
  }

  // ----- the response cycle -----

  const ResponseOrder: seq<TrialResponse> := [NoResponse, Independent, Prompted, Error]

  function OrderIndex(r: TrialResponse): (k: nat)
    ensures k < 4 && ResponseOrder[k] == r
  {
    match r
    case NoResponse => 0
    case Independent => 1
    case Prompted => 2
    case Error => 3
  }

  /** The response a click moves to: the next one in the order NR, I, A, E, wrapping around. */
  function NextResponse(r: TrialResponse): (n: TrialResponse)
    ensures n != r
    ensures OrderIndex(n) == (OrderIndex(r) + 1) % 4
  {
    ResponseOrder[(OrderIndex(r) + 1) % 4]
  }

  /** The response a click came from: the cycle is a bijection. */
  function PrevResponse(r: TrialResponse): (p: TrialResponse)
    ensures NextResponse(p) == r
  {
    ResponseOrder[(OrderIndex(r) + 3) % 4]
  }

  /** Four clicks bring a trial back to its response. */
  lemma CycleHasPeriodFour(r: TrialResponse)
    ensures NextResponse(NextResponse(NextResponse(NextResponse(r)))) == r
    ensures NextResponse(r) != r && NextResponse(NextResponse(r)) != r
    ensures NextResponse(NextResponse(NextResponse(r))) != r
  {
  }

  /** Only a prompted trial carries a prompt level. */
  predicate PromptInvariant(ts: seq<Trial>) {
    forall i :: 0 <= i < |ts| && ts[i].promptLevel.Some? ==> ts[i].response == Prompted
  }

  function Cycled(t: Trial, now: int): Trial {
    var next := NextResponse(t.response);
    t.(response := next, timestamp := now, promptLevel := if next == Prompted then t.promptLevel else None)
  }

  /** A click on trial `id`: advances its response and clears the prompt level unless it became prompted. */
  function CycleResponse(ts: seq<Trial>, id: string, now: int): (r: seq<Trial>)
    ensures |r| == |ts|
    ensures forall i :: 0 <= i < |ts| && ts[i].id != id ==> r[i] == ts[i]
    ensures forall i :: 0 <= i < |ts| && ts[i].id == id ==>
      r[i].response == NextResponse(ts[i].response) && r[i].id == id && r[i].number == ts[i].number
      && (r[i].promptLevel.Some? ==> r[i].response == Prompted && r[i].promptLevel == ts[i].promptLevel)
    ensures PromptInvariant(ts) ==> PromptInvariant(r)
  {
    MapWhere(ts, (t: Trial) => t.id == id, (t: Trial) => Cycled(t, now))
  }

  /** Choosing a prompt level for trial `id` from its menu. */
  function SetPromptLevel(ts: seq<Trial>, id: string, level: PromptLevel, now: int): (r: seq<Trial>)
    ensures |r| == |ts|
    ensures forall i :: 0 <= i < |ts| && ts[i].id != id ==> r[i] == ts[i]
    ensures forall i :: 0 <= i < |ts| && ts[i].id == id ==>
      r[i].promptLevel == Some(level) && r[i].response == ts[i].response && r[i].number == ts[i].number
  {
    MapWhere(ts, (t: Trial) => t.id == id, (t: Trial) => t.(promptLevel := Some(level), timestamp := now))
  }

  /** The menu is enabled only on a prompted trial, so choosing a level keeps the invariant. */
  lemma SetPromptLevelKeepsInvariant(ts: seq<Trial>, id: string, level: PromptLevel, now: int)
    requires PromptInvariant(ts)
    requires forall i :: 0 <= i < |ts| && ts[i].id == id ==> ts[i].response == Prompted
    ensures PromptInvariant(SetPromptLevel(ts, id, level, now))
  {
  }

  /** "Finalizar y Guardar" is enabled when no prompted trial lacks its prompt level. */
  predicate CanSave(ts: seq<Trial>) {
    forall i :: 0 <= i < |ts| && ts[i].response == Prompted ==> ts[i].promptLevel.Some?
  }

  /** A savable session built by these operations has a prompt level exactly on its prompted trials. */
  lemma SavedSessionIsConsistent(ts: seq<Trial>)
    requires PromptInvariant(ts) && CanSave(ts)
    ensures forall i :: 0 <= i < |ts| ==> (ts[i].promptLevel.Some? <==> ts[i].response == Prompted)
  {
  }

  // ----- statistics -----

  datatype Stats = Stats(independent: nat, prompted: nat, error: nat, noResponse: nat, percentageCorrect: int)

  function Count(ts: seq<Trial>, r: TrialResponse): nat {
    |Filter(ts, (t: Trial) => t.response == r)|
  }

  lemma {:induction false} CountsSum(ts: seq<Trial>)
    ensures Count(ts, Independent) + Count(ts, Prompted) + Count(ts, Error) + Count(ts, NoResponse) == |ts|
  {
    if |ts| > 0 {
      CountsSum(ts[1..]);
    }
  }

  /** The session summary: counts per response and the rounded percentage of independent trials. */
  function CalculateStats(ts: seq<Trial>): (s: Stats)
    ensures s.independent + s.prompted + s.error + s.noResponse == |ts|
    ensures s.independent == Count(ts, Independent) && s.prompted == Count(ts, Prompted)
    ensures s.error == Count(ts, Error) && s.noResponse == Count(ts, NoResponse)
    ensures 0 <= s.percentageCorrect <= 100
    ensures |ts| == 0 ==> s.percentageCorrect == 0
    ensures |ts| > 0 ==> 2 * |ts| * s.percentageCorrect - |ts| <= 200 * s.independent < 2 * |ts| * s.percentageCorrect + |ts|
    ensures |ts| > 0 && s.independent == |ts| ==> s.percentageCorrect == 100
  {
    CountsSum(ts);
    var indep := Count(ts, Independent);
    var pct := if |ts| > 0 then RoundDiv(100 * indep, |ts|) else 0;
    if |ts| > 0 then
      RoundedPercentInRange(indep, |ts|);
      Stats(indep, Count(ts, Prompted), Count(ts, Error), Count(ts, NoResponse), pct)
    else
      Stats(indep, Count(ts, Prompted), Count(ts, Error), Count(ts, NoResponse), pct)
  }
}
