/**
 * The stand-alone percentage card: a fixed number of trials, each set to one of four answers
 * (or back to unanswered); finishing is refused with a notice while trials are missing, and
 * otherwise reports the unrounded percentage of independent answers to the optional callback.
 */
module RegistroPorcentaje {
  import opened Wrappers
  import opened Seqs
  import opened Arith

  datatype Choice = Independiente | Ayuda | ErrorChoice | NoResponde

  /** The outcome notice of "Finalizar Registro". */
  datatype Notice = Incomplete(completed: nat, total: nat) | Finished(percentage: real)

  /** `new Array(n).fill(null)`: `n` unanswered trials; also what "Reiniciar" restores. */
  function Init(n: nat): (es: seq<Option<Choice>>)
    ensures |es| == n && Completed(es) == 0
  {
    var es := seq(n, i => None);
    NoneCompleted(es);
    es
  }

  lemma {:induction false} NoneCompleted(es: seq<Option<Choice>>)
    requires forall i :: 0 <= i < |es| ==> es[i].None?
    ensures Completed(es) == 0
  {
    if |es| > 0 {
      NoneCompleted(es[1..]);
    }
  }

  /** Choosing an answer (or clearing it) for trial `index`. */
  function Select(es: seq<Option<Choice>>, index: nat, choice: Option<Choice>): (r: seq<Option<Choice>>)
    requires index < |es|
    ensures |r| == |es| && r[index] == choice
    ensures forall i :: 0 <= i < |es| && i != index ==> r[i] == es[i]
  {
    es[index := choice]
  }

  predicate IsAnswered(e: Option<Choice>) {
    e.Some?
  }

  predicate IsIndependent(e: Option<Choice>) {
    e == Some(Independiente)
  }

  function Completed(es: seq<Option<Choice>>): nat {
    |Filter(es, IsAnswered)|
  }

  function IndependentCount(es: seq<Option<Choice>>): nat {
    |Filter(es, IsIndependent)|
  }

  lemma {:induction false} IndependentWithinCompleted(es: seq<Option<Choice>>)
    ensures IndependentCount(es) <= Completed(es) <= |es|
  {
    if |es| > 0 {
      IndependentWithinCompleted(es[1..]);
    }
  }

  lemma {:induction false} AllIndependentCount(es: seq<Option<Choice>>)
    requires forall i :: 0 <= i < |es| ==> es[i] == Some(Independiente)
    ensures IndependentCount(es) == |es|
  {
    if |es| > 0 {
      AllIndependentCount(es[1..]);
    }
  }

  lemma {:induction false} FullIndependentCount(es: seq<Option<Choice>>)
    requires IndependentCount(es) == |es|
    ensures forall i :: 0 <= i < |es| ==> es[i] == Some(Independiente)
  {
    if |es| > 0 {
      IndependentWithinCompleted(es[1..]);
      FullIndependentCount(es[1..]);
    }
  }

  /** The percentage of independent answers out of `n` trials, refused (`None`) while some are unanswered. */
  function Percentage(es: seq<Option<Choice>>, n: nat): (p: Option<real>)
    requires n > 0
    ensures p.None? <==> Completed(es) < n
    ensures p.Some? ==> p.value * n as real == 100.0 * IndependentCount(es) as real
  {
    RatioPercent(IndependentCount(es), n);
    if Completed(es) < n then None
    else Some(IndependentCount(es) as real / n as real * 100.0)
  }

  /** On a full card of `n` trials the percentage lies in [0, 100] and is 100 exactly when every answer is independent. */
  lemma PercentageOfFullCard(es: seq<Option<Choice>>, n: nat)
    requires n > 0 && |es| == n && Completed(es) == n
    ensures Percentage(es, n).Some?
    ensures 0.0 <= Percentage(es, n).value <= 100.0
    ensures Percentage(es, n).value == 100.0 <==> forall i :: 0 <= i < n ==> es[i] == Some(Independiente)
  {
    var k := IndependentCount(es);
    IndependentWithinCompleted(es);
    RatioPercent(k, n);
    if Percentage(es, n).value == 100.0 {
      FullIndependentCount(es);
    }
    if forall i :: 0 <= i < n ==> es[i] == Some(Independiente) {
      AllIndependentCount(es);
    }
  }

  /** "Finalizar Registro": the notice shown and the value handed to the callback, if one is given. */
  function Finalize(es: seq<Option<Choice>>, n: nat, hasCallback: bool): (r: (Notice, Option<real>))
    requires n > 0
    ensures r.0.Incomplete? <==> Completed(es) < n
    ensures r.0.Incomplete? ==> r.0 == Incomplete(Completed(es), n)
    ensures r.0.Finished? ==> Percentage(es, n) == Some(r.0.percentage)
    ensures r.1.Some? <==> r.0.Finished? && hasCallback
    ensures r.1.Some? ==> r.1.value == r.0.percentage
  {
    match Percentage(es, n)
    case None => (Incomplete(Completed(es), n), None)
    case Some(p) => (Finished(p), if hasCallback then Some(p) else None)
  }

  /** The progress bar: the share of answered trials, in percent. */
  function Progress(es: seq<Option<Choice>>, n: nat): (p: real)
    requires n > 0
    ensures p * n as real == 100.0 * Completed(es) as real
    ensures |es| == n ==> 0.0 <= p <= 100.0
  {
    IndependentWithinCompleted(es);
    RatioPercent(Completed(es), n);
    Completed(es) as real / n as real * 100.0
  }

  function ChoiceColor(e: Option<Choice>): (c: string)
    ensures c == "gray" <==> e.None? || e == Some(NoResponde)
    ensures e == Some(Independiente) <==> c == "green"
  {
    match e
    case Some(Independiente) => "green"
    case Some(Ayuda) => "yellow"
    case Some(ErrorChoice) => "red"
    case Some(NoResponde) => "gray"
    case None => "gray"
  }
}
