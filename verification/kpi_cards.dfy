/**
 * The trend card's colour and icon: a rise is good news for percentages and rates and bad news
 * for the other metrics (frequency, duration), so the colour depends on both.
 */
module KPICards {
  import opened Analytics

  datatype Metric = Percentage | Frequency | Duration | Rate

  datatype Icon = TrendingUp | TrendingDown | Flat

  predicate IsPositiveGood(m: Metric) {
    m == Percentage || m == Rate
  }

  /** The trend colour: gray when stable, green when the movement is the desirable one, red otherwise. */
  function TrendColor(t: Trend, m: Metric): (c: string)
    ensures c == "gray" <==> t == Stable
    ensures c == "green" <==> (t == Up && IsPositiveGood(m)) || (t == Down && !IsPositiveGood(m))
    ensures c == "red" <==> (t == Up && !IsPositiveGood(m)) || (t == Down && IsPositiveGood(m))
  {
    match t
    case Stable => "gray"
    case Up => if IsPositiveGood(m) then "green" else "red"
    case Down => if IsPositiveGood(m) then "red" else "green"
  }

  /** Rising and falling always get opposite colours for the same metric. */
  lemma OppositeMovesOppositeColors(m: Metric)
    ensures TrendColor(Up, m) != TrendColor(Down, m)
    ensures {TrendColor(Up, m), TrendColor(Down, m)} == {"green", "red"}
  {
  }

  function TrendIcon(t: Trend): (i: Icon)
    ensures (i == TrendingUp <==> t == Up) && (i == TrendingDown <==> t == Down) && (i == Flat <==> t == Stable)
  {
    match t
    case Up => TrendingUp
    case Down => TrendingDown
    case Stable => Flat
  }
}
