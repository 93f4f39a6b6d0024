/** The operation names the engine recognises and the codes they map to. */
module OpCodes {

  /** One code per statistic, plus the code for an unrecognised name. */
  datatype OpType =
    | Sum | Mean | Stddev | SampleStddev | Median | Mode | AntiMode
    | Min | Max | AbsMin | AbsMax | Count | Distinct | CountDistinct
    | DistinctOnly | Collapse | Concat | FreqAsc | FreqDesc | First | Last
    | Invalid

  /** The name each statistic is requested by. */
  function OpName(op: OpType): string
    requires op != Invalid
  {
    match op
    case Sum => "sum"
    case Mean => "mean"
    case Stddev => "stddev"
    case SampleStddev => "sample_stddev"
    case Median => "median"
    case Mode => "mode"
    case AntiMode => "antimode"
    case Min => "min"
    case Max => "max"
    case AbsMin => "absmin"
    case AbsMax => "absmax"
    case Count => "count"
    case Distinct => "distinct"
    case CountDistinct => "count_distinct"
    case DistinctOnly => "distinct_only"
    case Collapse => "collapse"
    case Concat => "concat"
    case FreqAsc => "freq_asc"
    case FreqDesc => "freq_desc"
    case First => "first"
    case Last => "last"
  }

  /** A name table that registers every statistic, each name mapping to the
      statistic of that name. */
  ghost predicate IsOpTable(t: map<string, OpType>) {
    && (forall op :: op != Invalid ==> OpName(op) in t)
    && NamesMatch(t)
  }

  /** Every name in the table maps to the statistic of that name. */
  ghost predicate NamesMatch(t: map<string, OpType>) {
    forall name :: name in t ==> t[name] != Invalid && OpName(t[name]) == name
  }

  /** Registering a statistic under its own name keeps the names matching. */
  lemma Register(t: map<string, OpType>, name: string, op: OpType)
    requires NamesMatch(t) && op != Invalid && OpName(op) == name
    ensures NamesMatch(t[name := op])
  {
  }

  /** Adds every statistic to `t` under its name, one entry at a time, each
      entry checked against NamesMatch as it is added. */
  method RegisterAll(t0: map<string, OpType>) returns (t: map<string, OpType>)
    requires t0 == map[]
    ensures IsOpTable(t)
  {
    t := t0;
    Register(t, "sum", Sum); t := t["sum" := Sum];
    Register(t, "mean", Mean); t := t["mean" := Mean];
    Register(t, "stddev", Stddev); t := t["stddev" := Stddev];
    Register(t, "sample_stddev", SampleStddev); t := t["sample_stddev" := SampleStddev];
    Register(t, "median", Median); t := t["median" := Median];
    Register(t, "mode", Mode); t := t["mode" := Mode];
    Register(t, "antimode", AntiMode); t := t["antimode" := AntiMode];
    Register(t, "min", Min); t := t["min" := Min];
    Register(t, "max", Max); t := t["max" := Max];
    Register(t, "absmin", AbsMin); t := t["absmin" := AbsMin];
    Register(t, "absmax", AbsMax); t := t["absmax" := AbsMax];
    Register(t, "count", Count); t := t["count" := Count];
    Register(t, "distinct", Distinct); t := t["distinct" := Distinct];
    Register(t, "count_distinct", CountDistinct); t := t["count_distinct" := CountDistinct];
    Register(t, "distinct_only", DistinctOnly); t := t["distinct_only" := DistinctOnly];
    Register(t, "collapse", Collapse); t := t["collapse" := Collapse];
    Register(t, "concat", Concat); t := t["concat" := Concat];
    Register(t, "freq_asc", FreqAsc); t := t["freq_asc" := FreqAsc];
    Register(t, "freq_desc", FreqDesc); t := t["freq_desc" := FreqDesc];
    Register(t, "first", First); t := t["first" := First];
    Register(t, "last", Last); t := t["last" := Last];
  }
}
