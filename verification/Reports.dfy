// The report as the rule engine sees it, the findings rules produce, and the
// configuration they read.
//
// Instants are whole nanoseconds since 1970-01-01T00:00Z; field numbers and
// tolerances are reals.
module Reports {
  import opened Prelude

  type Instant = int

  /** Seconds since the epoch, rounded down as `time.Time.Unix` does. */
  function Unix(t: Instant): int {
    t / 1_000_000_000
  }

  function HoursBetween(earlier: Instant, later: Instant): real {
    (later - earlier) as real / 3_600_000_000_000.0
  }

  /** A decoded JSON field value. */
  datatype Value = Nil | Num(n: real) | Text(s: string) | Flag(b: bool)

  datatype Report = Report(
    reportId: string,
    versionNo: int,
    schemaName: string,
    eventType: string,
    eventTime: Instant,
    fields: map<string, Value>)
  {
    /** The field as a number, if it is present and numeric. */
    function Float(name: string): Option<real> {
      if name in fields && fields[name].Num? then Some(fields[name].n) else None
    }

    function FloatOrZero(name: string): real {
      if name in fields && fields[name].Num? then fields[name].n else 0.0
    }

    predicate IsEmpty(name: string) {
      name !in fields || fields[name].Nil? || fields[name] == Text("")
    }
  }

  ghost predicate DistinctIds(chain: seq<Report>) {
    forall i, j :: 0 <= i < j < |chain| ==> chain[i].reportId != chain[j].reportId
  }

  function Ids(chain: seq<Report>): (ids: seq<string>)
    ensures |ids| == |chain|
    ensures forall i :: 0 <= i < |chain| ==> ids[i] == chain[i].reportId
  {
    seq(|chain|, i requires 0 <= i < |chain| => chain[i].reportId)
  }

  // ---- Findings ----

  datatype Severity = Error | Warning | Info

  datatype RuleId =
    | TimeChain
    | ROBContinuity
    | EventOrdering
    | TimestampUniqueness
    | TimeBucketSum
    | ImpliedSpeed
    | NoDistanceStationary
    | PositionRequired
    | PositionConsistency
    | ConsumptionSchemeExclusive
    | FieldRequired
    | FieldType
    | FieldMaxLength
    | FieldFormat
    | OtherRule(name: string)

  datatype Finding = Finding(rule: RuleId, severity: Severity, field: string)

  predicate HasErrors(findings: seq<Finding>) {
    exists i :: 0 <= i < |findings| && findings[i].severity == Error
  }

  /** Some error-severity finding in the list carries this rule. */
  ghost predicate ErrorOf(findings: seq<Finding>, rule: RuleId) {
    exists f :: f in findings && f.rule == rule && f.severity == Error
  }

  // ---- Configuration ----

  datatype ROBSeries = ROBSeries(name: string, robField: string, consumptionFields: seq<string>)

  /** Event types that must alternate between two stages along a chain. */
  datatype AlternatingGroup = AlternatingGroup(name: string, stage0: seq<string>, stage1: seq<string>)

  datatype Config = Config(
    timeChainToleranceHours: real,
    robToleranceMt: real,
    robSeries: seq<ROBSeries>,
    bunkeredAmounts: map<string, real>,
    eventGroups: seq<AlternatingGroup>,
    severities: map<RuleId, Severity>)
  {
    /** The configured severity of a rule, or the rule's own default. */
    function SeverityOf(rule: RuleId, default: Severity): Severity {
      if rule in severities then severities[rule] else default
    }

    function Bunkered(series: string): real {
      if series in bunkeredAmounts then bunkeredAmounts[series] else 0.0
    }
  }

  const DEFAULT_EVENT_GROUPS: seq<AlternatingGroup> := [
    AlternatingGroup("arrivalDeparture", ["Arrival", "ArrivalSTS"], ["Departure", "DepartureSTS"]),
    AlternatingGroup("seaPassage",
                     ["BOSP", "BeginOfSeaPassage", "FAOP", "FullAheadOnPassage"], ["EOSP", "EndOfSeaPassage"]),
    AlternatingGroup("shifting", ["BeginOfShifting"], ["EndOfShifting"]),
    AlternatingGroup("canalPassage", ["Begin canal passage"], ["End canal passage"]),
    AlternatingGroup("anchoringDrifting", ["Begin Anchoring/Drifting"], ["End Anchoring/Drifting"]),
    AlternatingGroup("fuelChangeOver", ["Begin fuel change over"], ["End fuel change over"]),
    AlternatingGroup("deviation", ["Begin of deviation"], ["End of deviation"]),
    AlternatingGroup("specialArea", ["Entering special area"], ["Leaving special area"]),
    AlternatingGroup("offhire", ["Beginofoffhire"], ["Endofoffhire"])
  ]

  function DefaultConfig(): Config {
    Config(0.1, 0.5, [], map[], DEFAULT_EVENT_GROUPS, map[])
  }

  /** A missing configuration means the default one. */
  function OrDefault(cfg: Option<Config>): Config {
    match cfg
    case Some(c) => c
    case None => DefaultConfig()
  }
}
