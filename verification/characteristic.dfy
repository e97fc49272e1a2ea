/** The technical-drawing characteristic record (`TeknikResimKarakteri`) and
    its small tolerance state machine: the compliance check that may set the
    out-of-tolerance flag, the operator's toggle, and the status text. */
module Characteristic {
  import opened Options
  import opened Text

  /** The part of a parser result the record copies: the notation family
      label (`format`) and the nominal, upper and lower values. The parser
      itself is a function parameter of the ingestion code. */
  datatype ParsedResult = ParsedResult(
    format: Option<string>,
    nominal: Option<real>,
    upperLimit: Option<real>,
    lowerLimit: Option<real>)

  datatype Characteristic = Characteristic(
    itemNo: string,
    dimension: string,
    tooling: string,
    remarks: string,
    bpZone: string,
    inspectionLevel: string,
    actual: Option<string>,
    badge: string,
    parsedDimension: Option<ParsedResult>,
    toleranceType: Option<string>,
    nominalValue: Option<real>,
    upperLimit: Option<real>,
    lowerLimit: Option<real>,
    outOfTolerance: bool)

  /** A record with the declared defaults for every field not given. */
  function NewCharacteristic(itemNo: string, dimension: string, tooling: string): (c: Characteristic)
    ensures c.itemNo == itemNo && c.dimension == dimension && c.tooling == tooling
    ensures c.remarks == "" && c.bpZone == "" && c.badge == ""
    ensures c.inspectionLevel == "100%" && c.actual.None?
    ensures c.parsedDimension.None? && c.toleranceType.None? && c.nominalValue.None?
    ensures c.lowerLimit.None? && c.upperLimit.None?
    ensures !c.outOfTolerance
  {
    Characteristic(itemNo, dimension, tooling, "", "", "100%", None, "",
                   None, None, None, None, None, false)
  }

  /** What the status message of a compliance check reports; the bound
      variants carry the limits the message prints. */
  datatype CheckStatus =
    | NoLimitDefined
    | BetweenLimits(lower: real, upper: real)
    | AtMost(upper: real)
    | AtLeast(lower: real)
    | NonNumeric
    | NotCheckable

  datatype CheckResult = CheckResult(compliant: bool, status: CheckStatus, after: Characteristic)

  predicate HasLimit(c: Characteristic) {
    c.lowerLimit.Some? || c.upperLimit.Some?
  }

  /** Independent reading of the limits: a value is acceptable when it is not
      below a lower limit that exists and not above an upper limit that
      exists. */
  predicate WithinLimits(c: Characteristic, v: real) {
    && (c.lowerLimit.None? || c.lowerLimit.value <= v)
    && (c.upperLimit.None? || v <= c.upperLimit.value)
  }

  /** A measured value violates the record's tolerance. */
  predicate Violates(c: Characteristic, value: Option<real>) {
    value.Some? && HasLimit(c) && !WithinLimits(c, value.value)
  }

  /** `check_tolerance_compliance` once the measured text has been parsed:
      `value` is the number, or None when the text is not numeric. */
  function CheckCompliance(c: Characteristic, value: Option<real>): (r: CheckResult)
    // only the flag may change, and it is never cleared
    ensures r.after == c.(outOfTolerance := r.after.outOfTolerance)
    ensures r.after.outOfTolerance == (c.outOfTolerance || Violates(c, value))
    // the three bound rules; the verdict ignores the prior flag
    ensures value.Some? && c.lowerLimit.Some? && c.upperLimit.Some? ==>
      r.compliant == (c.lowerLimit.value <= value.value <= c.upperLimit.value)
      && r.status == BetweenLimits(c.lowerLimit.value, c.upperLimit.value)
    ensures value.Some? && c.lowerLimit.None? && c.upperLimit.Some? ==>
      r.compliant == (value.value <= c.upperLimit.value) && r.status == AtMost(c.upperLimit.value)
    ensures value.Some? && c.lowerLimit.Some? && c.upperLimit.None? ==>
      r.compliant == (value.value >= c.lowerLimit.value) && r.status == AtLeast(c.lowerLimit.value)
    // the two branches that keep the operator's marking
    ensures value.Some? && !HasLimit(c) ==> r.compliant == !c.outOfTolerance && r.status == NoLimitDefined
    ensures value.None? ==> r.compliant == !c.outOfTolerance && r.status == NonNumeric
    // the final fallback is never reached
    ensures r.status != NotCheckable
  {
    match value
    case None => CheckResult(!c.outOfTolerance, NonNumeric, c)
    case Some(v) =>
      if c.lowerLimit.None? && c.upperLimit.None? then
        CheckResult(!c.outOfTolerance, NoLimitDefined, c)
      else if c.lowerLimit.Some? && c.upperLimit.Some? then
        var ok := c.lowerLimit.value <= v <= c.upperLimit.value;
        CheckResult(ok, BetweenLimits(c.lowerLimit.value, c.upperLimit.value), Mark(c, ok))
      else if c.upperLimit.Some? then
        var ok := v <= c.upperLimit.value;
        CheckResult(ok, AtMost(c.upperLimit.value), Mark(c, ok))
      else
        var ok := v >= c.lowerLimit.value;
        CheckResult(ok, AtLeast(c.lowerLimit.value), Mark(c, ok))
  }

  /** Sets the flag when the value was not compliant; never clears it. */
  function Mark(c: Characteristic, compliant: bool): Characteristic {
    if compliant then c else c.(outOfTolerance := true)
  }

  /** `check_tolerance_compliance(actual_value)` on the raw text: commas are
      turned into dots and the result is handed to the number parser, which
      is Python's `float` and a parameter here (None for a ValueError). */
  function CheckComplianceText(c: Characteristic, actualValue: string,
                               parseFloat: string -> Option<real>): (r: CheckResult)
    // only the flag may change; it is set exactly when it was set before or
    // the parsed number violates an existing limit
    ensures r.after == c.(outOfTolerance := r.after.outOfTolerance)
    ensures r.after.outOfTolerance == (c.outOfTolerance || Violates(c, parseFloat(ReplaceCommas(actualValue))))
    // a number and at least one limit: the verdict is the interval test
    ensures parseFloat(ReplaceCommas(actualValue)).Some? && HasLimit(c) ==>
      (r.compliant <==> WithinLimits(c, parseFloat(ReplaceCommas(actualValue)).value))
    // a number but no limit: the operator's marking decides
    ensures parseFloat(ReplaceCommas(actualValue)).Some? && !HasLimit(c) ==>
      r.compliant == !c.outOfTolerance && r.status == NoLimitDefined && r.after == c
    // text that is not a number
    ensures parseFloat(ReplaceCommas(actualValue)).None? ==>
      r.compliant == !c.outOfTolerance && r.status == NonNumeric && r.after == c
  {
    CheckCompliance(c, parseFloat(ReplaceCommas(actualValue)))
  }

  /** The three-way bound rule agrees with the uniform reading of the
      limits whenever at least one limit exists. */
  lemma BoundRuleIsInterval(c: Characteristic, v: real)
    requires HasLimit(c)
    ensures CheckCompliance(c, Some(v)).compliant <==> WithinLimits(c, v)
  {
  }

  /** When there is nothing to check against, or nothing to check, the
      verdict is exactly the negation of the operator's marking. */
  lemma UncheckableKeepsMarking(c: Characteristic, value: Option<real>)
    requires value.None? || !HasLimit(c)
    ensures CheckCompliance(c, value).after == c
    ensures CheckCompliance(c, value).compliant == !c.outOfTolerance
  {
  }

  /** Re-checking the same value changes nothing further. */
  lemma CheckIdempotent(c: Characteristic, value: Option<real>)
    ensures CheckCompliance(CheckCompliance(c, value).after, value) == CheckCompliance(c, value)
  {
  }

  /** `toggle_out_of_tolerance`: negates the flag and nothing else. */
  function Toggle(c: Characteristic): (r: Characteristic)
    ensures r.outOfTolerance == !c.outOfTolerance
    ensures r.(outOfTolerance := c.outOfTolerance) == c
  {
    c.(outOfTolerance := !c.outOfTolerance)
  }

  lemma ToggleInvolution(c: Characteristic)
    ensures Toggle(Toggle(c)) == c
  {
  }

  /** An operator who clears the flag after a violation keeps it cleared
      through any later check whose value is compliant. */
  lemma ClearedFlagSurvivesCompliantCheck(c: Characteristic, v: real)
    requires c.outOfTolerance
    requires WithinLimits(c, v)
    ensures !CheckCompliance(Toggle(c), Some(v)).after.outOfTolerance
  {
  }

  /** Status text of `get_tolerance_status_text`. */
  datatype StatusText = OutOfTolerance | Toleranced(kind: string) | NoToleranceDefined

  /** Python truthiness of the `tolerance_type` field. */
  predicate HasToleranceType(c: Characteristic) {
    c.toleranceType.Some? && c.toleranceType.value != ""
  }

  function ToleranceStatusText(c: Characteristic): (r: StatusText)
    ensures r == OutOfTolerance <==> c.outOfTolerance
    ensures r.Toleranced? <==> !c.outOfTolerance && HasToleranceType(c)
    ensures r.Toleranced? ==> r.kind == c.toleranceType.value
    ensures r == NoToleranceDefined <==> !c.outOfTolerance && !HasToleranceType(c)
  {
    if c.outOfTolerance then OutOfTolerance
    else if HasToleranceType(c) then Toleranced(c.toleranceType.value)
    else NoToleranceDefined
  }

  /** The record after a series of compliance checks, one per measured
      value, each applied to the result of the previous one. */
  function CheckAll(c: Characteristic, values: seq<Option<real>>): (r: Characteristic)
    decreases |values|
  {
    if values == [] then c
    else CheckAll(CheckCompliance(c, values[0]).after, values[1..])
  }

  /** After any series of checks the flag is set exactly when it was set
      before or one of the values violated the (unchanging) limits; every
      other field is untouched. */
  lemma {:induction false} CheckAllFlag(c: Characteristic, values: seq<Option<real>>)
    ensures CheckAll(c, values) == c.(outOfTolerance := CheckAll(c, values).outOfTolerance)
    ensures CheckAll(c, values).outOfTolerance <==>
      c.outOfTolerance || exists i :: 0 <= i < |values| && Violates(c, values[i])
    decreases |values|
  {
    if values != [] {
      var c1 := CheckCompliance(c, values[0]).after;
      CheckAllFlag(c1, values[1..]);
      assert forall v :: Violates(c1, v) == Violates(c, v);
      if CheckAll(c, values).outOfTolerance && !c.outOfTolerance && !c1.outOfTolerance {
        var i :| 0 <= i < |values[1..]| && Violates(c1, values[1..][i]);
        assert Violates(c, values[i + 1]);
      }
      if exists i :: 0 <= i < |values| && Violates(c, values[i]) {
        var i :| 0 <= i < |values| && Violates(c, values[i]);
        if i > 0 {
          assert values[1..][i - 1] == values[i];
        }
      }
    }
  }

  /** Once flagged, a record reports "out of tolerance" whatever is checked
      afterwards. */
  lemma FlagIsSticky(c: Characteristic, values: seq<Option<real>>)
    requires c.outOfTolerance
    ensures ToleranceStatusText(CheckAll(c, values)) == OutOfTolerance
  {
    CheckAllFlag(c, values);
  }
}
