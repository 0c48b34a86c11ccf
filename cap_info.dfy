/**
 * The CAP `info` element of a feature: fixed category, event, urgency, certainty, sender name,
 * headline and web link, a severity chosen by the flooded-state code, a description and the area.
 */
module CapInfo {
  import opened Results
  import opened CapTypes
  import opened CapArea

  /** The severity of a flooded-state code; codes 1 to 4 only, with no default. */
  function SeverityOf(state: int): Option<Severity> {
    if state == 1 then Some(Unknown)
    else if state == 2 then Some(Minor)
    else if state == 3 then Some(Moderate)
    else if state == 4 then Some(Severe)
    else None
  }

  /** "AT <time> THE JAKARTA EMERGENCY MANAGEMENT AGENCY OBSERVED <level> IN <parent>, <level name>." */
  function Description(f: Feature, severity: Severity, m: Moment): string {
    "AT " + m.hourMinute(f.lastUpdated) + " THE JAKARTA EMERGENCY MANAGEMENT AGENCY OBSERVED "
      + severity.LevelDescription() + " IN " + (f.parentName + ", " + f.levelName) + "."
  }

  /** The `info` element of a feature, or why there is none: the state is looked at before the geometry. */
  function InfoOf(f: Feature, m: Moment): Result<Info, CapError> {
    match SeverityOf(f.state)
    case None => Err(UnmappedState(f.state))
    case Some(severity) =>
      match AreaOf(f)
      case Err(e) => Err(e)
      case Ok(area) =>
        Ok(Info("Met", "FLOODING", "Immediate", severity, "Observed",
                "JAKARTA EMERGENCY MANAGEMENT AGENCY", "FLOOD WARNING",
                Description(f, severity, m), "http://petajakarta.org/banjir/id/map", area))
  }

  /** Builds the `info` element field by field, as the transformer does, returning early on failure. */
  method CreateInfo(f: Feature, m: Moment) returns (r: Result<Info, CapError>)
    ensures r == InfoOf(f, m)
  {
    var category, event, urgency := "Met", "FLOODING", "Immediate";
    var severity: Severity;
    if f.state == 1 {
      severity := Unknown;
    } else if f.state == 2 {
      severity := Minor;
    } else if f.state == 3 {
      severity := Moderate;
    } else if f.state == 4 {
      severity := Severe;
    } else {
      return Err(UnmappedState(f.state));
    }
    assert SeverityOf(f.state) == Some(severity);
    var levelDescription := severity.LevelDescription();
    var certainty, senderName, headline := "Observed", "JAKARTA EMERGENCY MANAGEMENT AGENCY", "FLOOD WARNING";
    var descriptionTime := m.hourMinute(f.lastUpdated);
    var descriptionArea := f.parentName + ", " + f.levelName;
    var description := "AT " + descriptionTime + " THE JAKARTA EMERGENCY MANAGEMENT AGENCY OBSERVED "
      + levelDescription + " IN " + descriptionArea + ".";
    var web := "http://petajakarta.org/banjir/id/map";
    var area := CreateArea(f);
    if area.Err? {
      return Err(area.error);
    }
    assert description == Description(f, severity, m);
    return Ok(Info(category, event, urgency, severity, certainty, senderName, headline,
                   description, web, area.value));
  }

  // ----- Lemmas -----

  /** The mapping is exactly the inverse of `Severity.State`: defined on 1..4 and nowhere else. */
  lemma SeverityOfInverse(state: int)
    ensures SeverityOf(state).Some? <==> 1 <= state <= 4
    ensures SeverityOf(state).Some? ==> SeverityOf(state).value.State() == state
  {
  }

  lemma SeverityOfState(s: Severity)
    ensures SeverityOf(s.State()) == Some(s)
  {
  }

  /** The four rows of the severity table. */
  lemma SeverityTable()
    ensures SeverityOf(1).value.Name() == "Unknown"
    ensures SeverityOf(1).value.LevelDescription() == "AN UNKNOWN LEVEL OF FLOODING - USE CAUTION -"
    ensures SeverityOf(2).value.Name() == "Minor"
    ensures SeverityOf(2).value.LevelDescription() == "FLOODING OF BETWEEN 10 and 70 CENTIMETERS"
    ensures SeverityOf(3).value.Name() == "Moderate"
    ensures SeverityOf(3).value.LevelDescription() == "FLOODING OF BETWEEN 71 and 150 CENTIMETERS"
    ensures SeverityOf(4).value.Name() == "Severe"
    ensures SeverityOf(4).value.LevelDescription() == "FLOODING OF OVER 150 CENTIMETERS"
  {
  }

  /** An `info` exists exactly when the state is 1..4 and the area can be built; a bad state is
      reported before any geometry problem; a built `info` carries the fixed fields, the severity
      of its state, the area of its feature and a description naming parent and level. */
  lemma InfoOfOutcome(f: Feature, m: Moment)
    ensures InfoOf(f, m).Ok? <==> 1 <= f.state <= 4 && AreaOf(f).Ok?
    ensures !(1 <= f.state <= 4) ==> InfoOf(f, m) == Err(UnmappedState(f.state))
    ensures 1 <= f.state <= 4 && AreaOf(f).Err? ==> InfoOf(f, m) == Err(AreaOf(f).error)
    ensures InfoOf(f, m).Ok? ==>
      var info := InfoOf(f, m).value;
      && info.severity.State() == f.state
      && info.category == "Met" && info.event == "FLOODING" && info.urgency == "Immediate"
      && info.certainty == "Observed" && info.headline == "FLOOD WARNING"
      && info.senderName == "JAKARTA EMERGENCY MANAGEMENT AGENCY"
      && info.web == "http://petajakarta.org/banjir/id/map"
      && info.area == AreaOf(f).value
      && info.area.areaDesc == f.levelName + ", " + f.parentName
      && info.description == Description(f, info.severity, m)
  {
    SeverityOfInverse(f.state);
    AreaOfOutcome(f);
  }
}
