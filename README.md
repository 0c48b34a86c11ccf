# CAP transformer and parameter validators of the Peta Jakarta REM server

This project models two parts of the Peta Jakarta REM (Real-time Emergency Management) server.

The CAP transformer (`Cap.js`) turns GeoJSON features of flooded RW areas into CAP 1.2 alerts and
wraps them in an ATOM feed:

- `createInfo` maps the flooded-state code 1..4 to a CAP severity and a level description. It
  writes the description text and builds the `area` element.
- The `area` element gets the description "level_name, parent_name" and one polygon string per
  polygon. A polygon string holds every point of the polygon's single ring as "latitude,longitude ",
  so the GeoJSON coordinates come out swapped in pairs.
- `createAlert` wraps the info in an alert. The alert's identifier is the `encodeURI` of
  "parent_name,level_name,timestamp".
- `geoJsonToAtomCap` builds the feed: one entry per feature, each carrying its alert.

The validators (`Validation.js`) decide whether a request parameter is an acceptable number,
integer, boolean or string.

Modules:

- `Results`: `Option` and `Result`.
- `Uri`: ECMAScript `encodeURI` (UTF-8, then `%XX` for every character outside the unreserved and
  reserved sets), with an independent decoder as its partner.
- `CapTypes`: features, geometries, the CAP and ATOM element trees, and the failure reasons.
- `CapArea`, `CapInfo`, `CapAlert`, `CapFeed`: the transformer, step by step.
- `Validation`: the four validators over a model of JavaScript values.
- `CapScenarios`: the unit-test cases of the transformer, stated as lemmas.

How the model is built:

- A JavaScript `return;` that hands back `undefined` is an `Err` carrying the reason.
- A polygon with no ring at all makes `Cap.js:139` read `length` of `undefined`, which throws a
  TypeError. That failure is `MissingRing`; `CapError.Throws` marks it.
- The throw escapes `createAlert` and `geoJsonToAtomCap`. An `undefined` info does not: it only
  leaves the alert's `info` unset.
- The loops of the source are methods. `CapArea.CreateArea`, `CapInfo.CreateInfo`,
  `CapFeed.GeoJsonToAtomCap` and `CapFeed.GeoJsonToAtomCapSkipping` are each proved equal to a
  specification function. What the source promises is proved about those functions.

Where the code and its documentation differ, the model follows the code:

- `validateStringParameter` rejects "" unless `emptyAllowed` is truthy. It does not require
  exactly `true`.
- `encodeURI` keeps '&', ',', '/', ':' and '+' in the identifier as they are.

## Model

| member | source | states |
|---|---|---|
| CapArea.CreateArea | Cap.js:113-146 | The area built point by point is exactly `AreaOf`: "level_name, parent_name" and one string per polygon. It stops at the first polygon with interior rings or with no ring. |
| CapArea.PolygonTextsOk | Cap.js:131-146 | Polygon strings exist iff every polygon has exactly one ring. Then there is one string per polygon, in order, each the text of that polygon's ring. |
| CapArea.PolygonTextsErr | Cap.js:131-139 | A failure names a polygon index within range that has more than one ring or none. Every polygon before it has exactly one ring. |
| CapArea.PolygonTextsPrefixErr | Cap.js:131-135 | Once a prefix of the polygons fails, the whole list fails with the same reason (the early `return`). |
| CapArea.RingTextAppend | Cap.js:140-143 | The string of a ring is the concatenation of the strings of its parts, in point order. |
| CapArea.RingTextCons | Cap.js:140-143 | A two-coordinate point [a, b] contributes "b,a " ahead of the rest of the ring: coordinates swapped, order kept. |
| CapArea.AreaOfOutcome | Cap.js:113-146 | A geometry other than Polygon/MultiPolygon fails as unsupported. A Polygon succeeds iff it has exactly one ring, giving that ring's string. A MultiPolygon succeeds iff every polygon is simple, giving one string per polygon. The areaDesc is always "level_name, parent_name". |
| CapArea.AreaOfFailure | Cap.js:131-139 | A Polygon or MultiPolygon fails only at a polygon index within range, every earlier polygon having exactly one ring. The failure is an interior ring iff that polygon has more than one ring, and a missing ring iff it has none. |
| CapInfo.CreateInfo | Cap.js:74-149 | The info built field by field is exactly `InfoOf`. The state is checked before the geometry. |
| CapInfo.SeverityOfInverse | Cap.js:84-100 | A severity exists exactly for states 1..4, and maps back to its state. |
| CapInfo.SeverityOfState | Cap.js:84-100 | Every severity is reached from its own state code. |
| CapInfo.SeverityTable | Cap.js:84-97 | The severity names and level descriptions for states 1 to 4. |
| CapInfo.InfoOfOutcome | Cap.js:74-149 | Info exists iff the state is 1..4 and the area can be built. A bad state wins over a bad geometry. On success the fixed fields hold "Met", "FLOODING", "Immediate", "Observed", the agency name, "FLOOD WARNING" and the web link, with the description and area. |
| CapAlert.CreateAlert | Cap.js:157-176 | Fails only when building the info throws. Otherwise the alert holds status Actual, type Alert, scope Public, the timestamp and the URI-encoded identifier, with info unset when it could not be built. |
| CapAlert.CreateAlertOrNone | Cap.js:157-176 | The alert the tests expect: present iff the info was built. It then carries that info and equals the written alert. |
| CapAlert.AlertIdentifier | Cap.js:164-165 | The identifier holds only URI-safe characters and decodes back to "parent_name,level_name,timestamp". |
| CapAlert.IdentifierDistinguishes | Cap.js:164-165 | Features whose raw identifiers differ get different alert identifiers. |
| CapFeed.GeoJsonToAtomCap | Cap.js:33-66 | The feed built in the loop is exactly `WrittenFeed`: fixed metadata, `now`, and one entry per feature. |
| CapFeed.WrittenEntriesOk | Cap.js:49-63 | The entries exist iff no feature's alert throws. There is then one entry per feature, in order, each built from that feature and its alert. |
| CapFeed.WrittenEntriesErr | Cap.js:49-63 | A failed feed carries the error of some feature whose alert throws. |
| CapFeed.WrittenEntriesPrefixErr | Cap.js:49-51 | A throw in a prefix of the features ends the whole feed with that error. |
| CapFeed.GeoJsonToAtomCapSkipping | Cap.js:33-66 | The intended feed: an entry only for features whose alert has info, in feature order. |
| CapFeed.SuccessfulEntriesAppend | Cap.js:49-63 | The intended entries of a concatenation are the concatenation of the entries. |
| CapFeed.SuccessfulEntriesSkip | Cap.js:49-63 | A feature whose info fails adds no entry of its own. |
| CapFeed.SuccessfulEntriesAllOk | Cap.js:49-63 | When every feature has info, there is one entry per feature, in order, built from its alert. |
| CapFeed.SuccessfulEntriesHaveInfo | Cap.js:49-63 | Every intended entry's alert carries an info, and there are never more entries than features. |
| Uri.EncodeURI | Cap.js:165 | The encoded identifier consists only of unreserved and reserved characters and '%'. |
| Uri.DecodeEncodeURI | Cap.js:165 | Percent-decoding and UTF-8-decoding `encodeURI(s)` gives back `s`. |
| Uri.EncodeURIInjective | Cap.js:165 | Different strings encode differently. |
| Uri.EncodeURIAppend | Cap.js:55 | Encoding distributes over concatenation. |
| Uri.EncodeURIKeepsSafe | Cap.js:55 | A string of unreserved and reserved characters only is left unchanged. |
| Uri.EncodeURIEscapes | Cap.js:165 | A character outside the URI-safe set, such as '<', never appears in an encoded string. |
| Uri.Utf8RoundTrip | Cap.js:165 | UTF-8 decoding undoes UTF-8 encoding. |
| Validation.ValidateNumberParameter | Validation.js:18-25 | Only a number other than NaN can pass. With no bounds, every such number passes. Against finite or absent bounds, a finite number passes iff each nonzero bound holds. -Infinity passes iff no nonzero finite minimum is given, and +Infinity iff no nonzero finite maximum is given. |
| Validation.ValidateNumberBounded | Validation.js:18-25 | The intended number check. A passing value is a number other than NaN within every finite bound. With no bounds, every such number passes. Against finite or absent bounds, a finite number passes iff each bound given holds, 0 included. -Infinity passes iff no minimum is given, and +Infinity iff no maximum is given. |
| Validation.NumberNonFiniteBounds | Validation.js:22-23 | In both checks, a NaN bound, a minimum of -Infinity and a maximum of +Infinity exclude nothing. A minimum of +Infinity admits only +Infinity, and a maximum of -Infinity admits only -Infinity. |
| Validation.InfiniteStateScenario | CognicityServer.js:151 | With the bounds 0 and 4 used for a state, +Infinity is refused. -Infinity passes as written, because the minimum of 0 is ignored; the intended check refuses it. |
| Validation.BoundedAgreesAwayFromZero | Validation.js:22-23 | The written check and the intended one agree whenever neither bound is 0. |
| Validation.NumberZeroBoundUnchecked | Validation.js:22-23 | A bound of 0 behaves as no bound at all. |
| Validation.ZeroMinimumNotEnforced | Validation.js:22-23 | -5 passes a minimum of 0 as written; the intended check refuses it. |
| Validation.ValidateIntegerParameter | Validation.js:32-38 | Exactly the whole finite numbers below 10^21 in magnitude pass. NaN, infinities, fractions, larger numbers and non-numbers fail. |
| Validation.ValidateBooleanParameter | Validation.js:45-49 | Exactly `true` and `false` pass. |
| Validation.ValidateStringParameter | Validation.js:57-64 | Non-strings fail and non-empty strings pass. "" passes iff `emptyAllowed` is truthy. |
| Validation.StringParameterScenarios | test/testValidation.js:70-78 | "" fails when `emptyAllowed` is absent or false and passes when it is true. |
| CapScenarios.PolygonScenario | test/testCap.js:126-132 | The sample Polygon gives one string "2,1 4,3 " and the area description "foo foo, bar". |
| CapScenarios.MultiPolygonScenario | test/testCap.js:134-156 | The sample MultiPolygon gives "2,1 4,3 " and "6,5 8,7 ". |
| CapScenarios.UnsupportedGeometryScenario | test/testCap.js:158-164 | An "Unknown" geometry gives no area and no info. |
| CapScenarios.InteriorRingScenario | test/testCap.js:166-186 | A polygon with two rings gives no area. |
| CapScenarios.StateScenarios | test/testCap.js:96-110 | State 0 gives no info; state 1 gives info of severity Unknown. |
| CapScenarios.IdentifierScenario | test/testCap.js:75-80 | A parent name "1<2" leaves no '<' in the identifier. |
| CapScenarios.AlertKeepsFailedInfo | test/testCap.js:82-91 | As written, a failing info still yields an alert with no info. The intended alert is absent. |
| CapScenarios.TestAlertOk | test/testCap.js:84-85 | The sample feature yields an alert. |
| CapScenarios.EmptyFeedScenario | test/testCap.js:42-47 | No features give a feed with no entries. |
| CapScenarios.OneFeatureScenario | test/testCap.js:49-54 | One feature gives one entry. |
| CapScenarios.TwoFeatureScenario | test/testCap.js:56-61 | Two features give two entries. |
| CapScenarios.FailedFeatureScenario | test/testCap.js:63-69 | As written, a feature whose info fails still gives one entry. The intended feed has none. |

## Left out

- XML serialisation by `xmlbuilder` (`builder.create(...).end()`, Cap.js:65) is left out. The feed is returned as an element tree; attribute names such as `@xmlns` and `@type` become plain fields.
- Dates come from `moment-timezone` and the clock. They are parameters: `Moment.stamp` is the 'YYYY-MM-DDTHH:mm:ssZ' rendering in Asia/Jakarta, `Moment.hourMinute` is the 'HH:mm z' rendering, and `now` is the feed's update time. Their formats and time-zone arithmetic are not modelled.
- Logging is left out. It only writes messages and changes no result.
- The server, database and configuration (CognicityServer.js, Database.js, config.js) are not part of this model.
- Coordinates are kept as the text JavaScript would print for them. A point with fewer than two coordinates prints "undefined", as the string concatenation does. The conversion of doubles to text is not modelled.
- The flooded-state code is an integer. A state that is not a number fails the strict equality checks in the source, just as an integer outside 1..4 does.
- A polygon with no ring throws a TypeError in the source. It is a failure that propagates (`MissingRing`), and the model does not distinguish it from any other thrown error.
- `Validation.ValidateNumberParameter`: `min` and `max` must be numbers or absent, as their documentation says. Relational comparison against strings, objects and other values after type coercion is not modelled.
- The validators' values are numbers, strings, booleans, null, undefined and plain objects. Symbols, BigInts and objects whose `valueOf` or `toString` throws are left out: for them `isNaN` and `parseInt` throw a TypeError (Validation.js:21, 35-36), which the model does not capture.
- Validation numbers are exact reals rather than IEEE doubles. -0 and 0 are one value, and `ParseIntOfNumber` takes the first significant digit of the exact value in exponent notation, without rounding to 21 significant digits.
- `CapFeed.EntryOf` has no contract of its own. That its query URL is URI-safe follows from `Uri.EncodeURI` and is not restated for it.
- `Uri.EncodeURI` does not model the URIError thrown for a lone surrogate: strings here consist of Unicode scalar values only.

## Findings

| source | as written | input that shows it | evidently intended | confidence | as-written member | corrected member |
|---|---|---|---|---|---|---|
| Cap.js:173-175 | `createAlert` returns an alert even when `createInfo` returned `undefined`; the alert's `info` is then unset | the sample feature with geometry type "Unknown" (test/testCap.js:82-91 expects `undefined`) | no alert when its info cannot be built | high, not executed | CapScenarios.AlertKeepsFailedInfo | CapAlert.CreateAlertOrNone |
| Cap.js:49-62 | `geoJsonToAtomCap` pushes an entry for every feature, including one whose alert has no info | one feature with geometry type "Unknown" (test/testCap.js:63-69 expects no entry) | only features with a complete alert produce an entry | medium, not executed | CapScenarios.FailedFeatureScenario | CapFeed.GeoJsonToAtomCapSkipping |
| Validation.js:22-23 | a bound is checked only when it is truthy, so a bound of 0 is ignored | `validateNumberParameter(-5, 0)` passes (CognicityServer.js:61-62 and 151 pass 0 as a minimum) | a bound given as 0 is enforced | high, not executed | Validation.ZeroMinimumNotEnforced | Validation.ValidateNumberBounded |
