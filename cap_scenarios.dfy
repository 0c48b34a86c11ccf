/**
 * The transformer's unit-test scenarios, stated over the model: the reference feature is a
 * state-1 Polygon named "foo foo" in "bar" whose only ring is [[1,2],[3,4]].
 */
module CapScenarios {
  import opened Results
  import opened CapTypes
  import opened CapArea
  import opened CapInfo
  import opened CapAlert
  import opened CapFeed
  import opened Uri

  function TestFeature(): Feature {
    Feature(1, "2016-02-16 10:36:50.568724", "foo foo", "bar", Polygon([[["1", "2"], ["3", "4"]]]))
  }

  function WithGeometry(f: Feature, g: Geometry): Feature {
    f.(geometry := g)
  }

  /** Coordinates come out swapped in pairs, in one polygon string. */
  lemma PolygonScenario()
    ensures AreaOf(TestFeature()) == Ok(Area("foo foo, bar", ["2,1 4,3 "]))
  {
    AreaOfOutcome(TestFeature());
    RingTextCons(["1", "2"], [["3", "4"]]);
    RingTextCons(["3", "4"], []);
    assert [["1", "2"]] + [["3", "4"]] == [["1", "2"], ["3", "4"]];
    assert RingText([["1", "2"], ["3", "4"]]) == "2,1 4,3 ";
    assert AreaOf(TestFeature()).Ok?;
    assert AreaOf(TestFeature()).value.areaDesc == "foo foo, bar";
  }

  /** A MultiPolygon gives one string per polygon, in order. */
  lemma MultiPolygonScenario()
    ensures AreaOf(WithGeometry(TestFeature(), MultiPolygon([[[["1", "2"], ["3", "4"]]], [[["5", "6"], ["7", "8"]]]])))
         == Ok(Area("foo foo, bar", ["2,1 4,3 ", "6,5 8,7 "]))
  {
    var polys := [[[["1", "2"], ["3", "4"]]], [[["5", "6"], ["7", "8"]]]];
    var f := WithGeometry(TestFeature(), MultiPolygon(polys));
    AreaOfOutcome(f);
    RingTextCons(["1", "2"], [["3", "4"]]);
    RingTextCons(["3", "4"], []);
    RingTextCons(["5", "6"], [["7", "8"]]);
    RingTextCons(["7", "8"], []);
    assert [["1", "2"]] + [["3", "4"]] == [["1", "2"], ["3", "4"]];
    assert [["5", "6"]] + [["7", "8"]] == [["5", "6"], ["7", "8"]];
    assert SimplePolygons(polys);
    var texts := AreaOf(f).value.polygon;
    assert |texts| == 2;
    assert texts[0] == RingText([["1", "2"], ["3", "4"]]) == "2,1 4,3 ";
    assert texts[1] == RingText([["5", "6"], ["7", "8"]]) == "6,5 8,7 ";
    assert texts == ["2,1 4,3 ", "6,5 8,7 "];
    assert AreaOf(f).value.areaDesc == "foo foo, bar";
  }

  /** An unknown geometry type gives no area, and so no info. */
  lemma UnsupportedGeometryScenario(m: Moment)
    ensures AreaOf(WithGeometry(TestFeature(), Other("Unknown"))) == Err(UnsupportedGeometry("Unknown"))
    ensures InfoOf(WithGeometry(TestFeature(), Other("Unknown")), m).Err?
  {
  }

  /** A polygon with a second ring gives no area. */
  lemma InteriorRingScenario()
    ensures AreaOf(WithGeometry(TestFeature(), Polygon([[["1", "2"], ["3", "4"]], [["5", "6"], ["7", "8"]]])))
         == Err(InteriorRing(0))
  {
  }

  /** State 0 gives no info; state 1 does. */
  lemma StateScenarios(m: Moment)
    ensures InfoOf(TestFeature().(state := 0), m) == Err(UnmappedState(0))
    ensures InfoOf(TestFeature(), m).Ok? && InfoOf(TestFeature(), m).value.severity.Name() == "Unknown"
  {
    PolygonScenario();
  }

  /** As written, a failed info still yields an alert, with no info in it; the intended alert is absent. */
  lemma AlertKeepsFailedInfo(m: Moment)
    ensures CreateAlert(WithGeometry(TestFeature(), Other("Unknown")), m).Ok?
    ensures CreateAlert(WithGeometry(TestFeature(), Other("Unknown")), m).value.info == None
    ensures CreateAlertOrNone(WithGeometry(TestFeature(), Other("Unknown")), m) == None
  {
    var u := WithGeometry(TestFeature(), Other("Unknown"));
    assert SeverityOf(u.state) == Some(Unknown);
    assert AreaOf(u) == Err(UnsupportedGeometry("Unknown"));
    assert InfoOf(u, m) == Err(UnsupportedGeometry("Unknown"));
  }

  /** A '<' in the parent name never reaches the identifier literally. */
  lemma IdentifierScenario(m: Moment)
    ensures '<' !in CreateAlert(TestFeature().(parentName := "1<2"), m).value.identifier
  {
    var f := TestFeature().(parentName := "1<2");
    PolygonScenario();
    assert AreaOf(f).Ok? by {
      AreaOfOutcome(f);
    }
    InfoOfOutcome(f, m);
    EncodeURIEscapes(RawIdentifier(f, m), '<');
  }

  /** The sample feature gives an alert. */
  lemma TestAlertOk(m: Moment)
    ensures CreateAlert(TestFeature(), m).Ok?
  {
    StateScenarios(m);
  }

  /** An empty feature list gives an empty feed. */
  lemma EmptyFeedScenario(now: string, m: Moment)
    ensures WrittenFeed([], now, m) == Ok(AtomFeed(now, []))
  {
  }

  /** One feature gives one entry. */
  lemma OneFeatureScenario(now: string, m: Moment)
    ensures WrittenFeed([TestFeature()], now, m).Ok? && |WrittenFeed([TestFeature()], now, m).value.entry| == 1
  {
    TestAlertOk(m);
    WrittenEntriesOk([TestFeature()], m);
  }

  /** Two features give two entries. */
  lemma TwoFeatureScenario(now: string, m: Moment)
    ensures WrittenFeed([TestFeature(), TestFeature()], now, m).Ok?
    ensures |WrittenFeed([TestFeature(), TestFeature()], now, m).value.entry| == 2
  {
    TestAlertOk(m);
    WrittenEntriesOk([TestFeature(), TestFeature()], m);
  }

  /** As written, a feature whose info fails still gives an entry; the intended feed leaves it out. */
  lemma FailedFeatureScenario(now: string, m: Moment)
    ensures WrittenFeed([WithGeometry(TestFeature(), Other("Unknown"))], now, m).Ok?
    ensures |WrittenFeed([WithGeometry(TestFeature(), Other("Unknown"))], now, m).value.entry| == 1
    ensures SuccessfulEntries([WithGeometry(TestFeature(), Other("Unknown"))], m) == []
  {
    var u := WithGeometry(TestFeature(), Other("Unknown"));
    AlertKeepsFailedInfo(m);
    WrittenEntriesOk([u], m);
    SuccessfulEntriesSkip([], u, [], m);
  }
}
