/**
 * The ATOM feed of CAP alerts: fixed feed metadata, the feed's update time, and one `entry` per
 * feature, each embedding that feature's alert as `text/xml` content.
 */
module CapFeed {
  import opened Results
  import opened CapTypes
  import opened CapInfo
  import opened CapAlert
  import opened Uri

  const AtomNamespace := "http://www.w3.org/2005/Atom"
  const FeedId := "https://rem.petajakarta.org/data/api/v2/rem/flooded"
  const FeedTitle := "Peta Jakarta REM Flooded RW Feed"
  const FeedAuthor := Author("Peta Jakarta REM", "https://rem.petajakarta.org/")

  /** The feed element with its fixed metadata, updated at `now`. */
  function AtomFeed(now: string, entries: seq<Entry>): Feed {
    Feed(AtomNamespace, FeedId, FeedTitle, now, FeedAuthor, entries)
  }

  /** The entry of a feature: a query URL naming it, the alert identifier as title, the feature's
      timestamp, and the alert. */
  function EntryOf(f: Feature, alert: Alert, m: Moment): Entry {
    Entry(FeedId + "?parent_name=" + EncodeURI(f.parentName) + "&level_name=" + EncodeURI(f.levelName)
            + "&time=" + EncodeURI(m.stamp(f.lastUpdated)),
          alert.identifier + " Flood Report",
          m.stamp(f.lastUpdated),
          Content("text/xml", alert))
  }

  /** The entries as the source builds them: one for EVERY feature, in feature order, even where the
      feature's `info` failed; only a thrown TypeError, from the first feature that throws, leaves none. */
  function WrittenEntries(features: seq<Feature>, m: Moment): Result<seq<Entry>, CapError>
    decreases |features|
  {
    if features == [] then Ok([])
    else
      var k := |features| - 1;
      match WrittenEntries(features[..k], m)
      case Err(e) => Err(e)
      case Ok(entries) =>
        match CreateAlert(features[k], m)
        case Err(e) => Err(e)
        case Ok(alert) => Ok(entries + [EntryOf(features[k], alert, m)])
  }

  /** The feed as the source builds it around those entries. */
  function WrittenFeed(features: seq<Feature>, now: string, m: Moment): Result<Feed, CapError> {
    match WrittenEntries(features, m)
    case Err(e) => Err(e)
    case Ok(entries) => Ok(AtomFeed(now, entries))
  }

  /** Builds the feed the way the transformer does: an alert per feature, pushed as an entry whatever
      its `info` turned out to be. */
  method GeoJsonToAtomCap(features: seq<Feature>, now: string, m: Moment) returns (r: Result<Feed, CapError>)
    ensures r == WrittenFeed(features, now, m)
  {
    var entry: seq<Entry> := [];
    var featureIndex := 0;
    while featureIndex < |features|
      invariant 0 <= featureIndex <= |features|
      invariant WrittenEntries(features[..featureIndex], m) == Ok(entry)
    {
      assert features[..featureIndex + 1][..featureIndex] == features[..featureIndex];
      var feature := features[featureIndex];
      var alert := CreateAlert(feature, m);
      if alert.Err? {
        WrittenEntriesPrefixErr(features, featureIndex + 1, m);
        return Err(alert.error);
      }
      entry := entry + [EntryOf(feature, alert.value, m)];
      featureIndex := featureIndex + 1;
    }
    assert features[..featureIndex] == features;
    return Ok(AtomFeed(now, entry));
  }

  /** Once a prefix of the features throws, the whole run throws the same way. */
  lemma {:induction false} WrittenEntriesPrefixErr(features: seq<Feature>, n: nat, m: Moment)
    requires n <= |features|
    requires WrittenEntries(features[..n], m).Err?
    ensures WrittenEntries(features, m) == WrittenEntries(features[..n], m)
    decreases |features| - n
  {
    if n == |features| {
      assert features[..n] == features;
    } else {
      var init := features[..|features| - 1];
      assert init[..n] == features[..n];
      WrittenEntriesPrefixErr(init, n, m);
    }
  }

  /** The source's feed exists exactly when no feature throws, and then it has one entry per feature,
      in feature order, each embedding that feature's alert, whether or not the alert has an `info`. */
  lemma {:induction false} WrittenEntriesOk(features: seq<Feature>, m: Moment)
    ensures WrittenEntries(features, m).Ok? <==> forall i :: 0 <= i < |features| ==> CreateAlert(features[i], m).Ok?
    ensures WrittenEntries(features, m).Ok? ==>
      && |WrittenEntries(features, m).value| == |features|
      && forall i :: 0 <= i < |features| ==>
           WrittenEntries(features, m).value[i] == EntryOf(features[i], CreateAlert(features[i], m).value, m)
    decreases |features|
  {
    if features != [] {
      var k := |features| - 1;
      var init := features[..k];
      WrittenEntriesOk(init, m);
      assert forall i :: 0 <= i < k ==> init[i] == features[i];
      var written := WrittenEntries(features, m);
      if written.Ok? {
        var entries := WrittenEntries(init, m).value;
        assert CreateAlert(features[k], m).Ok?;
        var alert := CreateAlert(features[k], m).value;
        assert written.value == entries + [EntryOf(features[k], alert, m)];
        forall i | 0 <= i < |features|
          ensures CreateAlert(features[i], m).Ok?
          ensures written.value[i] == EntryOf(features[i], CreateAlert(features[i], m).value, m)
        {
          if i < k {
            var f := init[i];
            assert f == features[i];
            assert CreateAlert(f, m).Ok?;
            assert entries[i] == EntryOf(f, CreateAlert(f, m).value, m);
            assert written.value[i] == entries[i];
          } else {
            assert i == k;
          }
        }
      }
    }
  }

  /** A run that throws reports the error of the first feature that throws. */
  lemma {:induction false} WrittenEntriesErr(features: seq<Feature>, m: Moment)
    requires WrittenEntries(features, m).Err?
    ensures exists k :: 0 <= k < |features| && CreateAlert(features[k], m) == Err(WrittenEntries(features, m).error)
                        && forall j :: 0 <= j < k ==> CreateAlert(features[j], m).Ok?
    decreases |features|
  {
    var k := |features| - 1;
    var init := features[..k];
    if WrittenEntries(init, m).Err? {
      WrittenEntriesErr(init, m);
      var k' :| 0 <= k' < |init| && CreateAlert(init[k'], m) == Err(WrittenEntries(init, m).error)
                && forall j :: 0 <= j < k' ==> CreateAlert(init[j], m).Ok?;
      assert WrittenEntries(features, m) == WrittenEntries(init, m);
      assert features[k'] == init[k'];
      forall j | 0 <= j < k'
        ensures CreateAlert(features[j], m).Ok?
      {
        assert features[j] == init[j];
      }
    } else {
      WrittenEntriesOk(init, m);
      assert CreateAlert(features[k], m) == Err(WrittenEntries(features, m).error);
      forall j | 0 <= j < k
        ensures CreateAlert(features[j], m).Ok?
      {
        assert features[j] == init[j];
      }
    }
  }

  // ----- The feed the tests expect: failed features are skipped -----

  /** The entries of the features whose alert could be built, in feature order. */
  function SuccessfulEntries(features: seq<Feature>, m: Moment): seq<Entry>
    decreases |features|
  {
    if features == [] then []
    else
      var k := |features| - 1;
      var alert := CreateAlertOrNone(features[k], m);
      SuccessfulEntries(features[..k], m) + (if alert.Some? then [EntryOf(features[k], alert.value, m)] else [])
  }

  /** Builds the feed, leaving out every feature for which no alert can be built. */
  method GeoJsonToAtomCapSkipping(features: seq<Feature>, now: string, m: Moment) returns (feed: Feed)
    ensures feed == AtomFeed(now, SuccessfulEntries(features, m))
  {
    var entry: seq<Entry> := [];
    var featureIndex := 0;
    while featureIndex < |features|
      invariant 0 <= featureIndex <= |features|
      invariant entry == SuccessfulEntries(features[..featureIndex], m)
    {
      assert features[..featureIndex + 1][..featureIndex] == features[..featureIndex];
      var feature := features[featureIndex];
      var alert := CreateAlertOrNone(feature, m);
      if alert.Some? {
        entry := entry + [EntryOf(feature, alert.value, m)];
      }
      featureIndex := featureIndex + 1;
    }
    assert features[..featureIndex] == features;
    return AtomFeed(now, entry);
  }

  /** Skipping works feature by feature: the entries of two joined lists are the two entry lists joined. */
  lemma {:induction false} SuccessfulEntriesAppend(a: seq<Feature>, b: seq<Feature>, m: Moment)
    ensures SuccessfulEntries(a + b, m) == SuccessfulEntries(a, m) + SuccessfulEntries(b, m)
    decreases |b|
  {
    if b == [] {
      assert a + b == a;
    } else {
      var k := |b| - 1;
      assert (a + b)[..|a + b| - 1] == a + b[..k];
      SuccessfulEntriesAppend(a, b[..k], m);
    }
  }

  /** A feature without an alert adds no entry and leaves the others where they were: among N
      features of which only this one fails there are N - 1 entries, in their relative order. */
  lemma SuccessfulEntriesSkip(a: seq<Feature>, f: Feature, b: seq<Feature>, m: Moment)
    requires InfoOf(f, m).Err?
    ensures SuccessfulEntries(a + [f] + b, m) == SuccessfulEntries(a, m) + SuccessfulEntries(b, m)
  {
    assert CreateAlertOrNone(f, m).None?;
    assert [f][..0] == [];
    assert SuccessfulEntries([f], m) == [];
    SuccessfulEntriesAppend(a, [f], m);
    assert SuccessfulEntries(a + [f], m) == SuccessfulEntries(a, m);
    SuccessfulEntriesAppend(a + [f], b, m);
  }

  /** When every feature yields an alert there is one entry per feature, in feature order. */
  lemma {:induction false} SuccessfulEntriesAllOk(features: seq<Feature>, m: Moment)
    requires forall i :: 0 <= i < |features| ==> InfoOf(features[i], m).Ok?
    ensures |SuccessfulEntries(features, m)| == |features|
    ensures forall i :: 0 <= i < |features| ==>
      SuccessfulEntries(features, m)[i] == EntryOf(features[i], CreateAlertOrNone(features[i], m).value, m)
    decreases |features|
  {
    if features != [] {
      var k := |features| - 1;
      var init := features[..k];
      SuccessfulEntriesAllOk(init, m);
      var entries := SuccessfulEntries(init, m);
      assert CreateAlertOrNone(features[k], m).Some?;
      var alert := CreateAlertOrNone(features[k], m).value;
      assert SuccessfulEntries(features, m) == entries + [EntryOf(features[k], alert, m)];
      forall i | 0 <= i < |features|
        ensures CreateAlertOrNone(features[i], m).Some?
        ensures SuccessfulEntries(features, m)[i] == EntryOf(features[i], CreateAlertOrNone(features[i], m).value, m)
      {
        if i < k {
          var f := init[i];
          assert f == features[i];
          assert entries[i] == EntryOf(f, CreateAlertOrNone(f, m).value, m);
        } else {
          assert i == k;
        }
      }
    }
  }

  /** Every entry that is emitted holds an alert whose `info` was built: partial alerts never surface. */
  lemma {:induction false} SuccessfulEntriesHaveInfo(features: seq<Feature>, m: Moment)
    ensures forall e :: e in SuccessfulEntries(features, m) ==> e.content.alert.info.Some?
    ensures |SuccessfulEntries(features, m)| <= |features|
    decreases |features|
  {
    if features != [] {
      SuccessfulEntriesHaveInfo(features[..|features| - 1], m);
    }
  }
}
