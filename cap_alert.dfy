/**
 * The CAP `alert` element of a feature: the message header (identifier, sender, sent time,
 * status, message type, scope) and the feature's `info`.
 */
module CapAlert {
  import opened Results
  import opened CapTypes
  import opened CapInfo
  import opened Uri

  const CapNamespace := "urn:oasis:names:tc:emergency:cap:1.2"
  const Sender := "BPBD.JAKARTA.GOV.ID"

  /** "parent_name,level_name,timestamp" before URI encoding. */
  function RawIdentifier(f: Feature, m: Moment): string {
    f.parentName + "," + f.levelName + "," + m.stamp(f.lastUpdated)
  }

  /** The alert as the source builds it: the header is always built and `info` is stored even when
      it is `undefined`; only a thrown TypeError leaves no alert. The identifier holds only URI-safe
      characters and decodes back to parent name, level name and timestamp. */
  function CreateAlert(f: Feature, m: Moment): (r: Result<Alert, CapError>)
    ensures r.Err? <==> InfoOf(f, m).Err? && InfoOf(f, m).error.Throws()
    ensures r.Err? ==> r.error == InfoOf(f, m).error
    ensures r.Ok? ==>
      && r.value.info == InfoOf(f, m).ToOption()
      && r.value.xmlns == "urn:oasis:names:tc:emergency:cap:1.2" && r.value.sender == "BPBD.JAKARTA.GOV.ID"
      && r.value.status == "Actual" && r.value.msgType == "Alert" && r.value.scope == "Public"
      && r.value.sent == m.stamp(f.lastUpdated)
      && r.value.identifier == EncodeURI(RawIdentifier(f, m))
  {
    var info := InfoOf(f, m);
    if info.Err? && info.error.Throws() then Err(info.error)
    else
      Ok(Alert(CapNamespace, EncodeURI(RawIdentifier(f, m)), Sender, m.stamp(f.lastUpdated),
               "Actual", "Alert", "Public", info.ToOption()))
  }

  /** The alert as the tests expect it: no alert at all unless its `info` was built. */
  function CreateAlertOrNone(f: Feature, m: Moment): (r: Option<Alert>)
    ensures r.Some? <==> InfoOf(f, m).Ok?
    ensures r.Some? ==> r.value.info == Some(InfoOf(f, m).value)
    ensures r.Some? ==> CreateAlert(f, m) == Ok(r.value)
  {
    var info := InfoOf(f, m);
    if info.Err? then None
    else Some(Alert(CapNamespace, EncodeURI(RawIdentifier(f, m)), Sender, m.stamp(f.lastUpdated),
                    "Actual", "Alert", "Public", Some(info.value)))
  }

  /** The identifier holds only URI-safe characters (so never a literal '<', '>', '"' or space),
      and it decodes back to "parent_name,level_name,timestamp". */
  lemma AlertIdentifier(f: Feature, m: Moment)
    requires CreateAlert(f, m).Ok?
    ensures forall i :: 0 <= i < |CreateAlert(f, m).value.identifier| ==> UriSafe(CreateAlert(f, m).value.identifier[i])
    ensures PercentUtf8Decode(CreateAlert(f, m).value.identifier) == Some(RawIdentifier(f, m))
  {
    DecodeEncodeURI(RawIdentifier(f, m));
  }

  /** Two alerts of features that differ in parent name, level name or timestamp never share an identifier. */
  lemma IdentifierDistinguishes(f: Feature, g: Feature, m: Moment)
    requires CreateAlert(f, m).Ok? && CreateAlert(g, m).Ok?
    requires RawIdentifier(f, m) != RawIdentifier(g, m)
    ensures CreateAlert(f, m).value.identifier != CreateAlert(g, m).value.identifier
  {
    if CreateAlert(f, m).value.identifier == CreateAlert(g, m).value.identifier {
      EncodeURIInjective(RawIdentifier(f, m), RawIdentifier(g, m));
    }
  }
}
