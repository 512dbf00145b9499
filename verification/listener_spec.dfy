/** What the listener does with one resolved service: parse, filter, verify. */
module ListenerSpec {
  import opened Wrappers
  import opened Types
  import opened Signing
  import opened Txt

  datatype ServiceEvent =
    | Resolved(fullname: string, port: Port, addresses: seq<IpAddr>, properties: seq<Property>)
    | Removed(fullname: string)
    | BrowseEnded
    | Ignored

  /** A service that does not parse, that carries the local id, or that fails a required
      verification is not heard. */
  function Heard(mac: Mac, localId: string, auth: Option<SharedSecretAuth>, event: ServiceEvent): Option<Announcement>
    requires event.Resolved?
  {
    match Parse(event.fullname, event.port, event.addresses, event.properties)
    case Err(_) => None
    case Ok(a) =>
      if a.agentId == localId then None
      else if auth.Some? && auth.value.mode.SignAndVerify? && Verify(mac, a, auth.value).Err? then None
      else Some(a)
  }

  /** The listener verifies what it hears. */
  predicate VerifiesIncoming(auth: Option<SharedSecretAuth>) {
    auth.Some? && auth.value.mode.SignAndVerify?
  }

  /** An announcement is heard exactly if it is what the service parses to, is not under the local id and,
      where the listener verifies, carries the tag of its own payload under an accepted secret. */
  lemma HeardIff(mac: Mac, localId: string, auth: Option<SharedSecretAuth>, event: ServiceEvent, a: Announcement)
    requires event.Resolved?
    ensures Heard(mac, localId, auth, event) == Some(a)
            <==> && Parse(event.fullname, event.port, event.addresses, event.properties) == Ok(a)
                 && a.agentId != localId
                 && (VerifiesIncoming(auth) ==> CarriesTag(mac, a, auth.value))
  {
    if VerifiesIncoming(auth) {
      VerifyIff(mac, a, auth.value);
    }
  }
}
