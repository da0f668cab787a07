/** The network-attachment part of the merge. The network name is resolved by a lookup
    outside this model (swarmctl's network resolver), given as a function. */
module ParseSpecNetwork {
  import opened Common
  import opened SwarmApi
  import opened ClientSpec

  /** The network resolver: the ID of the network a name or ID denotes, or its error. */
  type NetworkResolver = string -> Result<string>

  /** A blank network name changes nothing and cannot fail. Otherwise the name is
      resolved: on success the attachments become exactly one, targeting the resolved
      ID, and previous attachments are discarded; on failure the resolver's error is
      reported and the specification is unchanged. Nothing but the attachments can
      change. */
  function NetworkStep(cs: CreateSpec, resolve: NetworkResolver, s: Spec): (r: Applied)
    ensures r.spec == s.(networks := r.spec.networks)
    ensures Blank(cs.network) ==> r == Applied(s, None)
    ensures !Blank(cs.network) ==>
      match resolve(cs.network)
      case Ok(id) => r == Applied(s.(networks := [NetworkAttachment(id)]), None)
      case Err(e) => r == Applied(s, Some(e))
  {
    TrimSpaceEmptyIffBlank(cs.network);
    if |TrimSpace(cs.network)| > 0 then
      match resolve(cs.network)
      case Err(e) => Applied(s, Some(e))
      case Ok(id) => Applied(s.(networks := [NetworkAttachment(id)]), None)
    else Applied(s, None)
  }

  /** parseNetworks: replaces the attachment list after resolving the name. */
  method ParseNetworks(cspec: CreateSpec, spec: ServiceSpec, resolve: NetworkResolver) returns (err: Option<Error>)
    modifies spec
    ensures Applied(spec.Value(), err) == NetworkStep(cspec, resolve, old(spec.Value()))
  {
    err := None;
    if |TrimSpace(cspec.network)| > 0 {
      var n := resolve(cspec.network);
      if n.Err? {
        return Some(n.error);
      }
      spec.networks := [NetworkAttachment(n.value)];
    }
  }
}
