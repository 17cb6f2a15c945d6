/** The upgrade to a shared proxy that Holocene and Isthmus apply to a list of contracts. */
module ProxyMigration {
  import opened Primitives
  import opened ByteCodec
  import opened Transitions

  // Nothing is patched into the moved code, so the token address plays no role.
  function ToProxy(contract: Address, proxy: Address, admin: Address): Change {
    ProxyUpgrade(contract, ImplementationAddress(contract), proxy, admin, [], 0, map[])
  }

  function ToProxies(contracts: seq<Address>, proxy: Address, admin: Address): (cs: seq<Change>)
    ensures |cs| == |contracts|
    ensures forall i :: 0 <= i < |cs| ==> cs[i] == ToProxy(contracts[i], proxy, admin)
  {
    seq(|contracts|, i requires 0 <= i < |contracts| => ToProxy(contracts[i], proxy, admin))
  }

  lemma NothingPatched(code: Bytes, token: Address)
    ensures SpliceAll(code, [], AddressBytes(token)) == code
  {
  }
}
