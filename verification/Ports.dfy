/** Port tables: from a port number to whether it is in use. */
module Ports {
  import opened Common

  type PortTable = map<UInt16, bool>

  ghost function Used(t: PortTable): set<UInt16> {
    set p | p in t && t[p]
  }

  ghost function Free(t: PortTable): set<UInt16> {
    set p | p in t && !t[p]
  }

  /** A table holding exactly these ports, none of them in use. */
  function Unused(ports: set<UInt16>): PortTable {
    map p | p in ports :: false
  }

  /** What a search for an available port may answer: any free port, or 0 when there is none. */
  ghost predicate CanClaim(t: PortTable, port: UInt16) {
    if Free(t) == {} then port == 0 else port in Free(t)
  }

  /** The table once the search has answered `port`. */
  ghost function Claim(t: PortTable, port: UInt16): PortTable {
    if Free(t) == {} then t else t[port := true]
  }

  /** The iteration order of the hash table is unspecified: any free port may be met first. */
  method FindAvailablePort(source: PortTable) returns (port: UInt16, marked: PortTable)
    ensures CanClaim(source, port)
    ensures marked == Claim(source, port)
  {
    var rest := source.Keys;
    while rest != {}
      invariant rest <= source.Keys
      invariant Free(source) <= rest
      decreases |rest|
    {
      var p :| p in rest;
      if !source[p] {
        assert p in Free(source);
        return p, source[p := true];
      }
      rest := rest - {p};
    }
    return 0, source;
  }

  /** Every port of a table is either used or free. */
  lemma UsedAndFree(t: PortTable)
    ensures Used(t) !! Free(t)
    ensures Used(t) + Free(t) == t.Keys
    ensures |Used(t)| + |Free(t)| == |t|
  {
    assert Used(t) + Free(t) == t.Keys;
    assert Used(t) !! Free(t);
  }

  lemma ClaimUsed(t: PortTable, port: UInt16)
    requires CanClaim(t, port)
    ensures Free(t) == {} ==> Used(Claim(t, port)) == Used(t)
    ensures Free(t) != {} ==> port !in Used(t) && Used(Claim(t, port)) == Used(t) + {port}
    ensures Claim(t, port).Keys == t.Keys
  {
  }
}
