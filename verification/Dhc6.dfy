/** includes/dhcpd.h: the records of the DHCPv6 client. */
module Dhc6 {
  import opened Wrappers
  import opened Bytes

  /** Options by code; their values are only bytes here. */
  type Options = map<nat, seq<byte>>

  datatype Addr = Addr(address: seq<byte>, plen: nat, depreffed: bool, expired: bool, starts: int, preferred: nat,
                       maxLife: nat, options: Options)

  datatype IaType = NA | TA | PD

  datatype IA = IA(iaid: seq<byte>, iaType: IaType, starts: int, renew: nat, rebind: nat, addrs: seq<Addr>,
                   options: Options)

  datatype Lease = Lease(serverId: seq<byte>, released: bool, score: nat, pref: nat, bindings: seq<IA>,
                         options: Options)
}
