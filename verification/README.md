# Verification of the ISC DHCP client

A Dafny model of the hard parts of the ISC DHCP 4.3.6 client and its common library, with proofs. `dafny verify
dfyconfig.toml` checks all of it.

| part | modules | models |
|---|---|---|
| CIDR arithmetic | `Bytes`, `Dyadic`, `Inet` | `common/inet.c`: from an address range to networks |
| IP/UDP framing | `Packet` | `common/packet.c`: checksum, header assembly and decoding |
| Timer table | `Timers` | `common/dispatch.c`: timeouts keyed by function and argument |
| DHCPv4 client | `Panic`, `LeaseTimes`, `Client4`, `Client4Settles`, `Client4Runs`, `Client4Leads`, `Client4Offers`, `Client4Handlers`, `Relinquish` | `client/dhclient.c`: states, timers, lease times, fallback leases (section 4.4 of RFC 2131) |
| DHCPv6 client | `Dhc6`, `Retrans6`, `Select6`, `Merge6`, `Expire6`, `Refresh6`, `Iaid6` | `client/dhc6.c`: retransmission, selection, merging, renewal times, expiry and IAIDs (sections 14, 17.1 and 18.1 of RFC 3315) |
| Lease file | `LeaseText`, `LeaseFile`, `LeaseRoundTrip`, `LeaseErrors` | `write_client6_lease` and the lease6 parsers of `client/clparse.c` |
| Dynamic DNS | `Ddns`, `DdnsMessages`, `DdnsBlocks`, `DdnsSafety`, `DdnsProgress` | the update messages of `common/dns.c` and what `client/dhclient.c` does upon their answers |
| Data strings | `DataStrings` | `common/alloc.c`: reference-counted buffers |

Loops and updates in place are methods, proved against functions; what the program promises is proved about those.
`Client4` has the DHCPv4 handlers as functions on a record of the client and the timer table, `Client4Handlers` the
class whose methods compute them; `LeaseText` has printer and parser as functions, `LeaseFile` the loops.
Scripts, random numbers, the clock, the network, `atoi` and the order in which options are kept are parameters, and
the theorems hold for all their values. Integers are unbounded except where a width is the point. TIME is `time_t`: the
lease times of DHCPv4 are computed with 32 bits, where they can overflow, and the expiry of DHCPv6 addresses is modelled
with 64 bits; what 32 bits would make of it is stated apart. Configured times are not negative, and the backoff cutoff
and the retry interval are positive, since the code takes remainders modulo them.

## Where the code falls short of its promise

Each of these is proved, with the exact condition under which the promise does hold.

- A DHCPACK without lease time breaks the rule of one timer per client, and only that event does
  (`Client4Runs.StepKeeps`, `Client4Runs.ZeroAckLeavesTwoTimers`).
- With an initial interval of zero, or a backoff cutoff of one and a larger initial interval, the requests of an
  unanswered renewal are due again in the same instant, so that no number bounds those sent before the lease expires
  (`Relinquish.UnboundedIff`). The lease is given up all the same, with the first wake-up after its expiry
  (`Relinquish.GivenUpInTime`).
- Rebinding comes after expiry when the server sends a T2 beyond the lease time (`LeaseTimes.TermsOrdered`). With a T1
  beyond it as well, renewal does too (`LeaseTimes.RenewalPastExpiryIff`), and the client stays bound to the expired
  lease until then (`Relinquish.BoundPastExpiry`).
- The client ends for lack of a medium although one in front of the current one works, when none behind it does
  (`Client4Leads.NoMediumIff`).
- Which advertised lease is selected depends on the order of arrival exactly when a lease below the minimum score is
  preferred to every lease above it (`Select6.OrderDependent`). The minimum score is described as one binding and
  one address, but two bindings without addresses reach it too (`Select6.ScoreMinMeans`).
- Where TIME has 32 bits, the test for expiry is wrong exactly when start and valid lifetime add up to 2^32 or more, and
  an address with infinite lifetime expires at once (`Expire6.Wrong32BitsIff`).
- A delegated prefix with bits below its length, or with a length above 128, is written but not read back, and the
  statement behind it is lost as well (`LeaseRoundTrip.InvalidPrefixTakesNext`). Other things the text does not keep are
  the renewal times of an IA_TA and the flags of addresses (`LeaseRoundTrip.RoundTrip`).
- An unknown statement in an address makes the reader take what stands behind the address for part of it
  (`LeaseErrors.UnknownInAddr`); a missing address or identifier takes the next statement with it
  (`LeaseErrors.BadAddressTakesNext`, `LeaseErrors.BadIaidTakesNext`).
- When clients use different types of identity record and one of them sets DDNS_INCLUDE_RRSET, it can delete another
  client's address record (`DdnsSafety.SafeIff`).
- New IAIDs repeat exactly when more are wanted than there are unused ones, and when none is unused the search for one
  does not end; both need more than 256 (`Iaid6.RefreshIAs`, `Iaid6.NeverFree`).
- A timeout whose caller gives no microseconds is up to one second late (`Timers.LateIff`).
- Making or copying a string over one that holds a buffer loses that buffer (`DataStrings.NewSound`,
  `DataStrings.CopySound`). Terminating a string that ends with a zero byte shortens it (`DataStrings.AfterSays`).

## Model

| member | source | states |
|---|---|---|
| Inet.Range2Cidr | dhcp-4.3.6-P1/common/inet.c:359-497 | for any two addresses of equal length, in either order, the networks listed read from the tail tile the range from left to right without gap or overlap (also up to the all-ones address and for the whole space), each is aligned to its length, they are exactly the maximal aligned blocks of the range, and no other list of networks with the same addresses is shorter; a list that is not empty or addresses of different length give InvalidArg and change nothing |
| Inet.Tile | dhcp-4.3.6-P1/common/inet.c:391-491 | the loop that grows the network bit by bit and lists it when it can not grow ends, and leaves a tiling of the range whose networks can not grow |
| Inet.AddBlock | dhcp-4.3.6-P1/common/inet.c:462-477 | the byte-wise carry adds the size of a block to the address number and tells when it runs past the last address; the byte read before the start of the buffer has no influence |
| Inet.NetTooBig | dhcp-4.3.6-P1/common/inet.c:429-444 | the OR and AND tests say exactly whether a block one bit larger would pass the end of the range or lose its alignment |
| Inet.IsCidrMaskValid | dhcp-4.3.6-P1/common/inet.c:302-346 | true exactly when the length is in range and the address number is a multiple of the block size, although the divided byte is a signed char |
| Inet.AddrCmp | dhcp-4.3.6-P1/common/inet.c:210-228 | the sign is that of the difference of the address numbers; different lengths compare as equal |
| Inet.AddrOr | dhcp-4.3.6-P1/common/inet.c:237-257 | the byte-wise OR and whether it is non-zero; different lengths change nothing |
| Inet.AddrAnd | dhcp-4.3.6-P1/common/inet.c:266-286 | the byte-wise AND and whether it is non-zero; different lengths change nothing |
| Dyadic.TilesCover | dhcp-4.3.6-P1/common/inet.c:359-497 | a tiling has every number of its range in exactly one block and none outside |
| Dyadic.TilesAreMaximal | dhcp-4.3.6-P1/common/inet.c:391-491 | the blocks of a tiling that can not grow are exactly the maximal aligned blocks inside the range |
| Dyadic.TilesAreFewest | dhcp-4.3.6-P1/common/inet.c:359-497 | no list of aligned blocks with the same union is shorter than a tiling of maximal blocks |
| Packet.Checksum | dhcp-4.3.6-P1/common/packet.c:44-78 | the loop computes the running sum with its carries, and never exceeds 32 bits |
| Packet.FoldedIsOnesSum | dhcp-4.3.6-P1/common/packet.c:44-78 | from a start value of at most 0xFFFF the running sum is the ones-complement sum of start and words |
| Packet.FoldedConcat | dhcp-4.3.6-P1/common/packet.c:44-78 | the sum composes over chunks of which only the last may be odd |
| Packet.AssembleUdpIpHeader | dhcp-4.3.6-P1/common/packet.c:131-189 | both headers stand in the buffer at the index, everything else in it is unchanged, and the index is behind them |
| Packet.HeaderFields | dhcp-4.3.6-P1/common/packet.c:146-172 | where each field stands, in network byte order: version, header length, type of service, total length, no identification and fragments, time to live, protocol, addresses, ports and UDP length |
| Packet.Decoder.Decode | dhcp-4.3.6-P1/common/packet.c:245-392 | the verdict is a function of the packet alone, whatever the static counters are, and those stay below 9 |
| Packet.Frame | dhcp-4.3.6-P1/common/packet.c:264-305 | which packets hold both headers, within the buffer, for the filtered port, with a UDP length that has room for its header |
| Packet.Count | dhcp-4.3.6-P1/common/packet.c:307-346 | the counters after a packet: past four packets a good one starts the count over, and a bad one does exactly when it makes more than half of them bad; otherwise they go up; no count passes 8 |
| Packet.VerdictOfParts | dhcp-4.3.6-P1/common/packet.c:245-392 | the verdict on a packet in terms of its headers, with or without IP options, its payload and arithmetic checksum conditions |
| Packet.MalformedRejected | dhcp-4.3.6-P1/common/packet.c:264-327 | a packet too short for its headers, or with an IP or UDP length that reaches past its end, or a UDP length without room for the header, is rejected |
| Packet.IpTotal | dhcp-4.3.6-P1/common/packet.c:146-161 | the sum over an assembled IP header is all ones |
| Packet.UdpTotal | dhcp-4.3.6-P1/common/packet.c:166-185 | so is the sum over pseudo-header, payload and assembled UDP header |
| Packet.RoundTrip | dhcp-4.3.6-P1/common/packet.c:131-189 | decoding an assembled datagram gives back address, port, offset and length for every payload that fits, odd lengths and a zero checksum included, whatever padding follows |
| Packet.HeaderChangeRejected | dhcp-4.3.6-P1/common/packet.c:329-340 | changing any one byte of the IP header, the header length staying 20, makes the decoder reject |
| Packet.PortChangeRejected | dhcp-4.3.6-P1/common/packet.c:354-375 | so does changing a byte of the ports when the UDP checksum is non-zero and checked |
| Packet.PayloadChangeRejected | dhcp-4.3.6-P1/common/packet.c:354-375 | so does changing a byte of the payload |
| Packet.SumFieldChange | dhcp-4.3.6-P1/common/packet.c:354-375 | a change of the UDP checksum field itself is accepted exactly when it makes the field zero |
| Timers.ComputeInterval | dhcp-4.3.6-P1/common/dispatch.c:267-288 | the interval of a timeout as a function of target and clock, always within the range of the timer library |
| Timers.EarlyIff | dhcp-4.3.6-P1/common/dispatch.c:250-288 | a timeout comes early exactly when it is TIME_MAX seconds or more away, or its microseconds make up a second |
| Timers.LateIff | dhcp-4.3.6-P1/common/dispatch.c:252-288 | a timeout in reach is late exactly by the clock's microseconds if the caller gave none, and else exact |
| Timers.AtOnceIff | dhcp-4.3.6-P1/common/dispatch.c:267-288 | a timeout runs out at once exactly when its time is not still to come |
| Timers.FarAway | dhcp-4.3.6-P1/common/dispatch.c:279-283 | one too far away runs out after the longest interval of the timer library |
| Timers.TimerTable.AddTimeout | dhcp-4.3.6-P1/common/dispatch.c:197-375 | the table becomes the old one with the key set to the new time: one entry per function and argument; without a function any entry of the argument is superseded and keeps its function |
| Timers.TimerTable.CancelTimeout | dhcp-4.3.6-P1/common/dispatch.c:377-415 | the table loses exactly that key |
| Timers.TimerTable.Expire | dhcp-4.3.6-P1/common/dispatch.c:138-192 | an entry is unlinked before its function runs, and no other |
| Timers.PendingDrop | dhcp-4.3.6-P1/common/dispatch.c:153-163 | unlinking an entry of a list without repetitions takes out its key and no other |
| LeaseTimes.ComputeTerms | dhcp-4.3.6-P1/client/dhclient.c:1265-1380 | the 32-bit computation does not overflow before the last additions, and what it yields means: expiry after the lease time; rebinding at a usable T2, else after seven eighths of the lease time; renewal between three quarters of T1, or of half the lease time, and one second more than it, or after three quarters of the rebinding time where that would be past it; all saturated at TIME_MAX |
| LeaseTimes.TermsAtMean | dhcp-4.3.6-P1/client/dhclient.c:1265-1380 | the same of the unbounded function that it computes |
| LeaseTimes.RenewalTotal | dhcp-4.3.6-P1/client/dhclient.c:1324-1334 | every renewal time from three quarters of T1 up to about it can be drawn |
| LeaseTimes.TermsOrdered | dhcp-4.3.6-P1/client/dhclient.c:1302-1380 | now <= renewal <= rebinding; rebinding <= expiry exactly if the server sent no usable T2, one within the lease time, or the lease ends past TIME_MAX |
| LeaseTimes.RenewalPastExpiryIff | dhcp-4.3.6-P1/client/dhclient.c:1302-1380 | renewal comes after expiry exactly if the lease ends within the range of TIME, the server sent a T2 beyond the lease time, and the drawn renewal time, or three quarters of T2 if that is less, is beyond it too |
| LeaseTimes.RenewalAskedFor | dhcp-4.3.6-P1/client/dhclient.c:1302-1380 | no draw leads there if the renewal time asked for is less than the lease time, and every draw does if it is more than a third beyond it and T2 is larger still |
| LeaseTimes.RenewalRange | dhcp-4.3.6-P1/client/dhclient.c:1324-1334 | the drawn renewal time is between three quarters of the one asked for and one second more than it |
| LeaseTimes.AddNow | dhcp-4.3.6-P1/client/dhclient.c:1371-1380 | addition that wraps around, followed by its check, is saturation |
| Panic.SearchLeases | dhcp-4.3.6-P1/client/dhclient.c:2341-2425 | the loop ends with the first accepted lease active and the others turned behind it, or with no lease accepted; and it hands to the script exactly the unexpired ones up to there |
| Panic.AskedOnce | dhcp-4.3.6-P1/client/dhclient.c:2341-2425 | each unexpired lease is handed to the script at most once |
| Panic.AskedInVain | dhcp-4.3.6-P1/client/dhclient.c:2352-2404 | all leases but the one that the search accepts are handed over in vain |
| Panic.SearchTurns | dhcp-4.3.6-P1/client/dhclient.c:2341-2425 | the active lease and the others behind it are the old order turned to the accepted lease, or the old order itself if none is accepted |
| Panic.SearchResult | dhcp-4.3.6-P1/client/dhclient.c:2341-2425 | the multiset of leases over the active slot and the list is conserved for every script outcome |
| Panic.SearchMeans | dhcp-4.3.6-P1/client/dhclient.c:2341-2425 | the client is bound to the first lease, in the order tried, that has not expired and that the script accepts; and if it is not bound there is none |
| Panic.ActivateNext | dhcp-4.3.6-P1/client/dhclient.c:2406-2424 | one rotation step, and when it has come around |
| Client4Runs.StepKeeps | dhcp-4.3.6-P1/client/dhclient.c:1052-1503 | every offer, acknowledgement, NAK or timer finds the lease its handler looks into, and keeps the timers of other arguments apart from the DNS update timeout that binding a lease sets; exactly one timer of the client is then pending, the one that the state fixes, and BOUND, RENEWING and REBOOTING have an active lease, if and only if the event is not an acknowledgement without lease time; the program ends only with -1 or without a working medium |
| Client4Runs.RunKeeps | dhcp-4.3.6-P1/client/dhclient.c:1874-2004 | the same for every state of every run: other arguments keep their timers apart from the DNS update timeouts set on the way |
| Client4Runs.StartSettles | dhcp-4.3.6-P1/client/dhclient.c:785-807 | the start of the client, delayed or not, establishes it |
| Client4Runs.ZeroAckLeavesTwoTimers | dhcp-4.3.6-P1/client/dhclient.c:1281-1300 | an acknowledgement without lease time followed by one with it leaves the timers of state_init and state_bound both pending |
| Client4Settles.SendRequestSettles | dhcp-4.3.6-P1/client/dhclient.c:2458-2640 | from a state without timers, send_request leaves one timer and the state that fixes it |
| Client4Settles.SendDiscoverSettles | dhcp-4.3.6-P1/client/dhclient.c:2211-2334 | so does send_discover, by way of state_panic if need be |
| Client4Settles.StatePanicSettles | dhcp-4.3.6-P1/client/dhclient.c:2341-2456 | so does state_panic |
| Client4Settles.StateSelectingSettles | dhcp-4.3.6-P1/client/dhclient.c:1131-1211 | so does state_selecting, for BOOTP offers too |
| Client4Settles.BindLeaseSettles | dhcp-4.3.6-P1/client/dhclient.c:1385-1458 | so does bind_lease, whether or not the script declines the address; the DNS update timeout that it may set is the only timer of another argument that changes |
| Client4Settles.BoundSettles | dhcp-4.3.6-P1/client/dhclient.c:1438-1457 | an accepted lease is bound with the timer of state_bound alone and, if forward updates are configured, a DNS update timeout for its control block |
| Client4Settles.DhcpOfferSettles | dhcp-4.3.6-P1/client/dhclient.c:1874-2004 | an offer is recorded once, and the selection timer replaces the discover timer |
| Client4Settles.DhcpAckSettles | dhcp-4.3.6-P1/client/dhclient.c:1216-1383 | an acknowledgement with lease time keeps the invariant, and the timers of other arguments apart from that DNS update timeout |
| Client4Settles.DhcpNakSettles | dhcp-4.3.6-P1/client/dhclient.c:2132-2205 | so does a NAK |
| Client4Settles.SendRequestLeads | dhcp-4.3.6-P1/client/dhclient.c:2458-2640 | a request leaves the client in its state with the next request's timer, or in SELECTING; in RENEWING it stays exactly until the lease has expired; leases stay as they are |
| Client4Settles.StateInitLeads | dhcp-4.3.6-P1/client/dhclient.c:1105-1124 | starting over leads to SELECTING, the time counted anew, with the leases as they were |
| Client4Leads.RequestLeads | dhcp-4.3.6-P1/client/dhclient.c:2458-2640 | a request is sent exactly while a new lease or one after a restart is not past the reboot timeout, a lease has not expired and its medium works; the next one comes after the backoff, or in the second after expiry if that is earlier; otherwise the client starts over |
| Client4Leads.RebootLeads | dhcp-4.3.6-P1/client/dhclient.c:1052-1100 | the client enters REBOOTING if and only if it has a lease from a DHCP server that has not expired and whose medium is none or works; it then asks for that address, counting from now, with the request timer alone; otherwise it starts over |
| Client4Leads.BoundLeads | dhcp-4.3.6-P1/client/dhclient.c:1466-1503 | at the renewal time the client enters RENEWING, counting from now and with the first interval, if and only if the lease has not expired, and else starts over |
| Client4Leads.StartOverLeads | dhcp-4.3.6-P1/client/dhclient.c:1105-1124 | starting over: SELECTING, counting from now, asking for the address of the active lease if there is one |
| Client4Leads.DiscoverLeads | dhcp-4.3.6-P1/client/dhclient.c:2211-2334 | up to the panic timeout the client ends only if no medium works; the next discover comes after the interval, or in the second after the timeout if that is earlier; the interval grows unless another medium of the list is tried |
| Client4Leads.Panics | dhcp-4.3.6-P1/client/dhclient.c:2222-2229 | past the timeout it is state_panic that decides |
| Client4Leads.PanicLeads | dhcp-4.3.6-P1/client/dhclient.c:2341-2456 | after the timeout: bound to the first usable lease until its renewal time, or renewing it at once; without one the program ends if told to try once, and else sleeps |
| Client4Leads.PauseMeans | dhcp-4.3.6-P1/client/dhclient.c:2440-2456 | the sleep is between a half and one and a half times the retry interval |
| Client4Leads.BackoffMeans | dhcp-4.3.6-P1/client/dhclient.c:2261-2281 | the interval is the initial one first, then grows up to threefold, and past the cutoff is drawn around it |
| Client4Leads.BackoffTotal | dhcp-4.3.6-P1/client/dhclient.c:2261-2281 | every interval up to threefold can be drawn |
| Client4Leads.CutoffTotal | dhcp-4.3.6-P1/client/dhclient.c:2261-2281 | and every one around the cutoff |
| Client4Leads.AnyMicrosecond | dhcp-4.3.6-P1/client/dhclient.c:2323-2333 | a message more than a second away can come at any microsecond of its second |
| Client4Leads.NextSecond | dhcp-4.3.6-P1/client/dhclient.c:2323-2333 | one at most a second away comes after exactly that time |
| Client4Leads.NextInRest | dhcp-4.3.6-P1/client/dhclient.c:2231-2258 | the medium tried next is the first working one behind the current one |
| Client4Leads.StartedOver | dhcp-4.3.6-P1/client/dhclient.c:2240-2247 | at the end of the list its head is tried again, and then the interval grows |
| Client4Leads.NoMediumIff | dhcp-4.3.6-P1/client/dhclient.c:2231-2258 | the program ends for lack of a medium if and only if none behind the current one works and there is one, or if there is none behind it and none of the list works; so it can end although a medium in front of the current one works |
| Client4Leads.BindLeads | dhcp-4.3.6-P1/client/dhclient.c:1385-1458 | a lease that the script takes is active and BOUND until its renewal time, and the DNS update is due exactly one second later if configured; otherwise the client ends or starts over |
| Client4Leads.AckLeads | dhcp-4.3.6-P1/client/dhclient.c:1216-1383 | an acknowledgement is listened to only by an asking client, which is then bound to that address with the times that the server sent |
| Client4Offers.OfferRecorded | dhcp-4.3.6-P1/client/dhclient.c:1940-2003 | an offer of a new address is added to the others, none lost, and the selection is due when the selection interval has passed since the first discover |
| Client4Offers.OfferIgnored | dhcp-4.3.6-P1/client/dhclient.c:1896-1949 | a client that does not select, or has the address, passes it over |
| Client4Offers.LateOfferDecides | dhcp-4.3.6-P1/client/dhclient.c:1985-1998 | an offer after the interval is decided at once, together with those before it |
| Client4Offers.SelectLeads | dhcp-4.3.6-P1/client/dhclient.c:1131-1211 | of several offers the head is taken: its address is requested, counting from now, or bound if it is from a BOOTP server |
| Client4Offers.RequestedPreferred | dhcp-4.3.6-P1/client/dhclient.c:1962-1983 | if the address that the client asked for was offered at all, it is the one requested |
| Client4Offers.RunInOrder | dhcp-4.3.6-P1/client/dhclient.c:1890-2003 | in every state of every run no address was recorded twice, and the address asked for stands at the head if it was offered |
| Client4Offers.FireLeads | dhcp-4.3.6-P1/client/dhclient.c:1052-1503 | where each timer leads from any state |
| Client4Offers.FireSelectLeads | dhcp-4.3.6-P1/client/dhclient.c:1131-1211 | the selection timer leads to a request for the head of the offers |
| Client4Offers.FireRebootLeads | dhcp-4.3.6-P1/client/dhclient.c:1052-1100 | the start timer leads to REBOOTING under the exact condition of state_reboot |
| Client4Offers.FireDiscoverLeads | dhcp-4.3.6-P1/client/dhclient.c:2211-2334 | the discover timer leads to the next discover, after the backoff or in the second after the timeout |
| Client4Handlers.ClientState.SendDiscover | dhcp-4.3.6-P1/client/dhclient.c:2211-2334 | from SELECTING without a timer the method leaves one timer, fixed by the new state, and other arguments' timers alone; fields and table are those of Client4.SendDiscover, through the mutual recursion of the handlers |
| Client4Handlers.ClientState.StatePanic | dhcp-4.3.6-P1/client/dhclient.c:2341-2456 | from a client without timers the method leaves one timer, fixed by the new state; it takes over the lease found by the search, ends, or sleeps, as the function says |
| Client4Handlers.ClientState.SendRequest | dhcp-4.3.6-P1/client/dhclient.c:2458-2640 | from an asking client without timers the method leaves one timer, fixed by the new state, which is the old one or SELECTING; the active lease stays |
| Client4Handlers.ClientState.StateInit | dhcp-4.3.6-P1/client/dhclient.c:1105-1124 | from a client without timers the method leaves one timer; the state is SELECTING, the time counted from now, the leases untouched |
| Client4Handlers.ClientState.StateReboot | dhcp-4.3.6-P1/client/dhclient.c:1052-1100 | from a client without timers the method leaves one timer; REBOOTING is entered if and only if there is an unexpired lease of a DHCP server whose medium is none or works, and SELECTING otherwise; the address of the active lease is asked for, counting from now |
| Client4Handlers.ClientState.StateBound | dhcp-4.3.6-P1/client/dhclient.c:1466-1503 | from a client without timers the method leaves one timer; the state is RENEWING exactly if the active lease has not expired, and SELECTING otherwise |
| Client4Handlers.ClientState.StateSelecting | dhcp-4.3.6-P1/client/dhclient.c:1131-1211 | with no timers but those of selecting and discovering, the method leaves one timer, fixed by the new state; the loop over the offers takes the first |
| Client4Handlers.ClientState.BindLease | dhcp-4.3.6-P1/client/dhclient.c:1385-1458 | from a client without timers, with a lease in its own structure, the method leaves one timer and at most a DNS update timeout besides; the lease is active and the state BOUND if the script takes it, and else the client ends or is SELECTING with the old active lease |
| Client4Handlers.ClientState.DhcpOffer | dhcp-4.3.6-P1/client/dhclient.c:1874-2004 | the invariant of the running client is kept; the search for a duplicate and the place in the list are those of Client4.DhcpOffer |
| Client4Handlers.ClientState.DhcpAck | dhcp-4.3.6-P1/client/dhclient.c:1216-1383 | with a lease time the invariant is kept; the lease times are computed in 32 bits |
| Client4Handlers.ClientState.DhcpNak | dhcp-4.3.6-P1/client/dhclient.c:2132-2205 | the invariant is kept; an asking client with an active lease drops it and is SELECTING with the other leases kept, and any other client does not change at all |
| Client4Handlers.ClientState.TimerCallback | dhcp-4.3.6-P1/common/dispatch.c:138-192 | a timer's entry is unlinked, then its function runs |
| Client4Handlers.ClientState.Handle | dhcp-4.3.6-P1/client/dhclient.c:1052-1503 | every event keeps the invariant of the running client, exactly if it is not an acknowledgement without lease time |
| Client4Handlers.TryMedia | dhcp-4.3.6-P1/client/dhclient.c:2231-2258 | the loop over the media ends, with the next medium that works or with none |
| Relinquish.GivenUpInTime | dhcp-4.3.6-P1/client/dhclient.c:2506-2554 | in every configuration, with timers that are merely not early, an unanswered renewal ends with the first wake-up after the expiry and never before, and less than two seconds after the expiry and what that wake-up is late |
| Relinquish.GivenUp | dhcp-4.3.6-P1/client/dhclient.c:2506-2531 | send_request leaves RENEWING exactly when the lease has expired, and then starts over |
| Relinquish.GoesOn | dhcp-4.3.6-P1/client/dhclient.c:2533-2554 | until then the next request has its time, whatever is drawn |
| Relinquish.UnboundedIff | dhcp-4.3.6-P1/client/dhclient.c:2533-2547 | a client that starts to renew can send any number of requests before the lease expires if and only if the initial interval is zero, or the cutoff one and the initial interval above one |
| Relinquish.PacedBounds | dhcp-4.3.6-P1/client/dhclient.c:2533-2554 | with any other configuration at most two requests per second of the remaining lease time are sent, however late the wake-ups are |
| Relinquish.TickingClockBounds | dhcp-4.3.6-P1/client/dhclient.c:2533-2554 | in every configuration the number is bounded if the clock moves on between any two wake-ups |
| Relinquish.Relinquished | dhcp-4.3.6-P1/client/dhclient.c:2458-2554 | with a paced configuration and punctual timers, a lease that is never renewed is given up in the second after its expiry, after a bounded number of requests |
| Relinquish.BoundUntilRenewal | dhcp-4.3.6-P1/client/dhclient.c:1438-1503 | a bound client has no timer but the one for its renewal time; in that second it enters RENEWING exactly if the lease has not expired |
| Relinquish.BoundPastExpiry | dhcp-4.3.6-P1/client/dhclient.c:1438-1503 | with a renewal time past the expiry, no timer acts before the renewal time, and the client stays BOUND to the expired lease until then |
| Relinquish.AcknowledgedInOrder | dhcp-4.3.6-P1/client/dhclient.c:1305-1380 | which can not be when the server sent no T2 or one within the lease time: renewal, rebinding and expiry are in order |
| Relinquish.TimerSecond | dhcp-4.3.6-P1/client/dhclient.c:2636-2639 | a timer comes in the second it is set for, whatever microseconds are drawn |
| Retrans6.Rand | dhcp-4.3.6-P1/client/dhc6.c:258-298 | the deviation is within a tenth of the base; a base that is not positive ends the program |
| Retrans6.DeviationTotal | dhcp-4.3.6-P1/client/dhc6.c:258-298 | every deviation within the limits can be drawn |
| Retrans6.Retransmission.RetransInit | dhcp-4.3.6-P1/client/dhc6.c:301-325 | the first waiting time is the initial one plus a deviation |
| Retrans6.InitBegins | dhcp-4.3.6-P1/client/dhc6.c:301-325 | with it the exchange is one that the run theorems speak of |
| Retrans6.Retransmission.SolicitRT | dhcp-4.3.6-P1/client/dhc6.c:1476-1486 | the first Solicit waits strictly longer than the initial timeout |
| Retrans6.SolicitBegins | dhcp-4.3.6-P1/client/dhc6.c:1476-1486 | with that first wait the exchange is one that the run theorems speak of, if the initial timeout is below the maximum |
| Retrans6.Retransmission.RetransAdvance | dhcp-4.3.6-P1/client/dhc6.c:328-404 | the arithmetic on seconds and microseconds yields a wait within a tenth of twice the old one while that is surely within MRT, within a tenth of MRT when twice the old one is surely beyond, one of both in between, and the rest of MRD rounded up to a hundredth of a second exactly when the wait would reach its end |
| Retrans6.Retransmission.CheckTiming | dhcp-4.3.6-P1/client/dhc6.c:1623-1687 | when the count or the duration is exceeded, and the value of the elapsed-time option |
| Retrans6.Retransmission.Transmit | dhcp-4.3.6-P1/client/dhc6.c:2152-2161 | one wake-up: check, next wake-up and next waiting time |
| Retrans6.RunSound | dhcp-4.3.6-P1/client/dhc6.c:328-404 | in no run with timers that are not early is a deviation taken from a base that is not positive; every wait is at most MRT + (MRT-1)/10; at most MRC+1 messages are sent |
| Retrans6.NextBacksOff | dhcp-4.3.6-P1/client/dhc6.c:328-404 | the same of every next waiting time |
| Retrans6.SentGrows | dhcp-4.3.6-P1/client/dhc6.c:355-375 | until MRT or MRD is reached every wait is more than 19/10 and less than 21/10 of the one before |
| Retrans6.RunGrows | dhcp-4.3.6-P1/client/dhc6.c:328-404 | so in every run the n-th wait is at least (19/10)^n times the first |
| Retrans6.StaysAtMax | dhcp-4.3.6-P1/client/dhc6.c:364-375 | a wait about MRT is followed by another, unless MRD cuts in |
| Retrans6.RunEnds | dhcp-4.3.6-P1/client/dhc6.c:1623-1653 | in every run another message is sent if and only if at most MRC were sent again and MRD has not passed since the first |
| Retrans6.RunFinite | dhcp-4.3.6-P1/client/dhc6.c:1649-1653 | with a maximum duration at most 100 messages per second of it are sent |
| Retrans6.RunEndsInTime | dhcp-4.3.6-P1/client/dhc6.c:383-402 | with punctual timers and a first wait below MRD, the wake-up that ends the exchange is within 10 ms after MRD |
| Select6.InsertLease | dhcp-4.3.6-P1/client/dhc6.c:1352-1369 | a lease takes the place of the first one of the same server, or the end; server identifiers stay distinct |
| Select6.ScoreLease | dhcp-4.3.6-P1/client/dhc6.c:1405-1450 | the score, cached if there is one |
| Select6.ScoreOfNothing | dhcp-4.3.6-P1/client/dhc6.c:1416-1417 | a lease starts with one point |
| Select6.ScoreStays | dhcp-4.3.6-P1/client/dhc6.c:1413-1414 | a score given before is kept |
| Select6.ScoreOfOption | dhcp-4.3.6-P1/client/dhc6.c:1431-1439 | an option asked for counts one point if the lease has it |
| Select6.ScoreOfBinding | dhcp-4.3.6-P1/client/dhc6.c:1441-1447 | a binding counts 10000 points and each of its addresses 100 |
| Select6.ScoreOfRequired | dhcp-4.3.6-P1/client/dhc6.c:1418-1429 | a required option that is missing takes all points away, and one that is there none |
| Select6.ScoreMinMeans | dhcp-4.3.6-P1/client/dhc6.c:1391-1403 | which leases reach the minimum score: those with an address, but also those with two bindings without any |
| Select6.BestLease | dhcp-4.3.6-P1/client/dhc6.c:3336-3423 | the selected lease is the one left by the comparisons in order, and it alone leaves the list |
| Select6.LeaderIsTop | dhcp-4.3.6-P1/client/dhc6.c:3336-3423 | without a conflict it is the unique maximum by minimum score, preference, score and server identifier |
| Select6.TopMeans | dhcp-4.3.6-P1/client/dhc6.c:3387-3412 | field by field: it reaches the minimum score if any does, and on its side none is preferred to it, then none scores higher, then none has a shorter, then none a lower server identifier |
| Select6.OneSided | dhcp-4.3.6-P1/client/dhc6.c:3387-3412 | with all scores on one side of the minimum there is no conflict, and the maximum is by preference, score, and shorter, then lower server identifier |
| Select6.OrderIndependent | dhcp-4.3.6-P1/client/dhc6.c:3336-3423 | without a conflict the order of arrival has no influence |
| Select6.OrderDependent | dhcp-4.3.6-P1/client/dhc6.c:3387-3392 | with one (some lease below the minimum is preferred to every lease above it) two orders of arrival lead to different leases |
| Merge6.MergeLease | dhcp-4.3.6-P1/client/dhc6.c:4652-4722 | the bindings are merged in order; the score is reset exactly when they changed, and nothing else changes |
| Merge6.MergeKeeps | dhcp-4.3.6-P1/client/dhc6.c:4652-4722 | every destination IA stays in its place with its addresses in order; new addresses come in front, new IAs behind |
| Merge6.MergeCovers | dhcp-4.3.6-P1/client/dhc6.c:4652-4722 | every source IA is there afterwards, and every one of its addresses, by address, or by address and length for prefixes |
| Merge6.MergeInventsNothing | dhcp-4.3.6-P1/client/dhc6.c:4652-4722 | every address was there or is one of a source IA of the same type and identifier, and new IAs are copies of source IAs |
| Merge6.MergeDistinct | dhcp-4.3.6-P1/client/dhc6.c:4652-4722 | types and identifiers stay distinct if they were |
| Merge6.MergeTwice | dhcp-4.3.6-P1/client/dhc6.c:4652-4722 | merging the same source again changes nothing, not even the score |
| Merge6.FindIA | dhcp-4.3.6-P1/client/dhc6.c:4584-4598 | the first IA of that type and identifier |
| Merge6.FindAddr | dhcp-4.3.6-P1/client/dhc6.c:4600-4632 | whether an address, or a prefix of that length, is in the list |
| Expire6.Client6.DoExpire | dhcp-4.3.6-P1/client/dhc6.c:5173-5262 | an expiry event marks, sweeps and schedules as the functions say |
| Expire6.Client6.CheckTimes | dhcp-4.3.6-P1/client/dhc6.c:4358-4582 | the expiry and preference timers are set for the earliest times below MAX_TIME; renew and rebind timers and the durations of the exchanges are set from the scan by the state, with the fatal case; or the lease is dropped without timers when no address is left |
| Refresh6.RenewsByServer | dhcp-4.3.6-P1/client/dhc6.c:4437-4526 | where the server sent T1 and T2 with all IAs but temporary ones, a bound client renews at the latest start plus the least T1 if that lies before the latest start plus the least T2 and this is still to come, and else rebinds at the latter |
| Refresh6.RebindsByServer | dhcp-4.3.6-P1/client/dhc6.c:4527-4544 | a renewing client rebinds at the latest start plus the least T2 and asks until then |
| Refresh6.RenewReached | dhcp-4.3.6-P1/client/dhc6.c:4451-4461 | the renew period is that of some IA |
| Refresh6.RebindReached | dhcp-4.3.6-P1/client/dhc6.c:4463-4471 | and so is the rebind period |
| Refresh6.DefaultPeriods | dhcp-4.3.6-P1/client/dhc6.c:4421-4471 | a time that the server left open is a half, or three quarters, of the lifetime that counts: until the earliest end, or the latest if that is at least twice as long, or what the user wants if that is infinite or next to nothing |
| Refresh6.TimesBound | dhcp-4.3.6-P1/client/dhc6.c:4380-4419 | all unexpired addresses of an IA end between the two times that the scan finds |
| Refresh6.EarliestReached | dhcp-4.3.6-P1/client/dhc6.c:4380-4419 | of which the first is the end of one |
| Refresh6.LatestReached | dhcp-4.3.6-P1/client/dhc6.c:4380-4419 | and the last too |
| Refresh6.RebindingLasts | dhcp-4.3.6-P1/client/dhc6.c:4533-4553 | rebinding does not end before any address does |
| Refresh6.RebindingEnds | dhcp-4.3.6-P1/client/dhc6.c:4546-4553 | and ends with one, or with the start of an IA |
| Refresh6.ExpiryTimerLeast | dhcp-4.3.6-P1/client/dhc6.c:4575-4581 | the expiry timer is set, and not later than any unexpired address ends |
| Refresh6.ExpiryTimerReached | dhcp-4.3.6-P1/client/dhc6.c:4575-4581 | and for the end of one: its start plus its valid lifetime |
| Refresh6.DeprefTimerLeast | dhcp-4.3.6-P1/client/dhc6.c:4567-4574 | the preference timer is not later than the end of any preferred lifetime |
| Refresh6.DeprefTimerReached | dhcp-4.3.6-P1/client/dhc6.c:4567-4574 | and for the end of one |
| Refresh6.FatalIff | dhcp-4.3.6-P1/client/dhc6.c:4555-4562 | in another state the program ends if and only if an address is neither expired nor out of its preferred lifetime |
| Refresh6.ExpireKeepsIff | dhcp-4.3.6-P1/client/dhc6.c:5173-5262 | after an expiry event a lease is left if and only if some address was still live |
| Refresh6.KeptIff | dhcp-4.3.6-P1/client/dhc6.c:4495-4502 | the scheduling keeps a lease if and only if it has an unexpired address |
| Expire6.OneRefreshTimer | dhcp-4.3.6-P1/client/dhc6.c:4501-4563 | for every lease, state and time: never both a renew and a rebind timer; renewal is timed only in BOUND, before a rebinding time still to come, which bounds it; rebinding exactly at its time; and a bound or renewing client has neither only if it never rebinds |
| Expire6.ScannedLeast | dhcp-4.3.6-P1/client/dhc6.c:4437-4471 | the renew and rebind periods are not larger than those of any IA but temporary ones, and count from a start not before any of theirs |
| Expire6.DefaultsOrdered | dhcp-4.3.6-P1/client/dhc6.c:4421-4471 | where the server left both open, an IA is renewed before it is rebound, and rebound before the addresses expire that the interval is taken from |
| Expire6.Scan | dhcp-4.3.6-P1/client/dhc6.c:4380-4484 | the loop over all IAs finds the earliest expiry and end of preference, and whether an address is left |
| Expire6.Client6.DoDepref | dhcp-4.3.6-P1/client/dhc6.c:5120-5168 | an event for the end of preferred lifetimes likewise |
| Expire6.ScanAddrs | dhcp-4.3.6-P1/client/dhc6.c:4380-4419 | the scan with times relative to the start of the IA finds the earliest absolute time |
| Expire6.Marked | dhcp-4.3.6-P1/client/dhc6.c:5191-5202 | an address is marked exactly once its start plus valid lifetime has passed, and changed in no other way |
| Expire6.SweptKeeps | dhcp-4.3.6-P1/client/dhc6.c:5189-5246 | no IA with a live address is removed |
| Expire6.SweptFrom | dhcp-4.3.6-P1/client/dhc6.c:5189-5246 | every IA that is left has a live address and is an old one with its addresses marked |
| Expire6.NextInFuture | dhcp-4.3.6-P1/client/dhc6.c:4575-4581 | after an expiry event the next one is strictly in the future |
| Expire6.NextLeast | dhcp-4.3.6-P1/client/dhc6.c:4380-4484 | the scheduled time is not later than any remaining expiry |
| Expire6.NextReached | dhcp-4.3.6-P1/client/dhc6.c:4380-4484 | and it is the expiry of some address |
| Expire6.ExpireStep | dhcp-4.3.6-P1/client/dhc6.c:5173-5262 | every expiry event that is not early makes an address expire |
| Expire6.RunBounded | dhcp-4.3.6-P1/client/dhc6.c:5173-5262 | between refreshes n addresses cause at most n expiry events and at most n events for the end of preferred lifetimes |
| Expire6.TimerNotEarly | dhcp-4.3.6-P1/common/dispatch.c:252-288 | a timer below MAX_TIME does not come early |
| Expire6.Wrong32BitsIff | dhcp-4.3.6-P1/client/dhc6.c:5191-5202 | with a TIME of 32 bits the test for expiry is right, from the start of an address on, exactly if start and valid lifetime add up to less than 2^32; an infinite lifetime has then passed at once |
| Iaid6.CreateIaid | dhcp-4.3.6-P1/client/dhc6.c:1702-1735 | the candidate: the last four bytes of the hardware address, the last byte counted up modulo 256 |
| Iaid6.CandidateOfTail | dhcp-4.3.6-P1/client/dhc6.c:1702-1735 | of a hardware address only the last four bytes count: three of them stand in every candidate, and the last is counted up |
| Iaid6.CandidateOfShort | dhcp-4.3.6-P1/client/dhc6.c:1715-1726 | a shorter one is filled up with zeros |
| Iaid6.BareIA | dhcp-4.3.6-P1/client/dhc6.c:1755-1835 | the loop ends exactly if none is wanted or some candidate is unused; then all new identifiers are unused candidates, and they are distinct exactly if enough candidates are unused |
| Iaid6.NeverFree | dhcp-4.3.6-P1/client/dhc6.c:1755-1835 | without an unused candidate every identifier that the loop ever tries is in use, so that it does not end |
| Iaid6.AddIA | dhcp-4.3.6-P1/client/dhc6.c:3630-3806 | the IAs of the lease, up to the number wanted, in order and with their live addresses; it fails exactly on one without addresses |
| Iaid6.SelectedMeans | dhcp-4.3.6-P1/client/dhc6.c:3648-3690 | each IA in the message is one of the lease, under its own type and identifier, and asks only for live addresses of it |
| Iaid6.SelectedAll | dhcp-4.3.6-P1/client/dhc6.c:3648-3690 | if fewer IAs are there than wanted, or all are wanted, all of the type are in it |
| Iaid6.AskedMeans | dhcp-4.3.6-P1/client/dhc6.c:3692-3760 | the addresses asked for are exactly the unexpired ones of 16 bytes |
| Iaid6.AskedInOrder | dhcp-4.3.6-P1/client/dhc6.c:3692-3760 | in their order |
| Iaid6.RefreshIAs | dhcp-4.3.6-P1/client/dhc6.c:5038-5053 | for any number wanted: when the loop of a Renew or Rebind ends it carries exactly that number of IAs, those of the lease first; with distinct identifiers in the lease, its identifiers are distinct exactly if enough candidates are unused; for up to 256 it always ends and they always are |
| Iaid6.EnoughFree | dhcp-4.3.6-P1/client/dhc6.c:1755-1835 | every identifier in use takes away at most one of the 256 candidates |
| Iaid6.AtMostFree | dhcp-4.3.6-P1/client/dhc6.c:1755-1835 | no list of distinct unused candidates is longer than their number |
| LeaseFile.WriteLease | dhcp-4.3.6-P1/client/dhclient.c:3564-3717 | the writer's loops produce the tokens of the lease |
| LeaseFile.WriteThenRead | dhcp-4.3.6-P1/client/clparse.c:1372-1609 | what the writer's loops produce, the reader's loops read back as the same lease, with nothing left over, if and only if the lease has nothing that the text does not keep and its numbers are read right |
| LeaseFile.ReadLease | dhcp-4.3.6-P1/client/clparse.c:1372-1609 | whatever the tokens are, only a lease that the text can keep is read; with its errors the reader is the function ParseLease on all token sequences |
| LeaseFile.ReadIA | dhcp-4.3.6-P1/client/clparse.c:1614-1972 | likewise for ia-na, ia-ta and ia-pd statements: an IA with four bytes of identifier and what the text keeps of it |
| LeaseFile.ReadAddr | dhcp-4.3.6-P1/client/clparse.c:1977-2080 | likewise for iaaddr |
| LeaseFile.ReadIaPrefix | dhcp-4.3.6-P1/client/clparse.c:2085-2188 | likewise for iaprefix |
| LeaseFile.ReadPrefix | dhcp-4.3.6-P1/common/parse.c:442-477 | likewise for a prefix: only one whose length is in range and that has no bits below it is read |
| LeaseFile.SkipTokens | dhcp-4.3.6-P1/common/parse.c:94-133 | skipping over balanced braces to a closing brace or semicolon leaves a suffix of the text |
| LeaseRoundTrip.RoundTrip | dhcp-4.3.6-P1/client/clparse.c:1372-2188 | for any lease with times in 0..2^31-1 and any order of its options, reading what was written gives the same lease for the unnamed client of the interface, and leaves what follows, if and only if the lease has an IA, the identifier of its server, nothing the text does not keep, only valid prefixes, and numbers that atoi reads right |
| LeaseRoundTrip.ReadBack | dhcp-4.3.6-P1/client/dhclient.c:3564-3717 | what is read back of a lease with that shape: the same ordered IAs, addresses, prefixes, options and flags, numbers as atoi reads them |
| LeaseRoundTrip.ParseLeaseShape | dhcp-4.3.6-P1/client/clparse.c:1372-2188 | no token sequence at all is read as a lease without that shape |
| LeaseRoundTrip.NumbersReadRight | dhcp-4.3.6-P1/client/clparse.c:1664-1695 | lifetimes and renewal times up to 2^31-1 are read right |
| LeaseRoundTrip.InvalidPrefixTakesNext | dhcp-4.3.6-P1/client/clparse.c:2100-2105 | a prefix with an invalid length or mask is lost, and so is the prefix behind it, because the statement is skipped twice |
| LeaseErrors.UnknownInLease | dhcp-4.3.6-P1/client/clparse.c:1533-1537 | an unknown statement of a lease is passed over, and nothing else |
| LeaseErrors.UnknownBlockInLease | dhcp-4.3.6-P1/client/clparse.c:1533-1537 | also one with a block |
| LeaseErrors.UnknownInIA | dhcp-4.3.6-P1/client/clparse.c:1954-1958 | the same in an IA |
| LeaseErrors.UnknownInAddr | dhcp-4.3.6-P1/client/clparse.c:2062-2066 | in an address it makes the reader pass over the rest of the address and read on behind its brace as if in it, which does no harm only at the end of the text |
| LeaseErrors.MissingNumber | dhcp-4.3.6-P1/client/clparse.c:2042-2051 | a statement without its number is passed over |
| LeaseErrors.MissingSemi | dhcp-4.3.6-P1/common/parse.c:135-150 | one without its semicolon takes the next with it |
| LeaseErrors.MissingBlock | dhcp-4.3.6-P1/client/clparse.c:1999-2005 | a lease, IA or address statement without its block is passed over |
| LeaseErrors.WrongIaid | dhcp-4.3.6-P1/client/clparse.c:1632-1641 | and so is an IA whose identifier is not of four bytes |
| LeaseErrors.PrefixWithoutLength | dhcp-4.3.6-P1/common/parse.c:442-477 | a prefix without slash or length takes the statement behind it with it |
| LeaseErrors.BadAddressTakesNext | dhcp-4.3.6-P1/client/clparse.c:1985-1998 | without an address the statement behind an iaaddr statement is lost too |
| LeaseErrors.BadIaidTakesNext | dhcp-4.3.6-P1/client/clparse.c:1632-1641 | and that behind an IA without an identifier |
| LeaseErrors.NameRead | dhcp-4.3.6-P1/client/clparse.c:1483-1526 | a name picks the client of that name of the interface, or none |
| LeaseErrors.InterfacePicked | dhcp-4.3.6-P1/client/clparse.c:1452-1480 | the first known interface is the lease's, and others are passed over |
| LeaseErrors.AbandonedIsReleased | dhcp-4.3.6-P1/client/clparse.c:1528-1531 | an abandoned lease counts as released |
| LeaseErrors.AcceptedIff | dhcp-4.3.6-P1/client/clparse.c:1551-1609 | a lease is taken over if and only if it has an IA, an interface with its client, the identifier of its server, and no preference or one of one byte |
| LeaseErrors.AcceptedMeans | dhcp-4.3.6-P1/client/clparse.c:1572-1609 | for that client, with server and preference from its options |
| LeaseRoundTrip.WrittenIA | dhcp-4.3.6-P1/client/dhclient.c:3630-3653 | the tokens with which an IA is written |
| LeaseRoundTrip.WrittenAddr | dhcp-4.3.6-P1/client/dhclient.c:3655-3680 | an address |
| LeaseRoundTrip.WrittenPrefix | dhcp-4.3.6-P1/client/dhclient.c:3655-3680 | and a prefix |
| DdnsBlocks.ControlBlock.ModifyFwd | dhcp-4.3.6-P1/common/dns.c:2090-2261 | whatever records the name has, the message for the state succeeds exactly under the condition of that stage and then changes the name as the stage is meant to; there is none exactly for an address of another length or when nothing is left to be done |
| DdnsBlocks.ControlBlock.BuildAdd1 | dhcp-4.3.6-P1/common/dns.c:1727-1776 | the message of the first stage succeeds exactly if the name has no record, or with DDNS_INCLUDE_RRSET no address of the type, and adds address and identity and nothing else |
| DdnsBlocks.ControlBlock.BuildAdd2 | dhcp-4.3.6-P1/common/dns.c:1806-1875 | that of the second succeeds exactly if the identity RRset is the client's alone, or always with conflict override, and replaces the addresses of its type |
| DdnsBlocks.ControlBlock.UpdateAction | dhcp-4.3.6-P1/client/dhclient.c:4780-4838 | upon an answer the second stage follows if and only if the first was answered YXRRSET, and else nothing; a timeout, and only that, leads back to the first stage, forgets name, identity and zone, and sets the retry timer to ten times the pause before while that is below an hour |
| DdnsBlocks.ControlBlock.Retry | dhcp-4.3.6-P1/client/dhclient.c:4726-4749 | when the retry timer runs out the block is whole again, with the name and identity looked up anew and everything else as it was |
| DdnsBlocks.ControlBlock.RemoveAction | dhcp-4.3.6-P1/client/dhclient.c:4602-4623 | the second stage of a removal follows if and only if the first succeeded |
| DdnsMessages.Add1Does | dhcp-4.3.6-P1/common/dns.c:1727-1776 | under section 3 of RFC 2136: when the first stage succeeds, what it adds, and that it deletes nothing |
| DdnsMessages.Add2Does | dhcp-4.3.6-P1/common/dns.c:1806-1875 | the second stage succeeds exactly if the identity RRset is the client's alone, and replaces the addresses of its type |
| DdnsMessages.OverrideDoes | dhcp-4.3.6-P1/common/dns.c:1830-1852 | with conflict override it always succeeds, and identity and addresses of the type are replaced |
| DdnsMessages.Rem1Does | dhcp-4.3.6-P1/common/dns.c:1899-1931 | the same condition for a removal, which deletes one record |
| DdnsMessages.Rem2Does | dhcp-4.3.6-P1/common/dns.c:1946-1985 | the identity goes only when no address is left |
| DdnsMessages.MessageDoes | dhcp-4.3.6-P1/common/dns.c:2090-2261 | for every state the message does what the stage is for, on every set of records |
| DdnsSafety.StepKeeps | dhcp-4.3.6-P1/common/dns.c:1727-1985 | every message, answered or lost, keeps the adder's identity with every address record and deletes no other client's record |
| DdnsSafety.RunKeeps | dhcp-4.3.6-P1/common/dns.c:2214-2261 | so does every run of any number of clients in any order |
| DdnsSafety.SafeIff | dhcp-4.3.6-P1/common/dns.c:1727-1985 | no run harms another client's address record if and only if all clients use the same type of identity record or none sets DDNS_INCLUDE_RRSET |
| DdnsSafety.Harm | dhcp-4.3.6-P1/common/dns.c:1727-1875 | otherwise a run of seven events deletes one |
| DdnsProgress.RemovalLeaves | dhcp-4.3.6-P1/common/dns.c:1899-1985 | a removal answered twice takes the address off the client's own name, and the identity as well if no other address is left; another name stays as it is |
| DdnsProgress.RemovalCompletes | dhcp-4.3.6-P1/client/dhclient.c:4602-4623 | a client whose only records are its address and identity leaves an empty name |
| DdnsProgress.AdditionLeaves | dhcp-4.3.6-P1/common/dns.c:1727-1875 | an addition answered twice adds address and identity to a name without an address of the type, replaces those of the type on the client's own name, and leaves another name as it is |
| DdnsProgress.AdditionOnOwnName | dhcp-4.3.6-P1/client/dhclient.c:4780-4838 | on the client's own name exactly the new address of the type is left beside the identity and everything of other types |
| DdnsProgress.PlainAdditionLeaves | dhcp-4.3.6-P1/common/dns.c:1727-1776 | without DDNS_INCLUDE_RRSET only an empty name changes |
| DdnsProgress.LostAnswerMakesUp | dhcp-4.3.6-P1/client/dhclient.c:4811-4834 | a lost answer to the first stage, after the retry, makes no difference to the name |
| DdnsProgress.AddThenRemove | dhcp-4.3.6-P1/common/dns.c:1727-1985 | what is added to an empty name can be removed again |
| DataStrings.Memory.DataStringNew | dhcp-4.3.6-P1/common/alloc.c:1271-1317 | the new string, and that every count still equals the number of holders exactly if the old string held no buffer |
| DataStrings.Memory.DataStringCopy | dhcp-4.3.6-P1/common/alloc.c:1322-1334 | the same for copying into a string |
| DataStrings.Memory.DataStringForget | dhcp-4.3.6-P1/common/alloc.c:1339-1347 | forgetting a string gives up its buffer, freed if it was the last holder |
| DataStrings.Memory.DataStringTerminate | dhcp-4.3.6-P1/common/alloc.c:1382-1407 | the terminated string has the old bytes, which stay alive until they are copied; the old buffer loses one holder |
| DataStrings.Memory.BufferReference | dhcp-4.3.6-P1/common/alloc.c:698-724 | one holder and one reference more |
| DataStrings.Memory.BufferDereference | dhcp-4.3.6-P1/common/alloc.c:726-766 | one less; freed when none is left, and never below zero |
| DataStrings.RunOwnership | dhcp-4.3.6-P1/common/alloc.c:1271-1407 | over every run of operations every buffer counts its holders at every state; the number of times it was freed never goes down nor above one, and it goes up exactly in the step that takes the holders from one to none |
| DataStrings.RunSound | dhcp-4.3.6-P1/common/alloc.c:1271-1407 | every state of a run has right counts and no string into a freed buffer |
| DataStrings.NewContent | dhcp-4.3.6-P1/common/alloc.c:1271-1317 | a new string says what it was made of, but for a zero byte at the end, and a zero byte follows it |
| DataStrings.AfterSays | dhcp-4.3.6-P1/common/alloc.c:1271-1407 | what the string says after each operation: a copy the same as the original, a forgotten one nothing, a terminated one the same but for a zero byte at the end |
| DataStrings.OthersSayTheSame | dhcp-4.3.6-P1/common/alloc.c:1271-1407 | no operation changes what another string says |
| DataStrings.Memory.Perform | dhcp-4.3.6-P1/common/alloc.c:1271-1407 | each operation, as the methods carry it out, is a step of such a run |
| DataStrings.NewSound | dhcp-4.3.6-P1/common/alloc.c:1271-1317 | making a new string keeps the counts exactly when the string held no buffer |
| DataStrings.CopySound | dhcp-4.3.6-P1/common/alloc.c:1322-1334 | copying keeps the counts exactly when the target held no buffer |
| DataStrings.ForgetSound | dhcp-4.3.6-P1/common/alloc.c:1339-1347 | forgetting keeps the counts |

## Left out

- Sockets, packet filters, interface discovery, the contents of packets and options beyond the values used here.
- `script_go` and its environment; only its outcome is a parameter. Memory that can not be allocated, and null arguments
  that are only logged.
- The absolute time stored with a timeout (`common/dispatch.c:295-296`), replay of traces, and the lists of free entries.
- DHCPv4-over-DHCPv6, release, hibernation and the other control events; other states than those of the running client.
- `subnet_number`, `ip_addr`, `host_addr` and `broadcast_addr` of `common/inet.c`, each of which combines one address
  with one mask byte by byte, and the conversion of addresses from and to text.
- What `start_init6` does once a DHCPv6 lease has no address left, beyond dropping the lease and its timers.
- That some DHCPv6 timer is always pending, which the code does not ensure, and the distinctness of IAIDs in
  `do_select6`, where new IAs are not held against the selected lease.
- A maximum duration that changes during an exchange, as `do_refresh6` sets it.
- Conflict override in runs of DNS updates (`common/dns.c:1830-1852`): it takes names over on purpose. PTR updates, zones
  and keys. All runs are about one name; messages for other names do not touch it.
- The text of the lease file below tokens: an IAID, an IPv6 address and the rest of an option statement are one token each.
  An option statement that can not be parsed is skipped up to its end.
- Relinquish.GoesOn: only for a lease that ends before TIME_MAX, since the 32-bit clock does not pass the end of others.
- Packet.HeaderChangeRejected: leaves out changes of the header length, after which other bytes are summed up.
