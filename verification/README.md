# Personal VPN: a verified model of the tunnel protocol

This project models the protocol core of the VPN and proves what its parts promise together: the
server's and the client's session controllers, the lease manager they depend on, the frame format and
its incremental decoder, the write pumps and byte streams between the two ends, the router and session
registry, the client's runtime with its connection generations, and the transaction that configures the
client's host.

`dafny verify dfyconfig.toml` checks everything.

## How it is built

The code of the original is imperative, so every operation appears twice: as a function on values, which
the theorems are about, and as a method of a class with the original's fields and loops, proved to
compute that function. What such a function does is in turn pinned down by lemmas named `…Exactly`, which say
without it, in terms of packets, payloads, numbers and literal codes, what each operation does and when: for
the controllers in `ClientOutcomes` and `ServerOutcomes`, for the endpoints in `TunnelOutcomes`, for the pool
in `PoolOutcomes` and `Subnets`, for the formats in `Layouts`, and for the client's runtime in
`RuntimeOutcomes`. Objects are `FrameDecoder`, `LeaseManager`, `SessionController`,
`ClientSessionController`, `OutboundFrameQueue`, `TlsTunnelSession`, `TlsTunnelClient`, `TunnelRouter`,
`TlsTunnelServer`, `NetworkTransaction` and `ClientRuntime`.

Concurrency is a step system: each strand callback, handler or lock-protected call is one atomic step, and
runs are arbitrary sequences of steps. The layers are:

| files | layer |
|---|---|
| `Bytes`, `Wire`, `Decoder`, `Control`, `Packets`, `Broker`, `AddressText`, `Canonical`, `Layouts` | bytes, frames, payloads, text, their round trips and their layout byte by byte |
| `Leases`, `LeaseManager`, `Ledger`, `PoolOutcomes`, `Subnets` | the address pool, its object, its agreement with the copies sessions hold, and its arithmetic |
| `ServerSession`, `ClientSession`, `Controllers`, `ServerOutcomes`, `ClientOutcomes` | the two controllers as functions and as objects, and what exactly they do |
| `Fleet`, `FleetProperties`, `FleetIsolation` | any number of server sessions with arbitrary peers on one pool |
| `Router`, `TunnelServer`, `Registry` | route tables, router and registry objects, and the registry as a step system |
| `Transport`, `Tunnel`, `Pump`, `TunnelOutcomes`, `Endpoints` | queue, write pump, decoder and controller joined into endpoints, against arbitrary peers |
| `Dialogue`, `DialogueSteps`, `DialogueServer` | an honest client and an honest server exchanging whole frames |
| `LinkParts`, `Link`, `System`, `Acceptance` | the same over byte streams cut anywhere, many at once, among arbitrary other sessions |
| `Transaction`, `Runtime`, `RuntimeOutcomes`, `ClientRuntime` | host configuration with exact undo, and the client's reconnect generations |

The text of an ERROR, the clock, the outcome of system calls and the jitter of a delay are parameters that
may take any value. Identities are opaque non-empty strings.

## Where the code decides

- `acquire` gives up when the lowest free address derives the IPv6 gateway, even if higher addresses are
  free; the model does the same, with the exact condition and an example.
- The lease manager's constructor accepts a gateway that is the network or broadcast address, which the
  client refuses. `EveryOfferAcceptable` gives the exact condition under which every offer is accepted,
  `NetworkAddressAsGateway` a pool that fails it. On such a pool sessions end by an honest ERROR; the
  end-to-end and refinement theorems hold there too.
- A client awaiting its assignment answers the server's ERROR with an ERROR of its own. The honest-peers
  theorem names this as the client's only failure.
- A decoding error loses the frames decoded earlier in the same call, so the emitted frames of a bad
  stream are those of the earlier calls only.
- A TUN packet that meets a session whose ERROR is still queued closes the transport at once.
- A cancelled connection timer may still fire, even for an established tunnel.
- A client that has heard an ERROR reports it with the retry ruled out, except that a write failing for another
  reason than TLS before the queue has drained turns the retry verdict back; the runtime ends either way.
- The reconnect handler that finds an error although no stop was requested does nothing, and nothing is armed.

## Model

| member | source | states |
|---|---|---|
| `System.EndToEnd` | src/server/tls_tunnel_session.cpp:188-346 | for every pool the constructor accepts and over every run of any number of links and other sessions, packets delivered at either end are a byte-identical in-order prefix of those the other end accepted from its device during the run, and all of them once that end is live and its stream is quiet |
| `System.HonestPeersNeverReject` | src/core/client_session_controller.cpp:46-223 | over every run on a pool whose offers are all acceptable, the only ERRORs are LeaseUnavailable and the client's answer to a refusal; no decoder ever fails; each outbound counter is the peer's expected counter plus the frames under way mod 2^64; at most one probe is under way, with the awaited nonce; both ends agree on the terms |
| `System.HonestPeersAgree` | src/core/session_controller.cpp:50-69 | on every other pool too, except that the server may be unable to encode its offer and the client may refuse it |
| `System.RunSendsAccepted` | src/client/tls_tunnel_client.cpp:42-58 | over every run of the system, the DATA a link sends in either direction is exactly the packets its ends were offered and took, in order |
| `Acceptance.UplinkTakenExactly` | src/core/client_session_controller.cpp:184-208 | in every reachable state an honest client takes a packet if and only if it is established, the packet is well formed, within the MTU and from its assigned address of its family, and the queue has room |
| `Acceptance.DownlinkTakenExactly` | src/core/session_controller.cpp:194-250 | in every reachable state the server takes a packet for a client if and only if the session is established, the packet is well formed, within the MTU and to its leased address, the pool renews the lease, and the queue has room |
| `System.RefinesFleet` | src/server/tls_tunnel_session.cpp:188-374 | whatever the tunnels do to pool and controllers is a run of the fleet, for every pool the constructor accepts, so every fleet theorem holds of the system |
| `System.StepKeeps` | src/server/tls_tunnel_session.cpp:188-346 | every event of every link, and every event of other sessions, keeps the system's invariant |
| `Link.StepKeeps` | src/client/tls_tunnel_client.cpp:42-297 | every callback at either end and every cut of either stream keeps counters, contents, deliveries, probe and stream of an honest link |
| `Dialogue.ClientSends` | src/core/client_session_controller.cpp:33-44 | a frame an honest client sends with its next number keeps the script |
| `Dialogue.StartKeeps` | src/core/client_session_controller.cpp:33-44 | starting sends a hello that keeps the script |
| `Dialogue.ClientDataKeeps` | src/core/client_session_controller.cpp:184-208 | a packet the client accepts becomes a DATA frame with that payload that keeps the script |
| `Dialogue.ClientPingKeeps` | src/core/client_session_controller.cpp:210-223 | a probe keeps the script with one probe under way |
| `Dialogue.ClientCloseKeeps` | src/core/client_session_controller.cpp:225-235 | an orderly close keeps the script and ends the client |
| `DialogueSteps.ClientHandlesKeeps` | src/core/client_session_controller.cpp:46-182 | whatever an honest server sent, the client accepts it, except that before its assignment it answers a refusal, or terms it cannot accept, by an ERROR |
| `DialogueServer.ServerHandlesKeeps` | src/core/session_controller.cpp:26-163 | whatever an honest client sent, and whatever others did to the pool, the server accepts it, lacks the lease, or, only on a pool with unacceptable offers, cannot encode its offer |
| `DialogueServer.ServerDataKeeps` | src/core/session_controller.cpp:194-250 | a packet the server forwards is one its honest client accepts |
| `DialogueServer.HonestHelloAnswered` | src/core/session_controller.cpp:41-70 | a valid hello is answered by terms that encode and that the session honours, by LeaseUnavailable, or, only on a pool with unacceptable offers, by the error of an offer that does not encode; from a sound pool the client accepts the terms |
| `DialogueServer.UplinkAgrees` | src/core/session_controller.cpp:277-318 | a packet that passes the client's checks passes the server's |
| `DialogueServer.DownlinkAgrees` | src/core/client_session_controller.cpp:304-376 | a packet that passes the server's downlink checks passes the client's |
| `ClientSession.EveryOfferAcceptable` | src/core/client_session_controller.cpp:261-302 | for every configuration the constructor accepts, every issuable address and every valid MTU give an assignment that encodes and passes the client, if and only if the gateway is a usable host, IPv6 goes with MTU 1280 or a zero gateway, and a narrow pool does not start at zero |
| `ClientSession.NetworkAddressAsGateway` | src/core/lease_manager.cpp:157-177 | a pool that the constructor accepts and whose offers no client accepts |
| `ClientSession.ServiceableOffer` | src/core/lease_manager.cpp:114-178 | mask arithmetic over the whole pool interval: each offer of a serviceable pool is accepted |
| `ClientSession.SameBlock` | src/core/lease_manager.cpp:157-177 | every address between two of one subnet is in that subnet |
| `Subnets.ConfigExactly` | src/core/lease_manager.cpp:95-178 | the constructor accepts exactly the configurations whose range is in the gateway's subnet, by division, without the gateway and, up to /30, without the first and last address of the subnet, with an MTU from 576 to 9000 and a /64 whose gateway shares its prefix |
| `Subnets.PolicyExactly` | src/core/client_session_controller.cpp:261-302 | the client accepts exactly the assignments whose MTU is at most the one requested, whose addresses differ and lie in one subnet, up to /30 neither of them the first or last of it, and whose IPv6 addresses lie in one /64 or are absent |
| `Subnets.DerivedExactly` | src/core/lease_manager.cpp:205-209 | the IPv6 address of a lease is the pool's first eight bytes, four zeros and the IPv4 address, or zero |
| `FleetProperties.LeaseConservation` | src/core/session_controller.cpp:252-327 | over every run, a session holds a lease exactly while established, and each pool entry is the copy of exactly one established session |
| `FleetProperties.NoAddressLeaks` | src/core/session_controller.cpp:252-269 | however sessions ended, once none is established the pool is empty |
| `FleetProperties.UplinkAuthority` | src/core/session_controller.cpp:72-110 | against any peer, a delivered packet came in the frame with the exact next number, is well formed and within the MTU, and its source is the address the pool then maps to that identity |
| `FleetProperties.DeliveredIsNumberedPrefix` | src/core/session_controller.cpp:29-110 | what a session delivers over a run is the DATA of an initial segment of the frames it received, numbered without gap |
| `FleetProperties.SilentOnceEnded` | src/core/session_controller.cpp:29-34 | after a failure or close nothing is delivered or sent |
| `FleetProperties.CloseEnds` | src/core/session_controller.cpp:258-269 | a reply asks to close exactly when the session ended, and then delivers nothing |
| `FleetIsolation.StaleSessionIsInert` | src/core/lease_manager.cpp:240-279 | no step of a session whose generation has been replaced renews, releases or sends under the new lease |
| `FleetIsolation.StaleForever` | src/core/lease_manager.cpp:200-217 | over every run a stale session never holds a current lease again, delivers nothing and sends at most ERRORs, also when the ids are exhausted |
| `FleetIsolation.DownlinkAuthority` | src/core/session_controller.cpp:194-250 | a session emits a packet exactly when it is established, the packet is addressed to it, and its generation is current |
| `FleetIsolation.DownlinkUniqueness` | src/core/session_controller.cpp:194-250 | no two sessions can emit the same packet, even past a stale route |
| `FleetIsolation.KeepAlive` | src/core/lease_manager.cpp:240-254 | with time that never runs backwards and renewing events less than one lease duration apart, every renewal a session asks for succeeds, it is never told its lease is gone, and at the end it holds the pool's generation exactly unless its own transport closed or its own peer's frame ended it, whatever the others do |
| `Fleet.StepKeeps` | src/core/session_controller.cpp:26-163 | every event of every session keeps the conservation invariant |
| `Ledger.AcquireOp` | src/core/lease_manager.cpp:180-226 | acquiring adds one entry and one copy that agree |
| `Ledger.RenewOp` | src/core/lease_manager.cpp:240-254 | renewing extends entry and copy together, or finds the generation gone |
| `Ledger.ReleaseOp` | src/core/lease_manager.cpp:266-279 | releasing a copy removes the entry it backs and no other |
| `Ledger.ReapOp` | src/core/lease_manager.cpp:331-348 | reaping leaves every remaining entry backed by exactly one copy |
| `Ledger.RetiredStaysRetired` | src/core/lease_manager.cpp:200-217 | a generation that is no longer current never becomes current again |
| `Leases.AcquireIssuesLowestFree` | src/core/lease_manager.cpp:180-226 | success gives the lowest free pool address under the next id for one lease duration; each error occurs exactly under its condition: empty identity, active identity, full pool, exhausted ids, IPv6 gateway collision |
| `Leases.HigherAddressesAreNotTried` | src/core/lease_manager.cpp:210-213 | a pool that the constructor accepts from which nobody can acquire, although all addresses but the first could be given |
| `PoolOutcomes.AcquireExactly` | src/core/lease_manager.cpp:180-226 | for any other entry and address, what acquiring leaves: expired entries go, on success exactly one entry, one owner and the next id are new |
| `PoolOutcomes.RenewExactly` | src/core/lease_manager.cpp:240-254 | renewing succeeds exactly for the unexpired entry with this number and address, which then lasts a lease duration from now; nothing else changes but that expired entries go |
| `PoolOutcomes.ReleaseExactly` | src/core/lease_manager.cpp:266-279 | releasing succeeds exactly for the entry with this number and address, expired or not, and drops it and its address alone |
| `PoolOutcomes.ReapExactly` | src/core/lease_manager.cpp:331-348 | reaping drops exactly the expired entries with their addresses |
| `Leases.MapsAreInverse` | src/core/lease_manager.cpp:180-279 | the identity map and the address map are exact inverses |
| `Leases.AcquireKeeps` | src/core/lease_manager.cpp:180-226 | acquiring keeps the pool's invariant |
| `Leases.RenewKeeps` | src/core/lease_manager.cpp:240-254 | renewing keeps the pool's invariant |
| `Leases.ReleaseKeeps` | src/core/lease_manager.cpp:266-279 | releasing keeps the pool's invariant |
| `Leases.ReapKeeps` | src/core/lease_manager.cpp:331-348 | reaping keeps the pool's invariant |
| `LeaseManagers.CountsAgree` | src/core/lease_manager.cpp:287-301 | free plus leased addresses make up the pool |
| `LeaseManagers.LeaseManager.Create` | src/core/lease_manager.cpp:95-178 | construction succeeds exactly for valid configurations |
| `LeaseManagers.LeaseManager.ReapExpired` | src/core/lease_manager.cpp:331-348 | the loop removes exactly the expired leases from both maps and counts them |
| `LeaseManagers.LeaseManager.LowestFree` | src/core/lease_manager.cpp:196-225 | the scan finds the lowest free address and ends even at 0xFFFFFFFF |
| `LeaseManagers.LeaseManager.Acquire` | src/core/lease_manager.cpp:180-226 | the object acquires as the pool function does |
| `LeaseManagers.LeaseManager.Issue` | src/core/lease_manager.cpp:198-219 | a free address is issued under the next id with its derived IPv6 address, unless ids are exhausted or it derives the gateway |
| `LeaseManagers.LeaseManager.Renew` | src/core/lease_manager.cpp:240-254 | the object renews as the pool function does |
| `LeaseManagers.LeaseManager.Release` | src/core/lease_manager.cpp:266-279 | the object releases as the pool function does |
| `LeaseManagers.LeaseManager.ActiveCount` | src/core/lease_manager.cpp:287-292 | the number of unexpired leases |
| `LeaseManagers.LeaseManager.AvailableCount` | src/core/lease_manager.cpp:294-301 | capacity minus active, without underflow, is the number of unowned addresses |
| `Controllers.SessionController.Handle` | src/core/session_controller.cpp:26-163 | the server controller with its manager computes the session function |
| `Controllers.SessionController.Admit` | src/core/session_controller.cpp:50-69 | a decoded hello acquires a lease, fixes the MTU and sends the assignment, or fails with the lease given back |
| `Controllers.SessionController.HandleRenewing` | src/core/session_controller.cpp:72-125 | DATA and PING renew first, then are validated or answered |
| `Controllers.SessionController.HandleControl` | src/core/session_controller.cpp:126-163 | CLOSE and ERROR end the session, anything else fails it |
| `Controllers.SessionController.MakeDataToClient` | src/core/session_controller.cpp:194-250 | a downlink packet becomes a DATA frame, nothing, or the end of an expired session |
| `Controllers.SessionController.IsForClient` | src/core/session_controller.cpp:198-233 | the cascade accepts exactly well-formed packets addressed to the lease within the MTU |
| `Controllers.SessionController.ValidateIpv4` | src/core/session_controller.cpp:277-318 | without a lease the packet is refused; otherwise the cascade yields exactly the uplink fault of an IPv4 packet |
| `Controllers.SessionController.ValidateIpv6` | src/core/session_controller.cpp:165-192 | without a lease the packet is refused; otherwise the cascade yields exactly the uplink fault of an IPv6 packet |
| `Controllers.SessionController.Fail` | src/core/session_controller.cpp:258-269 | an ERROR is sent, the session closes and its lease goes back |
| `Controllers.SessionController.OnTransportClosed` | src/core/session_controller.cpp:252-256 | the session closes and its lease goes back |
| `Controllers.SessionController.ReleaseLease` | src/core/session_controller.cpp:320-327 | a held lease is released once |
| `ServerOutcomes.AdmitsExactly` | src/core/session_controller.cpp:50-69 | a hello under the expected number gets the pool's answer: the terms of the lease under the smaller MTU as the next frame, or the error with code 3 or 4, in every case with the exact session and pool afterwards |
| `ServerOutcomes.AwaitingObjects` | src/core/session_controller.cpp:26-49 | before its hello a session answers anything else by an error with code 1, 2 or 3 |
| `ServerOutcomes.RenewingExactly` | src/core/session_controller.cpp:72-125 | an expected DATA or PING renews the lease or is answered by code 4; then the packet is delivered, the probe echoed, or the fault reported under its code 3, 5, 6 or 7 |
| `ServerOutcomes.ControlExactly` | src/core/session_controller.cpp:126-163 | an expected CLOSE or ERROR ends the session quietly, a malformed one is answered by code 3, and any other kind by code 1 |
| `ServerOutcomes.OutOfTurnExactly` | src/core/session_controller.cpp:26-40 | a frame out of order is answered by code 2, and an ended session only asks to close |
| `ServerOutcomes.DataExactly` | src/core/session_controller.cpp:194-250 | a packet becomes the next DATA frame of its family, unchanged, if and only if the session is established, the packet is well formed, within the MTU and to its leased address, and the lease renews; without the lease the session ends; any other packet leaves no trace |
| `Controllers.ClientSessionController.Create` | src/core/client_session_controller.cpp:26-31 | construction succeeds exactly for an MTU a hello can carry |
| `Controllers.ClientSessionController.Start` | src/core/client_session_controller.cpp:33-44 | the first call sends the hello, later ones are refused |
| `Controllers.ClientSessionController.Handle` | src/core/client_session_controller.cpp:46-182 | the client controller computes the client function, of which `ClientOutcomes` says what it does with every frame |
| `Controllers.ClientSessionController.HandleAssignment` | src/core/client_session_controller.cpp:61-89 | only a decodable, acceptable assignment establishes |
| `Controllers.ClientSessionController.MakeDataToServer` | src/core/client_session_controller.cpp:184-208 | a local packet with the assigned source becomes a DATA frame, as `ClientOutcomes.DataExactly` says exactly |
| `Controllers.ClientSessionController.MakePing` | src/core/client_session_controller.cpp:210-223 | at most one probe is outstanding |
| `Controllers.ClientSessionController.MakeClose` | src/core/client_session_controller.cpp:225-235 | a started client sends CLOSE once |
| `Controllers.ClientSessionController.AssignmentIsAcceptable` | src/core/client_session_controller.cpp:261-302 | the cascade is exactly the client's policy |
| `Controllers.ClientSessionController.ValidateIpv4` | src/core/client_session_controller.cpp:304-339 | without an assignment the packet is refused; otherwise the cascade yields exactly the fault of an IPv4 packet in either direction |
| `Controllers.ClientSessionController.ValidateIpv6` | src/core/client_session_controller.cpp:341-376 | without an assignment the packet is refused; otherwise the cascade yields exactly the fault of an IPv6 packet in either direction |
| `ClientOutcomes.DataExactly` | src/core/client_session_controller.cpp:184-208 | a packet becomes the next DATA frame of its family, unchanged, if and only if the client is established and the packet is well formed, within the MTU and from its assigned address; any other packet leaves no trace |
| `ClientOutcomes.RequestsExactly` | src/core/client_session_controller.cpp:33-44 | the hello, a probe and a CLOSE are made exactly in their states, with the next number and their payload |
| `ClientOutcomes.ObjectsExactly` | src/core/client_session_controller.cpp:46-182 | a frame out of order, unexpected, malformed, unacceptable or not for the client is answered by the error with its code, from 101 to 107, and by nothing else |
| `ClientOutcomes.AcceptsExactly` | src/core/client_session_controller.cpp:88-182 | a frame an established client does not object to has exactly the effect of its kind: a packet delivered, a probe echoed, the probe answered, or the end |
| `ClientOutcomes.EstablishesExactly` | src/core/client_session_controller.cpp:61-89 | an assignment not objected to is a valid and acceptable one, and establishes the client with it |
| `ClientOutcomes.DeliversExactly` | src/core/client_session_controller.cpp:88-113 | a packet reaches the device if and only if it is the payload of the expected DATA frame of its family, well formed, within the MTU and to the assigned address |
| `ClientOutcomes.RemoteErrorExactly` | src/core/client_session_controller.cpp:148-157 | the reply reports the remote error e if and only if the client is established and the frame is the expected ERROR whose payload prints e with at most 1024 bytes of text; the session has then ended |
| `Wire.EncodeFrame` | src/protocol/protocol.cpp:76-102 | nonzero flags and oversized payloads are refused; otherwise the bytes parse back to the frame |
| `Wire.ParseFirstSound` | src/protocol/protocol.cpp:127-166 | an accepted frame is encodable and its encoding is the bytes it was read from |
| `Wire.ParseAllOfEncodeAll` | src/protocol/protocol.cpp:104-174 | parsing printed frames gives them back and leaves nothing |
| `Wire.ParseAllOfReceivedPart` | src/protocol/protocol.cpp:104-174 | parsing any part of a stream of printed frames never fails, yields the first of them and leaves the beginning of the others |
| `Decoder.FrameDecoder.Push` | src/protocol/protocol.cpp:104-174 | one push parses everything available or latches the error; the buffer stays under 65555 bytes |
| `Decoder.FrameDecoder.Reset` | src/protocol/protocol.cpp:186-191 | the decoder is as new |
| `Decoder.Scan` | src/protocol/protocol.cpp:126-166 | the loop's frames, stopping point and error are those of the whole-stream parser |
| `Decoder.NextFrame` | src/protocol/protocol.cpp:129-165 | one turn examines the header in order, then the payload |
| `Decoder.ChunkingInvariance` | src/protocol/protocol.cpp:104-197 | for every stream and every cut, the decoder fails exactly when the whole-stream parser does, with the same error; its frames are exactly the parser's frames of the chunks before the one that brings the error, all of them if nothing fails, and then its buffer is the unparsed suffix |
| `Decoder.CutsAgree` | src/protocol/protocol.cpp:104-174 | two cuts of the same bytes agree on errors, and on frames and state of a good stream |
| `Decoder.FailureIsSticky` | src/protocol/protocol.cpp:106-110 | after a failure no push changes the state or emits a frame |
| `Decoder.DecoderInvertsEncoder` | src/protocol/protocol.cpp:76-174 | a stream of printed frames, however cut, decodes to exactly those frames |
| `Layouts.FirstFrameExactly` | src/protocol/protocol.cpp:127-166 | what the front of a stream is, byte by byte: incomplete, rejected with the error of the first bad field, or a frame with the kind, number and payload its bytes say |
| `Layouts.FrameLayout` | src/protocol/protocol.cpp:76-102 | the bytes of a frame: "PVPN", 2, the kind, two zero bytes, the length and the number with the highest byte first, the payload |
| `Control.EncodeIpAssignment` | src/protocol/control_messages.cpp:180-199 | valid assignments, and only they, are printed |
| `Control.DecodeHelloPayload` | src/protocol/control_messages.cpp:147-178 | decoding a printed hello returns it |
| `Control.DecodedHelloPrintsBack` | src/protocol/control_messages.cpp:147-178 | an accepted hello payload is what its value prints to |
| `Control.DecodeAssignmentPayload` | src/protocol/control_messages.cpp:180-222 | decoding a printed assignment returns it |
| `Control.DecodedAssignmentPrintsBack` | src/protocol/control_messages.cpp:180-222 | an accepted assignment payload is what its value prints to |
| `Control.DecodeProbePayload` | src/protocol/control_messages.cpp:224-236 | decoding a printed probe returns it |
| `Control.DecodedProbePrintsBack` | src/protocol/control_messages.cpp:224-236 | an accepted probe payload is what its value prints to |
| `Control.DecodeErrorPayload` | src/protocol/control_messages.cpp:238-258 | decoding a printed error returns it |
| `Control.DecodedErrorPrintsBack` | src/protocol/control_messages.cpp:238-258 | an accepted error payload is what its value prints to |
| `Control.DecodeClosePayload` | src/protocol/control_messages.cpp:260-272 | decoding a printed close returns it |
| `Control.DecodedClosePrintsBack` | src/protocol/control_messages.cpp:260-272 | an accepted close payload is what its value prints to |
| `Layouts.HelloExactly` | src/protocol/control_messages.cpp:147-178 | a hello is accepted exactly from eight bytes: an MTU from 1280 to 9000 with the higher byte first, then 0, 0, 0, 0, 0, 3 |
| `Layouts.AssignmentExactly` | src/protocol/control_messages.cpp:201-222 | an assignment is accepted exactly from 52 bytes with zero reserved bytes whose fields, at their offsets, are in their ranges |
| `Layouts.ErrorExactly` | src/protocol/control_messages.cpp:238-258 | an error is accepted exactly from a two-byte code and at most 1024 bytes of text |
| `Broker.EncodeRequest` | src/broker/broker_protocol.cpp:75-125 | exactly the valid requests are encoded, with the length patched in |
| `Broker.DecodeRequest` | src/broker/broker_protocol.cpp:127-191 | the checks in order accept exactly what the decoding function accepts |
| `Broker.DecodeOfEncode` | src/broker/broker_protocol.cpp:75-191 | decoding an encoded request returns it |
| `Broker.EncodeOfDecode` | src/broker/broker_protocol.cpp:75-191 | every accepted frame is the encoding of the request it decodes to |
| `Broker.ReadNumber` | src/broker/broker_protocol.cpp:34-52 | the loop reads a little-endian number |
| `Broker.IsValidProfile` | src/broker/broker_protocol.cpp:54-71 | the loop accepts exactly the valid profile names |
| `Layouts.RequestExactly` | src/broker/broker_protocol.cpp:127-191 | a request is accepted exactly from 20 to 128 bytes: the length of the rest, "PVBR", version 1 and kind, all with the lowest byte first, a nonzero id, and for a connection a profile of 1 to 64 letters, digits, hyphens and underscores |
| `AddressText.ParseIpv4` | src/core/lease_manager.cpp:27-64 | the component loop accepts exactly the texts that spell an address, and returns it |
| `AddressText.FormatParses` | src/core/lease_manager.cpp:27-70 | parsing a formatted address returns it |
| `AddressText.DigitsExactly` | src/core/lease_manager.cpp:66-70 | a part of a formatted address is the digits of its tenth, if that is not zero, and its own last digit from 0 to 9 |
| `AddressText.ParseRoute` | src/core/client_network_transaction.cpp:12-33 | an IPv4 route is accepted exactly if its network spells an address and its prefix is a number up to 32 |
| `AddressText.ParseRouteV6` | src/core/client_network_transaction.cpp:35-61 | an IPv6 route is accepted exactly if its prefix is a number up to 128 and its address is a network address of that prefix |
| `AddressText.RouteV4Exactly` | src/core/client_network_transaction.cpp:12-33 | a text gives an IPv4 route with this network and prefix, through the given gateway, if and only if it is a spelling of the network, a slash and a number up to 32 |
| `AddressText.RouteV6Exactly` | src/core/client_network_transaction.cpp:35-61 | a text gives an IPv6 route with this network and prefix, through the given gateway, if and only if it is a text read as that network, a slash and a number up to 128, and the network has no bits beyond it |
| `AddressText.PlanExactly` | src/core/client_network_transaction.cpp:82-124 | the plan for an assignment can be carried out if and only if every text names a route, and then puts the assignment in place |
| `AddressText.ActivateFor` | src/core/client_network_transaction.cpp:75-133 | on success the adapter has the client's address under the assigned prefix, the IPv6 address exactly if one is assigned, the assigned MTU, and exactly the routes the texts name, each through the gateway of its family, beside everything that was there before; otherwise nothing changes, and a failure has its cause |
| `Canonical.ClearHostBits` | src/core/client_network_transaction.cpp:49-60 | the bit-clearing loop gives the address back exactly when its 128-bit value is a multiple of 2^(128-p), for every p |
| `Canonical.TailsZero` | src/core/client_network_transaction.cpp:50-56 | a value is such a multiple exactly when every byte's bits beyond the prefix are zero |
| `Transport.EnqueueKeeps` | src/server/tls_tunnel_session.cpp:295-330 | queueing a frame keeps the pump's invariant and extends the history by that frame |
| `Transport.WriteDoneKeeps` | src/server/tls_tunnel_session.cpp:332-346 | completing a write keeps the pump's invariant and sends nothing new |
| `Transport.SenderAdvances` | src/client/tls_tunnel_client.cpp:245-280 | whatever a sender appends, the receiver's decoder and unread bytes still spell the frames to come |
| `Transport.ReadConveys` | src/server/tls_tunnel_session.cpp:200-203 | reading any part of the stream never fails and decodes the next frames in order |
| `Transport.SenderStreams` | src/client/tls_tunnel_client.cpp:163-198 | the same for the bytes alone, also while a closing client still has a read outstanding |
| `Pump.ServerPumpSafety` | src/server/tls_tunnel_session.cpp:241-374 | over every run against any peer: one write in flight at most, and it is the queue's front; submitted bytes encode frames numbered 1, 2, 3, … without gaps; limits hold; one close callback |
| `Pump.ClientPumpSafety` | src/client/tls_tunnel_client.cpp:78-317 | the same for the client's endpoint |
| `Pump.ServerTurnRuns` | src/server/tls_tunnel_session.cpp:50-109 | every server step keeps pump and numbering, sends DATA only for the packet offered, and nothing once closing |
| `Pump.ClientTurnRuns` | src/client/tls_tunnel_client.cpp:42-100 | every client step likewise |
| `Pump.ServerClosingIsFinal` | src/server/tls_tunnel_session.cpp:267-274 | once closing or stopped, no later step enqueues or delivers anything |
| `Pump.ClientClosingIsFinal` | src/client/tls_tunnel_client.cpp:235-242 | the same for the client |
| `Pump.DrainsExactly` | src/server/tls_tunnel_session.cpp:308-346 | a closing endpoint stops after exactly as many completed writes as blocks queued, with every frame submitted in order |
| `Pump.ServerSendsAccepted` | src/server/tls_tunnel_session.cpp:50-109 | the DATA sent over a run is exactly the packets offered and accepted, in order |
| `Pump.ClientSendsAccepted` | src/client/tls_tunnel_client.cpp:42-58 | the same for the client |
| `Pump.ServerHandleReplies` | src/core/session_controller.cpp:26-163 | every server reply is at most one encodable frame with the next number, never DATA |
| `Pump.ClientHandleReplies` | src/core/client_session_controller.cpp:46-182 | every client reply likewise |
| `Pump.ControllerProduces` | src/core/client_session_controller.cpp:184-235 | every frame the client makes on its own is encodable and carries the next number |
| `Pump.AssignmentReportedOnce` | src/core/client_session_controller.cpp:61-89 | over every run an endpoint reports at most one assignment |
| `TunnelOutcomes.EnqueueExactly` | src/server/tls_tunnel_session.cpp:295-330 | a frame is taken if and only if it can be encoded, the queue has a place free and 20 bytes plus its payload fit; alone, it is being written at once |
| `TunnelOutcomes.ServerWriteExactly` | src/server/tls_tunnel_session.cpp:332-346 | after a failed write the tunnel is down with nothing more submitted; after another the next block is under way, or the pump idles, or a pending close happens |
| `TunnelOutcomes.FailedWriteTakesDown` | src/server/tls_tunnel_session.cpp:339-343 | for every open server tunnel with a write in flight: once it fails, the tunnel is stopped, its queue empty, nothing more written, its session closed without a lease, and the pool no longer holds that generation |
| `TunnelOutcomes.ServerDeviceExactly` | src/server/tls_tunnel_session.cpp:50-109 | a packet for the peer of an established session becomes the next frame queued if the lease renews and there is room, and otherwise takes the tunnel down; any other packet changes nothing, unless the session has ended |
| `TunnelOutcomes.ServerReadExactly` | src/server/tls_tunnel_session.cpp:188-203 | bytes become the frames they complete, or take the tunnel down |
| `TunnelOutcomes.ServerFrameExactly` | src/server/tls_tunnel_session.cpp:203-275 | a frame has the controller's effect; a route refused at the establishment, or a reply without room, takes the tunnel down; a closing reply closes once the queue is written |
| `TunnelOutcomes.ClientDeviceExactly` | src/client/tls_tunnel_client.cpp:42-58 | a packet from the assigned address of an established client is queued as the next DATA frame of its family if there is room, and otherwise takes the tunnel down; any other packet changes nothing |
| `TunnelOutcomes.TakenPacketIsSent` | src/client/tls_tunnel_client.cpp:42-58 | such a packet with room in the queue is the next frame sent |
| `TunnelOutcomes.ClientFrameExactly` | src/client/tls_tunnel_client.cpp:178-243 | a frame has the controller's effect; an assignment the host refuses, or a reply without room, takes the tunnel down |
| `TunnelOutcomes.ClientStopExactly` | src/client/tls_tunnel_client.cpp:78-100 | a started client queues CLOSE and closes once it is written; any other closes at once |
| `Endpoints.OutboundFrameQueue.TryEnqueueBlock` | src/core/outbound_frame_queue.cpp:24-38 | an empty block is an error; another is taken exactly if it fits both limits, in order, with exact byte accounting |
| `Endpoints.OutboundFrameQueue.TryEnqueue` | src/core/outbound_frame_queue.cpp:19-22 | a frame is encoded and taken under the same conditions |
| `Endpoints.OutboundFrameQueue.PopFront` | src/core/outbound_frame_queue.cpp:49-57 | the front goes and the byte count follows; an empty queue is an error |
| `Endpoints.OutboundFrameQueue.Front` | src/core/outbound_frame_queue.cpp:40-47 | the front, or the error of an empty queue |
| `Endpoints.OutboundFrameQueue.Create` | src/core/outbound_frame_queue.cpp:9-17 | construction succeeds exactly if the limits allow one frame header |
| `Endpoints.OutboundFrameQueue.Clear` | src/core/outbound_frame_queue.cpp:59-63 | nothing is left |
| `Endpoints.ServerDrainsAll` | src/server/tls_tunnel_session.cpp:200-238 | after a read no decoded frame is left over, and while the session goes on each of them has been handled |
| `Endpoints.ClientDrainsAll` | src/client/tls_tunnel_client.cpp:176-197 | the same for the client |
| `Endpoints.TlsTunnelSession.HandleRead` | src/server/tls_tunnel_session.cpp:188-239 | a failed read closes; otherwise decoding and handling the frames of one read until the tunnel closes is the model's read followed by one step per frame |
| `Endpoints.TlsTunnelSession.HandleFrame` | src/server/tls_tunnel_session.cpp:203-227 | one frame, with the route claimed at the first establishment and kept for the close callback |
| `Endpoints.TlsTunnelSession.ApplyResult` | src/server/tls_tunnel_session.cpp:241-275 | packets are delivered, frames enqueued until one is refused, and the close awaits the queue |
| `Endpoints.TlsTunnelSession.EnqueueFrame` | src/server/tls_tunnel_session.cpp:295-306 | enqueueing starts a write if none is in flight |
| `Endpoints.TlsTunnelSession.WriteNext` | src/server/tls_tunnel_session.cpp:308-330 | the front is submitted, or a pending close happens |
| `Endpoints.TlsTunnelSession.HandleWrite` | src/server/tls_tunnel_session.cpp:332-346 | a completed write pops the front and goes on; a failed one stops the session with an empty queue, nothing more written, its controller closed, its lease gone from the pool, and the close callback told of the claimed route |
| `Endpoints.TlsTunnelSession.SendFromTun` | src/server/tls_tunnel_session.cpp:50-109 | a device packet is framed and queued, ignored, or closes an ended session |
| `Endpoints.TlsTunnelSession.CloseNow` | src/server/tls_tunnel_session.cpp:348-374 | closing is idempotent, gives the lease back, and tells the close callback once for which lease a route was claimed |
| `Endpoints.TlsTunnelSession.Stop` | src/server/tls_tunnel_session.cpp:111-114 | stopping closes at once |
| `Endpoints.TlsTunnelClient.HandleFrame` | src/client/tls_tunnel_client.cpp:178-243 | the expected ERROR of an established session is what the close callback will be told, with no retry, or has been told if nothing was left to write; no other frame changes what it will be told of a remote error |
| `Endpoints.RejectionIsReported` | src/client/tls_tunnel_client.cpp:205-317 | once the server's error has been heard, whatever is called and however many queued blocks are written, the close callback is told of it and of no retry |
| `Endpoints.TlsTunnelClient.HandleRead` | src/client/tls_tunnel_client.cpp:163-198 | a failed read closes, retryable unless TLS failed; otherwise as for the server, also for a read that completes after `stop` |
| `Endpoints.TlsTunnelClient.HandleLateBytes` | src/client/tls_tunnel_client.cpp:163-198 | bytes that come after `stop` leave the draining queue alone, unless the stream is bad |
| `Endpoints.TlsTunnelClient.ApplyResult` | src/client/tls_tunnel_client.cpp:205-243 | a remote error is recorded; it, a refused assignment and a full queue rule out a retry; otherwise as for the server |
| `Endpoints.TlsTunnelClient.HandleHandshake` | src/client/tls_tunnel_client.cpp:127-146 | a failed handshake closes, retryable unless TLS failed; otherwise the hello is queued |
| `Endpoints.TlsTunnelClient.SendFromTun` | src/client/tls_tunnel_client.cpp:42-58 | a device packet is framed and queued unless closing |
| `Endpoints.TlsTunnelClient.Ping` | src/client/tls_tunnel_client.cpp:60-76 | a probe is queued unless one is outstanding or the tunnel closes |
| `Endpoints.TlsTunnelClient.Stop` | src/client/tls_tunnel_client.cpp:78-100 | CLOSE is queued and the close awaits it, or happens at once |
| `Endpoints.TlsTunnelClient.Abort` | src/client/tls_tunnel_client.cpp:200-203 | aborting closes at once |
| `Endpoints.TlsTunnelClient.HandleWrite` | src/client/tls_tunnel_client.cpp:282-297 | a failed write closes and reports the remote error, retryable unless TLS failed; a completed one pops the front, goes on, and keeps what will be reported |
| `Endpoints.TlsTunnelClient.CloseNow` | src/client/tls_tunnel_client.cpp:299-317 | closing is idempotent and tells the close callback once of the remote error and whether a retry makes sense |
| `Router.OwnershipIsStable` | src/core/tunnel_router.cpp:9-70 | no call on behalf of another peer changes where a live owner's address leads |
| `Router.AbandonedIsTakenOver` | src/core/tunnel_router.cpp:20-29 | a free or abandoned address then leads to the peer that registers it, which is told yes, and nothing else changes |
| `Router.TunnelRouter.RegisterPeer` | src/core/tunnel_router.cpp:9-30 | a free or abandoned IPv4 address then leads to the peer, and the answer is yes; a live owner's stays, and only the owner is told yes |
| `Router.TunnelRouter.UnregisterPeer` | src/core/tunnel_router.cpp:32-53 | another live peer's IPv4 route is left alone |
| `Router.TunnelRouter.FindPeer` | src/core/tunnel_router.cpp:55-70 | the live owner, and an abandoned route is dropped |
| `Router.TunnelRouter.RouteIpv4Packet` | src/core/tunnel_router.cpp:72-96 | only a well-formed packet to a live route is handed over, to that route's peer |
| `Router.TunnelRouter.RegisterPeerV6` | src/core/tunnel_router.cpp:98-118 | as for IPv4 |
| `Router.TunnelRouter.UnregisterPeerV6` | src/core/tunnel_router.cpp:120-139 | as for IPv4 |
| `Router.TunnelRouter.RouteIpv6Packet` | src/core/tunnel_router.cpp:141-172 | as for IPv4 |
| `Router.TunnelRouter.ActiveRoutes` | src/core/tunnel_router.cpp:174-179 | abandoned routes are dropped and the rest counted |
| `Router.Sweep` | src/core/tunnel_router.cpp:189-213 | the erase-while-iterating loop keeps exactly the routes of live peers |
| `Registry.RouteOwnership` | src/server/tls_tunnel_server.cpp:218-244 | over every run, a ready session stays ready with its claim, and every well-formed packet to its IPv4 or IPv6 address is handed to it alone until its own close |
| `Registry.ClaimOutcome` | src/server/tls_tunnel_server.cpp:218-236 | in every reachable state, a session that claims addresses nobody has a route for is ready once its calls are through, and packets to it reach it; one whose address is taken in either family is refused and leaves both tables as they were |
| `Registry.StepKeeps` | src/server/tls_tunnel_server.cpp:218-272 | every step, with lease release and route removal apart and others in between, keeps sessions and routes in agreement |
| `Registry.RoutedToClaimant` | src/core/tunnel_router.cpp:72-172 | a packet is handed only to a session that claimed its destination and has not given it up |
| `Registry.RoutesAreAlive` | src/core/tunnel_router.cpp:9-172 | routes lead to living sessions, so no look-up or sweep ever drops one |
| `Registry.NothingLeftBehind` | src/server/tls_tunnel_server.cpp:258-272 | in every reachable state routes lead to living sessions, and a closed session has left none behind |
| `Registry.DownlinkReachesHolder` | src/core/tunnel_router.cpp:72-172 | a packet for a ready session is routed to it, becomes a DATA frame exactly while its lease is current, and then nobody else could send it |
| `TunnelServer.TlsTunnelServer.HandleAccept` | src/server/tls_tunnel_server.cpp:181-256 | a connection is accepted unless the server is stopping or full, an aborted one is passed over, any other error stops the server |
| `TunnelServer.TlsTunnelServer.OnEstablished` | src/server/tls_tunnel_server.cpp:218-236 | a session gets all its routes or none, and nobody else's change |
| `TunnelServer.TlsTunnelServer.HandleSessionClosed` | src/server/tls_tunnel_server.cpp:258-272 | a closed session's own routes go, and nobody else's |
| `TunnelServer.TlsTunnelServer.RemoveSession` | src/server/tls_tunnel_server.cpp:274-285 | the search removes exactly that session |
| `Transaction.UndoRestores` | src/core/client_network_transaction.cpp:135-169 | undoing creations from the latest to the first restores the host exactly |
| `Transaction.CreatedIsNew` | src/core/include/personal_vpn/client_network_transaction.hpp:73-101 | nothing that existed before is ever among what is undone |
| `Transaction.NetworkTransaction.Activate` | src/core/client_network_transaction.cpp:75-133 | for every host, plan and failure point: the host plus exactly the plan, or exactly the host as it was with all creations undone in reverse order |
| `Transaction.NetworkTransaction.Rollback` | src/core/client_network_transaction.cpp:135-169 | the host is as before activation, undone from the latest creation to the first, and a second call does nothing |
| `Transaction.AnyCycles` | src/core/client_network_transaction.cpp:70-169 | any sequence of activations and rollbacks, then destruction, leaves the host as it was |
| `Runtime.RuntimeSafety` | src/client/client_runtime.cpp:133-495 | over every event order: the host is configured only with a tunnel of the current generation; rollback precedes every attempt and activation; one retry per generation; one finish, and nothing after it; until then every tunnel but the current one has closed or been asked to |
| `Runtime.StaleCallbacksAreSilent` | src/client/client_runtime.cpp:159-270 | callbacks of a generation left behind change nothing, ever after |
| `Runtime.ActivationIsClean` | src/client/client_runtime.cpp:272-294 | activation meets neither an active transaction nor an unjoined reader |
| `Runtime.ConnectionHasStream` | src/client/client_runtime.cpp:250-269 | a connection becomes a tunnel only while its stream is still there and no other tunnel is up |
| `Runtime.FinishedIsFinal` | src/client/client_runtime.cpp:462-495 | after the finish no event activates or begins anything |
| `Runtime.StepKeeps` | src/client/client_runtime.cpp:133-495 | every handler, in any order, keeps the runtime's invariant |
| `RuntimeOutcomes.RetriedOrFinished` | src/client/client_runtime.cpp:405-434 | in every reachable state the close of a tunnel leads to another attempt if and only if it is current, no stop was requested, nothing failed before, the server sent no error and the close may be retried; and it ends the client if and only if it is current, the client has not ended and one of these fails |
| `RuntimeOutcomes.NeverGivesUp` | src/client/client_runtime.cpp:133-434 | over every run in which nobody stops the client and neither host nor server objects, however often resolution, connection, timer and transport fail, the client has not ended and exactly what is due next is outstanding |
| `RuntimeOutcomes.AttemptCountsFailures` | src/client/client_runtime.cpp:389-399 | over every run the exponent of the reconnect delay is the number of failures since the host was last configured, up to 5 |
| `RuntimeOutcomes.ClosedExactly` | src/client/client_runtime.cpp:405-434 | the log, generation, flags and outstanding handlers after a tunnel's close, in every case |
| `RuntimeOutcomes.TimerExactly` | src/client/client_runtime.cpp:143-150 | the same for the connection timer |
| `RuntimeOutcomes.ResolvedExactly` | src/client/client_runtime.cpp:159-231 | the same for the end of name resolution |
| `RuntimeOutcomes.ConnectedExactly` | src/client/client_runtime.cpp:233-270 | the same for the end of connecting |
| `RuntimeOutcomes.AssignedExactly` | src/client/client_runtime.cpp:272-294 | the same for an assignment |
| `RuntimeOutcomes.ReconnectExactly` | src/client/client_runtime.cpp:375-386 | the same for the reconnect timer |
| `RuntimeOutcomes.StopExactly` | src/client/client_runtime.cpp:85-116 | the same for a stop, when it is requested and when it runs |
| `ClientRuntimes.DelayCap` | src/client/client_runtime.cpp:389-397 | the delay is at most 1, 2, 4, 8, 16 and then 30 seconds |
| `ClientRuntimes.DelayDoubles` | src/client/client_runtime.cpp:389-399 | over every run the cap of the delay is 1000 ms doubled with each failure in a row, up to 30000 ms |
| `ClientRuntimes.ClientRuntime.BeginConnect` | src/client/client_runtime.cpp:133-157 | a new generation begins, or a requested stop finishes |
| `ClientRuntimes.ClientRuntime.HandleTimer` | src/client/client_runtime.cpp:143-150 | the timer of the current generation retries, with the delay of its attempt, and no other does |
| `ClientRuntimes.ClientRuntime.HandleResolve` | src/client/client_runtime.cpp:159-231 | resolution of the current generation leads to connecting, to a retry exactly after an error, or to the end |
| `ClientRuntimes.ClientRuntime.HandleConnect` | src/client/client_runtime.cpp:233-270 | a connection becomes the tunnel of its generation, or is retried exactly after an error |
| `ClientRuntimes.ClientRuntime.ConfigureNetwork` | src/client/client_runtime.cpp:272-294 | the assignment and the configured routes are in place on the host, or it is as it was |
| `ClientRuntimes.ClientRuntime.HandleAssignment` | src/client/client_runtime.cpp:253-256 | only the current generation's assignment configures the host |
| `ClientRuntimes.ClientRuntime.DeliverToPacketDevice` | src/client/client_runtime.cpp:296-312 | a failed delivery requests a stop and asks the tunnel to close |
| `ClientRuntimes.ClientRuntime.ReaderFails` | src/client/client_runtime.cpp:328-333 | a failing reader requests a stop and asks the tunnel to close |
| `ClientRuntimes.ClientRuntime.RetryOnIo` | src/client/client_runtime.cpp:336-387 | a retry leaves the generation behind, asks its tunnel to abort, restores the host, counts the failure and waits between half the cap of its attempt and the cap |
| `ClientRuntimes.ClientRuntime.NextReconnectDelay` | src/client/client_runtime.cpp:389-403 | the attempt count grows by one up to 5, and the delay is the one drawn |
| `ClientRuntimes.ClientRuntime.OnTunnelClosed` | src/client/client_runtime.cpp:405-434 | the current tunnel's close arms a reconnect if and only if no stop was requested, nothing failed before, there is no remote error and it is retryable; otherwise the client has finished, bare and with the host as it was; a close of another generation changes nothing |
| `ClientRuntimes.ClientRuntime.HandleReconnect` | src/client/client_runtime.cpp:375-386 | the reconnect timer begins the next generation, or finishes after a stop |
| `ClientRuntimes.ClientRuntime.RequestStop` | src/client/client_runtime.cpp:85-94 | a stop marks both flags unless finished |
| `ClientRuntimes.ClientRuntime.RunStop` | src/client/client_runtime.cpp:95-116 | with a tunnel the stop asks it to close; without one it finishes and the host is restored |
| `ClientRuntimes.ClientRuntime.FinishOnIo` | src/client/client_runtime.cpp:462-495 | the body runs once and restores the host |

## Left out

- TLS handshakes, certificates and their identities: an endpoint begins after its handshake, with an opaque identity.
- What the client tunnel tells its close callback: `TlsTunnelClient` computes it, the runtime takes it as an arbitrary input.
- Metrics, displayed states, event messages and the wording of ERROR texts: any text of at most 1024 bytes is allowed.
- Idle and handshake timeouts of a server session: they close the transport, which may happen at any step.
- The Linux TUN device, Wintun, the IP Helper and the Windows filtering platform: the backend is its contract with failures anywhere.
- IPv6 text parsing, done by a library: the parsed address is a parameter.
- JSON and command-line configuration, the desktop interface and the historical prototype: plumbing with easy properties.
- `find_by_identity` and `owns` of the lease manager: look-ups after a reap, easy members.
- The rest of the server's stop sequence: it closes every session, each of which is a step of the model.
- Endpoints.TlsTunnelSession.CloseNow: releases the lease and names the claimed route; removing the route is a separate step, in `Registry`, because other sessions run in between.
- Wrap-around of the runtime's 64-bit generation counter: generations are natural numbers, so a callback surviving 2^63 reconnects is not covered.
- Progress that depends on the network, such as a stop finishing while a write is stuck.
- Memory exhaustion and exceptions other than those named by a result.
