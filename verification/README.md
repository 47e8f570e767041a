# MeshNet DHT, modelled and proved in Dafny

MeshNet gives nodes on an encrypted mesh human-readable names, kept in a Kademlia-style
distributed hash table. This project models that table, the `dht/` package, and proves what
it is for. `dafny verify dfyconfig.toml` checks everything.

The model has three layers that build on each other.

**Distance and routing table.** `NodeIds.dfy` has the 32-byte identifiers, the XOR distance
as a 256-bit number and the byte loops that compare distances and pick a bucket; `Metric.dfy`
the geometry of common prefixes; `Ranking.dfy` finite sets of IDs laid out by distance;
`Contacts.dfy` the candidate sort; `RoutingTable.dfy` the 256 bounded buckets, as values, over
whole runs, and as a class.

**Lookups.** `Lookup.dfy` has the state of one iterative lookup, its rounds as a function on ID
sets, what is reachable, and the independence from arrival order; `Convergence.dfy` what a lookup
finds in a network whose tables cover it; `Node.dfy` a node as a value and what its answers say;
`TableEffects.dfy` what lookups teach a table and make it drop; `Search.dfy` the rounds and outcomes
of a search for a value; `Dht.dfy` a node with its handlers and with `LookupNode`, `LookupValue`
and `Announce` as methods whose goroutines may run in any order.

**Records.** `Store.dfy` has signed records, the store, ownership, expiry and cleanup over whole
runs; `Register.dfy` the creation of records; `Hex.dfy` base16 text; `Framing.dfy` the messages
on a connection.

`Network.dfy` puts nodes together under one clock and `Naming.dfy` draws the layers together: a
name announced by one node is found by every other until it expires, and by nobody afterwards.
`Community.dfy` has networks of any size that meet all that this assumes.

The main results:

- A lookup returns, first and in order of distance, exactly the network's K nodes nearest to the
  target without the caller (`LookupFindsClosest`). Coverage may be weak: one live contact in each
  bucket range that has a node suffices, where the usual assumption fills every bucket
  (`FullCoverageCovers`). Each peer may answer from the table of its own moment.
- The nearest node heads the candidate list after at most 255 rounds, less the bits the caller
  shares with it (`HeadWithin255Rounds`).
- Over any replies and failures a lookup ends and has contacted exactly what is reachable
  (`LookupEnds`, `Dht.LookupNode`), and the arrival order cannot show (`RunsAgree`).
- A name whose announcement arrives at just one of the K nearest nodes is found by everybody until
  it expires (`AnnouncedNameIsFound`), not after (`ExpiredNameIsLost`), and whatever a lookup
  returns is genuine (`LookupValueSafe`). In every network of more than K + 1 nodes that know each
  other some node without the record finds it by a search (`CommunityFinds`).
- A node that is told only of live nodes is covered exactly when it has heard of one from every
  bucket range that has a node (`CoveredByHearing`). Lookups keep it so: what they teach is covered
  (`LookupKeepsCoverage`), and when all peers answer they drop nobody (`ValueLookupForgetsNobody`).
- A lookup for a node tells the table, once and in some order, of all that the reachable peers
  answer (`Dht.LookupNode`), so afterwards it has everybody they name whose bucket is not full
  (`TaughtTable`); one for a value drops exactly the peers it asked that failed (`SearchForgets`).
- With an ideal signature scheme a store holds only records signed as they are by the key they
  carry (`HeldIsAuthentic`), a lookup returns only such, and no store takes one with a field
  changed (`AlteredIsRefused`).
- A lookup for a value returns a record exactly when some round takes one before the time runs out
  (`Dht.LookupValue`).
- A name stays with its key exactly as long as nobody deletes it and no cleanup runs after the
  expiry of its last accepted record (`KeptIffNeverReleased`).
- When cleanups run cannot show exactly when no Put by another key meets an expired holder
  (`CleanupScheduleIrrelevance`).
- A framed body is read back exactly when it is at most 1 MiB (`FrameRoundTrip`).

Assumptions that stand for what lies outside: a reply is a value per peer, missing if the call
fails, which loses nothing since a lookup asks each peer at most once; which sends of an
announcement arrive is open, as the code does not look; signatures, digests and the position of a
name are uninterpreted functions (`Crypto`); where a result needs a scheme that accepts its own
signatures, accepts nothing forged, or has no collisions, it says so; clocks are integers counting
nanoseconds.

Where the code and its documentation differ, the code is followed:

- `README.md:42` calls a name permanently owned and `dev-docs/meshnet-build.md:52` says only its
  key can update it. A holder keeps it exactly while no Delete and no cleanup after its expiry
  occurs (`KeptIffNeverReleased`). From an empty store, a record that expires, a cleanup and a Put
  by another key hand the name over (`TakeoverAfterCleanup`); any two keys can register such
  records (`RegisteredRivals`).
- `dev-docs/meshnet-build.md:74` says re-announcing keeps records from expiring. The same signed
  record is sent again, so it expires all the same (`ExpiredNameIsLost`).
- `dev-docs/meshnet-build.md:64` says a lookup converges when there is no progress. The loop goes
  on until no candidate is left to contact.
- `LookupValue` can return nothing although a reachable peer answered with the record, when its
  round ends before the record is taken; it is certain to return one exactly when it is held
  locally (`OnlyLocalIsCertain`).

## Model

| member | source | states |
|---|---|---|
| NodeIds.HexRoundTrip | dht/routing.go:22-34 | Every ID survives its text form |
| Hex.DecodeEncode | dht/store.go:64-84 | Keys and signatures written as base16 are read back byte for byte |
| NodeIds.HexExact | dht/routing.go:22-30 | A text is read as an ID iff in lower case it is how some bytes are written; these are cut off or padded with zeros |
| Hex.DecodeExact | dht/store.go:64-84 | A text is read as the bytes that are written so in lower case, and refused iff there are none |
| NodeIds.XOR | dht/routing.go:36-42 | The loop computes the bytewise XOR |
| NodeIds.Less | dht/routing.go:44-53 | The byte loop decides exactly whether one 256-bit XOR distance to the target is below the other |
| NodeIds.NearerIsTotal | dht/routing.go:44-53 | For each target the order is strict and total on IDs; equal distances mean equal IDs |
| NodeIds.NearerByBit | dht/routing.go:44-53 | One bit decides who is nearer: the first in which the two IDs differ, in favour of the one agreeing with the target |
| NodeIds.BucketIndex | dht/routing.go:55-69 | Byte loop and shift loop find the length of the common prefix, -1 for equal IDs |
| NodeIds.BucketByMagnitude | dht/routing.go:55-69 | The index is i iff 2^(255-i) <= distance < 2^(256-i), and -1 iff the distance is 0 |
| Metric.HigherBucketNearer | dht/routing.go:44-69 | A contact in a higher bucket of n is strictly nearer to n than any in a lower one |
| Metric.LongerPrefixNearer | dht/routing.go:44-69 | Around the node nearest to a target, a longer common prefix with it means strictly nearer to the target |
| Metric.CompareAlike | dht/routing.go:44-69 | Nodes that share more bits with each other than with x compare with x alike for every target |
| Ranking.AscendingUnique | dht/routing.go:150-152 | A set of IDs has one strictly ascending listing, so the sort procedure cannot matter |
| Ranking.TopByRank | dht/routing.go:154-157 | An ID is among the count nearest iff fewer than count members are nearer |
| Contacts.SortByDistance | dht/lookup.go:53-60 | From any order the loops without early exit produce a sorted permutation |
| RoutingTables.RoutingTable.Add | dht/routing.go:93-121 | The slice operations refine the list model: a known contact moves to the back, a new one joins if there is room, else nothing changes |
| RoutingTables.AddedTable | dht/routing.go:93-121 | An Add keeps the invariant, evicts nobody, and admits exactly known contacts and those whose bucket has room |
| RoutingTables.RoutingTable.Remove | dht/routing.go:123-139 | Exactly the contact with that ID leaves, the others keep their order |
| RoutingTables.RemovedTable | dht/routing.go:123-139 | A Remove keeps the invariant and drops just that ID |
| RoutingTables.TableInvariant | dht/routing.go:81-139 | After every run of Adds and Removes: at most K per bucket, each contact in its bucket, no ID twice, never the node itself, at most 256*K in all |
| RoutingTables.Retention | dht/routing.go:106-120 | In every run only a Remove of that ID drops it |
| RoutingTables.BucketsByRecency | dht/routing.go:106-120 | In every run each bucket lists its contacts by most recent accepted Add, each as that Add gave it |
| RoutingTables.RoutingTable.Closest | dht/routing.go:141-158 | Returns the count nearest contacts, nearest first, and leaves the buckets alone |
| RoutingTables.SortedTable | dht/routing.go:150-157 | Any sorted arrangement of the table's contacts starts with the same contacts, so an unstable sort cannot show |
| RoutingTables.ClosestBeatsRest | dht/routing.go:141-158 | Every contact returned is strictly nearer than every one left out, and then exactly count are returned |
| RoutingTables.RoutingTable.Size | dht/routing.go:160-169 | The number of contacts, at most 256*K |
| Lookups.DecodeContacts | dht/lookup.go:123-138 | Entries with unreadable ID or address are skipped, the others kept in order |
| Lookups.ReadInOrder | dht/lookup.go:123-138 | Reading works entry by entry in order: one with a readable ID and an address gives the contact with these and its port, any other nothing |
| Lookups.WireRoundTrip | dht/dht.go:132-139 | What a handler writes a lookup reads back, but for contacts without an address |
| Lookups.LookupState.AddCandidates | dht/lookup.go:30-61 | From any starting order: sorted, and the old candidates plus the first occurrence of each new, uncontacted ID other than self; keeps the state invariant |
| Lookups.FirstNewIds | dht/lookup.go:34-51 | The added contacts bring exactly the offered IDs that are not excluded, each once |
| Lookups.LookupState.NextBatch | dht/lookup.go:63-77 | The up to alpha nearest uncontacted candidates |
| Lookups.LookupState.MarkContacted | dht/lookup.go:79-83 | One ID more is contacted |
| Lookups.LookupState.Closest | dht/lookup.go:85-93 | The k nearest candidates, nearest first |
| Lookups.RoundsReach | dht/lookup.go:103-154 | Candidates are always reachable; when none is left to contact they are exactly the reachable IDs |
| Lookups.LookupEnds | dht/lookup.go:103-107 | A lookup ends within as many rounds as there are reachable nodes, having found them all |
| Lookups.ScheduleIndependence | dht/lookup.go:109-153 | Every interleaving of a round's marks and merges ends in the same state |
| Lookups.RunsAgree | dht/lookup.go:103-154 | Whole runs agree on candidates and contacted IDs whatever the arrival order in each round |
| Convergence.LookupFindsClosest | dht/lookup.go:95-157 | In a covered network the result begins with exactly the K nearest nodes without the caller, in order, and names only nodes of the network |
| Convergence.MissedIsNotTop | dht/lookup.go:95-157 | A node that nobody names is beaten by K others |
| Convergence.SmallNetworkFound | dht/lookup.go:95-157 | In a network of at most K nodes a lookup finds everybody |
| Convergence.HeadWithin255Rounds | dht/lookup.go:103-154 | After at most 255 rounds the nearest node heads the candidates, and stays there |
| Convergence.FullCoverageCovers | dht/routing.go:106-120 | Buckets holding min(K, nodes in range) live contacts are a special case of the coverage assumed |
| Nodes.FindNodeAnswered | dht/dht.go:119-143 | Any node answers with the K nearest contacts of its table, entry by entry with ID, address and port, and they are read back so |
| Nodes.FindValueAnswered | dht/dht.go:153-195 | The record held under the name if of the group and unexpired to the second, else the nearest contacts entry by entry, and not found iff the table is empty |
| TableEffects.TaughtTable | dht/lookup.go:141-152 | Once taught, the table has all it had and everybody the answers name whose bucket is not full |
| TableEffects.DroppedTable | dht/lookup.go:195-204 | Exactly the asked peers that failed are out of the table, every other contact is still in it |
| Searches.SearchForgets | dht/lookup.go:159-252 | After a search exactly those are out of the table that were asked in a round that ran and failed; all of them were reachable |
| Searches.TakesFirstExactly | dht/lookup.go:242-248 | The round that returns a record is the first in which one comes in and is taken, no earlier round having run out of time |
| Dhts.Dht.FindNodeRound | dht/lookup.go:109-153 | For every order of goroutines and replies a round leads to the same IDs, tells the table once of all that each peer answered and of nothing else, and new candidates are contacts that peers named |
| Dhts.Dht.RunRounds | dht/lookup.go:103-154 | The loop ends over any replies, in the state that many rounds lead to, with nobody left to contact, each contacted peer having taught the table once |
| Dhts.Dht.LookupNode | dht/lookup.go:95-157 | Returns the K nearest of exactly the IDs reachable through successful replies without passing through self, each as a contact of the table or of an answer; the table is told of all that these peers answered, and of nothing else |
| Dhts.Dht.MergeAnswer | dht/lookup.go:195-232 | The first record to arrive is kept, named contacts become candidates, a failed peer and only such is removed from the table |
| Dhts.Dht.FindValueRound | dht/lookup.go:186-240 | For every order of goroutines: the same IDs, a record iff some peer of the batch has one, and exactly the failed peers of the batch out of the table |
| Dhts.Dht.LookupValue | dht/lookup.go:159-252 | The local record; nothing if no node is known; else a record iff in some round one comes in and is taken, no earlier round having taken one or run out of time, and it is what a peer asked in that round answered; without a search the table stays, and a search drops exactly the failed peers of all rounds that ran |
| Searches.AlwaysTaken | dht/lookup.go:242-248 | When records that come in are always taken in time, a search returns one iff some reachable peer has one |
| Searches.OnlyLocalIsCertain | dht/lookup.go:242-248 | Whatever the select picks, a record is returned for sure iff it is local |
| Dhts.Dht.Announce | dht/lookup.go:254-296 | Succeeds iff the local Put does, and then sends to exactly the K nearest reachable nodes, under addresses and ports from the table or an answer, the table being told of all that was answered |
| Dhts.Dht.HandlePing | dht/dht.go:92-117 | A sender with a readable ID is added to the table; the pong carries the node's ID |
| Dhts.Dht.HandleFindNode | dht/dht.go:119-143 | Answers with the K nearest contacts, or not at all if the target cannot be read |
| Dhts.Dht.HandleStore | dht/dht.go:145-151 | The effect of a Put, nothing else |
| Dhts.Dht.HandleFindValue | dht/dht.go:153-195 | The unexpired record of that name and group, else the nearest contacts, else not found |
| Stores.Store.Put | dht/store.go:101-119 | Refuses expired, unverified and foreign records in that order, else replaces the record of the name |
| Stores.Store.Get | dht/store.go:121-133 | The record of the name unless it has expired |
| Stores.Store.GetPublic | dht/store.go:135-144 | Only a record with an empty group key |
| Stores.Store.GetForGroup | dht/store.go:146-155 | Only a record with that group key |
| Stores.Store.Delete | dht/store.go:157-161 | The name is gone, the others stay |
| Stores.Store.Cleanup | dht/store.go:195-209 | In any visiting order exactly the expired records go, and are counted |
| Stores.RunSane | dht/store.go:101-119 | In every run a store holds only records that passed verification, each under its own name |
| Stores.PutDecides | dht/store.go:39-119 | With a scheme that accepts what a key signed and nothing else: accepted iff not past its last second, signed over all its fields by the key it carries, and the name free or of that key; and which refusal comes otherwise |
| Stores.HeldIsAuthentic | dht/store.go:39-119 | In every run from the empty store each record held was signed, with all its fields as they are, by the key it carries |
| Stores.AlteredIsRefused | dht/store.go:39-119 | A held record with any field but the signature changed is refused by every store at every time |
| Stores.HolderIsLastAccepted | dht/store.go:101-119 | Whatever is stored is the record of the latest accepted Put |
| Stores.OwnershipChange | dht/store.go:101-209 | When a name is no longer with its holder, a Delete or a cleanup strictly after the Expires of the holder's last accepted record took it away from that very holder, and left it to nobody |
| Stores.KeptIffNeverReleased | dht/store.go:101-209 | Through a whole run a name is with the key that had it at the start iff no operation deletes it and no cleanup runs after the Expires of its last accepted record |
| Stores.OwnerKeepsName | dht/store.go:111-117 | Without Delete an owner keeps the name while its records have not expired |
| Stores.CleanupIrrelevant | dht/store.go:195-209 | Two runs with the same Puts and Deletes answer every query alike, whenever cleanups ran in each, if no Put is contested |
| Stores.OneKeyNeverContested | dht/store.go:111-117 | A name that only one key puts is never contested |
| Stores.ContestShows | dht/store.go:101-119 | A cleanup just before a contested Put hands the name to the newcomer; without it nobody is found |
| Stores.TakeoverAfterCleanup | dht/store.go:101-209 | From an empty store: of two rival records the first is stored, and after its expiry the second takes the name if a cleanup came in between, while without one the Put is contested and nobody is found |
| Stores.CleanupScheduleIrrelevance | dht/store.go:195-209 | Every cleanup schedule answers like none at every moment of a run iff no Put is contested |
| Registration.CreatedRecord | dht/register.go:20-55 | Created iff name, address and key are given; says what was asked for, is signed by that key, and Expires is the second in which the given life, or else an hour, ends |
| Registration.CreatedRecordVerifies | dht/register.go:39-54 | A created record carries a signature that verifies |
| Registration.CreatedRecordAccepted | dht/register.go:20-55 | A store accepts the record exactly up to the beginning of the second in which the given life, or else an hour, ends, if the name is free or its own |
| Registration.AcceptedAtOnce | dht/register.go:33-37 | With the default life, or any of a second or more, the record is accepted at once unless another key holds the name, as a first registration or as a renewal |
| Registration.RegisteredRivals | dht/register.go:20-55 | Two keys that register one name create records that are rivals exactly while the first one's Expires has passed and the other's has not, each Expires being the second in which the given life, or else an hour, ends |
| Networks.NodeRuns | dht/dht.go:92-195 | In every run of the network each node goes through a run of its own store, under a clock that does not run backwards, and a run of its own table |
| Networks.LookupValueSafe | dht/lookup.go:159-252 | In every run of the network a returned record has the name and group asked for, verifies, was unexpired when its holder read it, and with an unforgeable scheme was signed as it is by the key it carries |
| Networks.NetCovered | dht/dht.go:92-117 | Coverage survives every run in which tables are told only of live nodes and forget nobody |
| Networks.CoveredByHearing | dht/routing.go:93-121 | A node told only of live nodes is covered iff it has heard of one from every bucket range in which the network has a node |
| Networks.CoveredAnswer | dht/dht.go:119-143 | The answer of a covered node, read off the wire, is its K nearest contacts with their addresses and ports, and a covered reply |
| Naming.LookupKeepsCoverage | dht/lookup.go:95-157 | In a covered network all that a lookup for a node teaches the table, whoever answers, is live nodes with addresses, so the network stays covered |
| Naming.ValueLookupForgetsNobody | dht/lookup.go:195-203 | In a covered network where all peers answer, a lookup for a value leaves the table as it is |
| Naming.NearestHold | dht/lookup.go:254-296 | When everybody answers and every send arrives, the K nodes nearest to the name are given the record, and go on holding it |
| Naming.SilentLookupReaches | dht/lookup.go:159-252 | A lookup that meets no record reaches the K nodes nearest to the name |
| Naming.AnnouncedNameIsFound | dht/lookup.go:159-296 | After an announcement of a name nobody held, of which one send to the K nearest nodes arrives, every other node's lookup returns that record until it expires |
| Naming.ExpiredNameIsLost | dht/announce.go:50-56 | Once the record has expired nobody finds the name, however often the same record was announced again |
| Communities.CommunityFinds | dht/lookup.go:159-296 | In any network of more than K + 1 nodes that know each other, after an announcement a node that holds nothing under the name gets the record by a search |
| Communities.CommunityMeetsAssumptions | dht/lookup.go:254-296 | In any network of nodes that know each other an announcement and a later lookup by any other node meet all that the end-to-end result assumes |
| Framing.Uint32RoundTrip | dht/rpc.go:83-84 | The length field is read back |
| Framing.Uint32IsBigEndian | dht/rpc.go:108 | The length field is big-endian |
| Framing.FrameRoundTrip | dht/rpc.go:72-123 | A framed body is read back, and exactly the frame consumed, iff it is at most 1 MiB; otherwise refused, or cut short by the wrapped length |
| Framing.MessageRoundTrip | dht/rpc.go:72-123 | A message with a canonical body of at most 1 MiB arrives as sent |
| Framing.TruncatedFrame | dht/rpc.go:99-117 | A frame that breaks off is never taken for a message |
| Framing.Conn.ReadFull | dht/rpc.go:99-117 | However the stream is cut, the next bytes are read in full, or none are returned at its end |
| Framing.Conn.ReadMessage | dht/rpc.go:96-123 | For any chunking, reads what the frame format says and leaves the rest |
| Framing.Conn.WriteMessage | dht/rpc.go:72-94 | Sends exactly one frame, or nothing if the body cannot be encoded |

## Left out

- Sockets, dialling, deadlines and goroutine lifetimes: a call is an answer or a failure, a round a barrier, a method under a mutex one atomic step. A lookup that returns early leaves goroutines behind that may still drop failed peers from the table; the model lets them finish first.
- Concurrency on one routing table or store between two lookups of the same node; over a run of the network their steps appear as separate events.
- Slices that share memory: buckets and candidates are sequences, so writing through another slice of the same array is not captured. The code shares none, since `Closest` copies and every other slice is replaced under the lock.
- `sort.Slice` in `Closest` is taken as the candidate sort; any sort gives the same result.
- The textual form of IP addresses: a text is an address or none. Contacts with one ID and different addresses are not told apart in lookup results, which are stated over IDs.
- The JSON of message bodies: messages are values, except in `Framing.dfy`, where the encoder is a parameter. Write errors, and bytes a failed connection has already taken, are not modelled.
- ed25519 and SHA-256. A public key whose length is not 32 bytes makes the signature library panic in `Verify`; here the check is a total function.
- Overflow of 64-bit times in `CreateRecord` and of expiry in seconds times nanoseconds: clocks are unbounded.
- `Store.All`, `Store.Size`, `NodeIDFromBytes`, `PingPeer`, the accept loop and message dispatch: they would add only easy members.
- The Reannouncer's timer: re-announcing appears as further stores of the same record.
- `dht/api.go`, `dht/peers.go`, `dht/bootstrap_peers.go`, `core/`, `cli/` and `pairing/`: files, HTTP, process control and printing.
