# RIPv2 router core, modelled in Dafny

This project models three parts of a small RIP version 2 distance-vector
router:

- **The routing table** (`RoutingTable.dfy`). It maps each destination
  router id to its route. It also holds the neighbour data read from the
  configuration file, the time of the next periodic update, and the time
  a triggered update asked for.
- **The Response packet codec and advertisement builder** (`Packet.dfy`).
  The builder splits the table into groups of at most 25 entries and
  applies split horizon with poison reverse (RFC 2453, section 3.4.3).
  It encodes each group as a RIPv2 Response (RFC 2453, section 4):
  command 2, version 2, and the sender's router id as a 16-bit big-endian
  number in the header bytes that standard leaves unused. Each 20-byte
  entry carries the address family, the destination and the metric. The
  decoder reads such a buffer back into a packet value. The receiver
  accepts a decoded packet only if it passes four checks, run in order.
- **The configuration validator** (`ValidateData.dfy`). It accepts or
  rejects a router id, a list of input ports, a list of output links
  `(port, cost, neighbour id)` and three timers. The checks run in a
  fixed order, and the first failing group decides the outcome.

Supporting modules:

- `Common.dfy`: an option type, distinctness, list-to-set facts and
  order-preserving deletion.
- `Bytes.dfy`: bytes and big-endian integer encoding, with round-trip
  lemmas in both directions.
- `RouteEntries.dfy`: a route entry as a value with the fields the table
  and the builder touch.

How the source's behaviour appears in the model:

- **State that the source updates in place is a class.** The table is a
  class whose dict is itself an object (`RouteDict`). This makes one
  behaviour expressible: removing a route rebinds the field to a copy,
  and the dict object held before the removal keeps its contents.
- **The packet buffer is an `array`.** It is filled by slice writes, as
  the `bytearray` is.
- **The loops are loops.** The generator's collection loop, the
  decoder's 20-byte stride, and the validator's two `for … break` loops
  appear as Dafny loops proved against specification functions.
- **Times are whole seconds.** The clock reading and the two random
  draws (`randint(-5, 5)` and `randint(1, 5)`) are parameters
  constrained to their ranges.
- **The sleep splits the triggered update in two.**
  `set_triggered_update_time` becomes the part before the sleep and the
  part after it. This lets a second request run during the first one's
  wait.
- **Python exceptions are explicit outcomes.**
  - An `IndexError` or `KeyError` is `None` or `found == false`.
  - The `ZeroDivisionError` of the timer check is the outcome
    `DivisionByZero`.
  - An `OverflowError` from `to_bytes` is excluded by preconditions: the
    router id must fit 16 bits, every destination 32 bits, and every
    metric that is sent as stored 32 bits (a poisoned metric is always
    INFINITY). A validated configuration has ids up to 64000 and metrics
    up to 16, which meet them.

The model follows the code where its docstrings suggest otherwise:

- `_construct_packet` speaks of "up to 25 entries" (`packet.py:70`), but
  the encoder itself has no cap. The builder's chunking keeps each packet
  at 25 entries or fewer, and the decoder reads at most 25.
- The docstring of `get_next_packet_entries` (`packet.py:31-35`) says only
  entries with a metric below infinity, or with a flag, and not learned
  from the receiver are sent. The code sends every entry of the table; an
  entry learned from the receiver is sent with metric INFINITY (poison
  reverse).
- `read_packet` slices `packet[2:4]` (`packet.py:118`) without checking
  the length. A 2- or 3-byte buffer therefore decodes without error, with
  a sender id read from whatever part of bytes 2 and 3 is present. Only a
  buffer shorter than 2 bytes fails.
- `neighbours` is documented as the router ids of the neighbouring
  routers (`routingtable.py:164`), but it returns the keys of the routing
  table. A packet's sender counts as a neighbour when the table holds a
  route to it; the configured neighbours in `config_table` play no part.
- `set_triggered_update_time` is documented to return `False` when it has
  been set again in the meantime (`routingtable.py:215-218`). The code
  compares target times, so two overlapping requests that pick the same
  target time both confirm.
- The output-link loop checks each link's port range, then its cost,
  then its id, and stops at the first faulty link
  (`validate_data.py:193-207`). A later link's error is never looked at
  (`ValidateData.EarlierItemReportedFirst`). A cost or id error found by
  the loop is reported before a port shared between links, which is
  checked after the loop (`validate_data.py:211-234`,
  `ValidateData.FaultOrderWithinLink`).

## Model

| member | source | states |
|---|---|---|
| Common.CardToSet | validate_data.py:171-174 | a list's set has at most as many elements as the list, and exactly as many iff no element repeats: the duplicate test the validator relies on |
| Common.Erase | routingtable.py:185 | deleting a key keeps the other keys in their order and keeps them distinct; the count drops by one exactly when the key was present |
| Bytes.FromBEToBE | packet.py:65 | reading back a value written as `width` big-endian bytes returns it |
| Bytes.ToBEFromBE | packet.py:104-110 | writing back a value read from bytes returns the same bytes, so the encoding is a bijection onto the values below 256^width |
| RouteEntries.RouteEntry.WithMetric | packet.py:44-45 | the shallow copy has the new metric and every other field of the original; the original value is untouched |
| RoutingTables.RouteDict.constructor | routingtable.py:57 | a new dict is empty |
| RoutingTables.RouteDict.Copy | routingtable.py:184 | `dict(d)` has the same keys in the same order, bound to the same routes |
| RoutingTables.RouteDict.Set | routingtable.py:172 | the key is bound to the route and nothing else changes; a new key goes last in iteration order |
| RoutingTables.RouteDict.Delete | routingtable.py:185 | the key is gone, the others keep their routes and their order; `found` is false exactly when the key was absent (KeyError) |
| RoutingTables.RoutingTable.constructor | routingtable.py:50-63 | empty table and neighbour data, the given id and deltas, no triggered time yet, and the first periodic update at now + update delta + jitter |
| RoutingTables.RoutingTable.Len | routingtable.py:65-67 | the length is the number of destinations with a route |
| RoutingTables.RoutingTable.Iter | routingtable.py:69-71 | iteration yields every destination exactly once, and no other id |
| RoutingTables.RoutingTable.Get | routingtable.py:73-78 | a lookup returns the stored route, or None (KeyError) exactly when there is none |
| RoutingTables.RoutingTable.Contains | routingtable.py:80-84 | membership agrees with iteration and with lookup |
| RoutingTables.RoutingTable.Neighbours | routingtable.py:162-166 | the neighbours are exactly the table's destinations, as many as the table's length |
| RoutingTables.RoutingTable.DelItem | routingtable.py:86-90 | `del table[id]` has exactly the effect of `remove_route` |
| RoutingTables.RoutingTable.AddRoute | routingtable.py:168-172 | the route is stored under the id, every other entry is unchanged, and the neighbour data and timing fields are untouched |
| RoutingTables.RoutingTable.AddConfigData | routingtable.py:174-175 | the neighbour's port and cost are recorded; the routing table and the timing fields are untouched |
| RoutingTables.RoutingTable.RemoveRoute | routingtable.py:177-185 | the table is a fresh dict without the id and otherwise equal; the length drops by one exactly when the id was present; the dict held before is unchanged |
| RoutingTables.RoutingTable.UpdateSchedUpdateTime | routingtable.py:187-206 | the next periodic update is at the base time + update delta + jitter, within 5 s of base + delta, and the base time is returned |
| RoutingTables.RoutingTable.BeginTriggeredUpdate | routingtable.py:228-236 | the candidate time is always recorded; the request waits exactly when the candidate comes before the periodic update |
| RoutingTables.RoutingTable.FinishTriggeredUpdate | routingtable.py:237-238 | after the wait the request is confirmed exactly when the recorded time is still its own candidate |
| RoutingTables.RoutingTable.SetTriggeredUpdateTime | routingtable.py:208-238 | with nothing else running, the request is confirmed exactly when its candidate comes before the periodic update |
| RoutingTables.OverlappingTriggeredUpdates | routingtable.py:215-221 | of two overlapping requests, the later is confirmed exactly when it waits; the earlier only if it waited and the later picked the same time, so never when their times differ |
| ValidateData.ReturnCode | validate_data.py:155-157 | 0 is returned exactly for an accepted configuration, 1 for every reported error |
| ValidateData.ItemFault | validate_data.py:190-207 | one output item's fault is a port, cost or id error |
| ValidateData.FirstFault | validate_data.py:190-207 | the fault the output loop stops at is a port, cost or id error |
| ValidateData.FirstFaultNone | validate_data.py:190-208 | the output loop finds no fault exactly when every item is in range |
| ValidateData.FirstFaultOfPrefix | validate_data.py:195-207 | once the loop has broken, the items after the break do not affect the result |
| ValidateData.FirstFaultAt | validate_data.py:190-207 | the first faulty item alone determines the reported fault |
| ValidateData.AcceptsExactlyValidConfigs | validate_data.py:138-251 | validation returns 0 exactly when every value is acceptable: ids and ports in range, no port reused, costs in 1..16, and timers t, 6t, 4t with t not zero |
| ValidateData.RouterIdCheckedFirst | validate_data.py:149-157 | a router id outside 1..64000 is reported before anything else is looked at |
| ValidateData.InputPortsCheckedSecond | validate_data.py:161-178 | with a valid id, an input port out of range or repeated is reported whatever follows |
| ValidateData.FirstFaultyOutputDecides | validate_data.py:186-234 | the first faulty output item's own error is reported, even when ports are also reused |
| ValidateData.PortReuseCheckedBeforeTimers | validate_data.py:210-234 | with every item in range, a port repeated among outputs or shared with an input is reported before the timers are checked |
| ValidateData.TimersRatio | validate_data.py:236-248 | accepted timers are exactly three values in the ratio 1 : 6 : 4 |
| ValidateData.DoctestsRouterIdAndInputPorts | validate_data.py:79-93 | the five doctests that fail on the router id or on an input port |
| ValidateData.DoctestsOutputPorts | validate_data.py:94-105 | the four doctests that fail on an output port: out of range, repeated, or shared with an input |
| ValidateData.DoctestsCostsAndIds | validate_data.py:106-121 | the four doctests that fail on an output cost or id |
| ValidateData.FaultOrderWithinLink | validate_data.py:190-234 | within one link the port range is reported before the cost and the cost before the id; a cost error is reported before a port two links share |
| ValidateData.DoctestsAccepted | validate_data.py:77-78 | the four accepted doctests, with costs 16 and 15 and id 64000 accepted, and the four rejected timer triples |
| ValidateData.EarlierItemReportedFirst | validate_data.py:190-230 | an id error in an earlier link is reported although a later link's cost is out of range |
| ValidateData.IsNotAsWritten | validate_data.py:173 | `is not` on two ints agrees with `!=` only from -5 to 256 |
| ValidateData.ManyInputPortsRejectedAsWritten | validate_data.py:173 | 257 distinct in-range input ports fail the length test as written, though the configuration is acceptable |
| ValidateData.CheckInputPorts | validate_data.py:159-174 | the input-port group fails exactly when a port is out of range or repeats; otherwise the collected set is the set of ports |
| ValidateData.PassItem | validate_data.py:190-207 | a link that passes all three tests leaves the prefix seen so far free of faults |
| ValidateData.StopAt | validate_data.py:190-207 | the loop's break at the first faulty item reports that item's fault |
| ValidateData.CollectOutputPorts | validate_data.py:186-207 | the flag set is exactly the first faulty item's fault; with no faulty item, the collected set is the set of output ports |
| ValidateData.CheckOutputPorts | validate_data.py:180-217 | the cost and id flags are set exactly for the first faulty item's fault; with no faulty item, the port flag is set exactly when a port repeats or is an input port |
| ValidateData.ValidateData | validate_data.py:67-251 | the validator's outcome is the ordered chain of checks (`Verdict`) |
| Packets.Poisoned | packet.py:43-45 | a route learned through the destination neighbour is advertised with metric 16; any other route is advertised unchanged |
| Packets.Slice | packet.py:118 | Python slicing: bounds past the end are cut back, an empty range is empty |
| Packets.SplitHorizon | packet.py:41-47 | the i-th advertised entry names the i-th destination and has the stored route, with metric 16 exactly when its next hop is the neighbour |
| Packets.ChunkSizes | packet.py:48-51 | there are k div 25 + 1 chunks; all but the last hold 25 entries, and the last holds k mod 25 |
| Packets.ChunkAt | packet.py:40-51 | chunk j is the run of entries starting at 25 j |
| Packets.FlattenChunks | packet.py:40-51 | concatenating the chunks gives back the entries in order |
| Packets.ChunksSnoc | packet.py:47-50 | one more entry extends the last chunk; a chunk that becomes full is followed by a new empty one |
| Packets.CollectStep | packet.py:47-50 | one step of the generator's collection loop keeps it equal to chunking of what was seen |
| Packets.NextPacketEntries | packet.py:29-51 | the generator yields exactly the chunks of the poisoned advertisement, in table order |
| Packets.AdvertisedEncodable | packet.py:42-47 | a table whose ids fit 32 bits, and whose metrics fit 32 bits wherever they are sent unpoisoned, gives an advertisement that fits the entry fields |
| Packets.ChunksEncodable | packet.py:94-95 | every chunk of an encodable advertisement is encodable |
| Packets.Header | packet.py:63-65 | the header is 4 bytes |
| Packets.EncodeEntry | packet.py:77-85 | an entry is 20 bytes |
| Packets.EncodePacket | packet.py:73 | a packet is 4 + 20 n bytes long |
| Packets.EncodedEntryAt | packet.py:77-85 | the i-th entry's encoding occupies bytes 20 i to 20 i + 20 of the entry area |
| Packets.EntryInPacket | packet.py:75-85 | entry i of a packet occupies bytes 4 + 20 i to 24 + 20 i |
| Packets.BlockOfSnoc | packet.py:77-85 | appending a 20-byte block keeps the earlier blocks in place and puts the new one last |
| Packets.EntryFields | packet.py:78-84 | an entry holds the family at +0, the destination at +4 and the metric at +16, with zeros at +2 and +8 to +16 |
| Packets.HeaderLayout | packet.py:63-65 | bytes 0 and 1 of a packet are 2 and 2, and bytes 2-3 are the router id in big-endian order |
| Packets.EntryLayout | packet.py:78-84 | an encoded entry anywhere in a buffer reads back as family 2, its destination and its metric, with its reserved bytes zero |
| Packets.PacketLayout | packet.py:63-85 | bytes 0 and 1 are 2 and 2, bytes 2-3 read as the router id; each entry's family, destination and metric read back at their offsets, and its reserved bytes are zero |
| Packets.AssignSlice | packet.py:78-84 | a slice write replaces exactly that slice of the buffer |
| Packets.ConstructPacketHeader | packet.py:54-65 | the first four bytes become the header and the rest of the buffer is untouched |
| Packets.FillNext | packet.py:77-86 | one turn of the encoder's loop: the next 20 bytes are still zero, and writing the entry there extends the written prefix by that entry |
| Packets.WriteEntry | packet.py:77-85 | the three slice writes into a zeroed run produce one encoded entry, and the rest of the buffer is untouched |
| Packets.WriteIntoZeros | packet.py:78-84 | a slice write into zeros keeps the zeros on either side |
| Packets.EntryWrites | packet.py:78-84 | the three slice writes of one entry into zeros give exactly the encoded entry |
| Packets.AppendEntry | packet.py:77-85 | the three written fields and the zeros between them form one encoded entry |
| Packets.ConstructPacket | packet.py:68-87 | a new buffer, 4 + 20 n bytes long, holding exactly the encoded packet |
| Packets.ConstructChunkPackets | packet.py:93-95 | one freshly built packet per chunk, in order, each the encoding of its chunk |
| Packets.ConstructPackets | packet.py:90-97 | one new packet per chunk, k div 25 + 1 of them, each the encoding of its chunk |
| Packets.EntriesFrom | packet.py:120-129 | the first n entries after the header, each read at 4 + 20 i |
| Packets.EntriesFromSnoc | packet.py:125-126 | reading one more entry appends it |
| Packets.StopCount | packet.py:123-128 | the decoder stops after min(25, (L - 4) div 20) entries |
| Packets.ReadPacket | packet.py:114-130 | the decoder fails only below 2 bytes, returns min(25, (L - 4) div 20) entries for L of at least 4, and agrees with the closed form `Decode` |
| Packets.Responses | packet.py:100-111 | the decoded form of each encoded entry, in order |
| Packets.ReadEntry | packet.py:100-111 | the three fields read from an entry fit 16, 32 and 32 bits |
| Packets.ReadEntryFields | packet.py:100-111 | the family is read big-endian from bytes 0-1 of the entry, the router id from bytes 4-7 and the metric from bytes 16-19 |
| Packets.ReadEncodedEntry | packet.py:100-111 | reading an encoded entry gives family 2, its destination and its metric |
| Packets.DecodeEncode | packet.py:68-130 | decoding an encoded packet gives command 2, version 2, the sender id and the entries in order, cut to the first 25 |
| Packets.AdvertisedPacketDecodes | packet.py:29-130 | every packet built for a neighbour decodes to its chunk of the advertisement, with this router as sender |
| Packets.SingleRouteAdvertisement | packet.py:29-130 | a one-route table sends one packet whose one entry carries the poisoned metric |
| Packets.PoisonReverseScenario | packet.py:29-130 | a route to 5 learned through 2 at metric 3 is advertised to 2 at metric 16 and to 3 at metric 3 |
| Packets.CheckPacket | packet.py:133-175 | the check that fails first: sender is this router, then sender not in the table, then command not 2, then version not 2 |
| Packets.ValidatePacket | packet.py:133-175 | a packet is accepted iff its sender is not this router, the table has a route to the sender, and command and version are both 2 |

## Left out

- `port_opener.py` and `port_closer.py`, which only open and close UDP sockets.
- The routing table's display methods (`__str__`, `_str_headers`, `_str_entry`), which only format text.
- `print` in the validator and `logger` in the packet check. Only the outcome is modelled: the `Outcome` and `PacketCheck` values name the message.
- `datetime`, `timedelta` and `datetime.now()`: times are whole seconds, and the clock reading is a required parameter.
- `randint`: its two draws are parameters with range preconditions.
- `sleep` and real concurrency. The overlap of two triggered-update requests is one fixed interleaving (`OverlappingTriggeredUpdates`): the second request starts while the first sleeps. Threads and locks are not modelled.
- The `routeentry` module is not part of this model. A route is a value with the six fields the shown code uses, and `shallow_copy` is a value copy.
- Route merging and route aging are not part of this model.
- `socket.AF_INET` is fixed to 2.
- The `None`-argument paths of the validator: every argument is a non-null sequence or number.
- ValidateData.ValidateData: the timer ratios use exact integer multiplication. The source's float division `timers[1] / timers[0]` can round for very large values, and raises OverflowError when a timer is too large for a float.
- Iterating over a mutable sequence of route entries while they are edited in place is not modelled: route entries are values. Only the dict rebinding of `remove_route` is modelled as aliasing.
- Packets.ReadEntry requires the whole 20-byte entry to lie inside the buffer. `read_packet` only calls `_read_packet_entry` in that case, so a shorter tail is never read as an entry.

## Findings

| source | as written | input that shows it | evidently intended | confidence | as-written member | corrected member |
|---|---|---|---|---|---|---|
| validate_data.py:173 | `len(temp_input_set) is not len(input_ports)` compares two separately computed ints by identity. CPython shares int objects only from -5 to 256. | 257 distinct input ports, all in 1024..64000, with no output links and timers 10, 60, 40 | the lengths are compared by value (`!=`), so that the test fails only when a port repeats | medium, not executed | ValidateData.ManyInputPortsRejectedAsWritten | ValidateData.CheckInputPorts |
