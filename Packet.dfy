/** RIP version 2 Response packets (RFC 2453, section 4): building the
    advertisements one router sends to a neighbour, their byte encoding,
    decoding a received buffer, and the checks a received packet must
    pass before it may update the routing table.

    The 4-byte header holds the command (2, Response), the version (2) and,
    in the two bytes RFC 2453 leaves unused, the sender's router id as a
    16-bit big-endian number. Each 20-byte entry holds the address family
    at offset 0 (2 bytes), the destination router id at offset 4 (4 bytes)
    and the metric at offset 16 (4 bytes), all big-endian; the other bytes
    are zero. */
module Packets {
  import opened Common
  import opened Bytes
  import opened RouteEntries
  import opened RoutingTables
  import ValidateData

  const MAX_ENTRIES := 25
  const ENTRY_LEN := 20
  const HEADER_LEN := 4
  const RIP_PACKET_COMMAND := 2
  const RIP_VERSION_NUMBER := 2
  /** The address family identifier written into every entry (`socket.AF_INET`). */
  const AF_INET := 2

  datatype ResponseEntry = ResponseEntry(afi: int, routerId: int, metric: int)

  datatype ResponsePacket = ResponsePacket(command: int, version: int, senderRouterId: int, entries: seq<ResponseEntry>)

  /** A table entry as the builder hands it to the encoder: the destination
      router id and the route (possibly a poisoned copy) to it. */
  type TableEntry = (int, RouteEntry)

  function Min(a: int, b: int): int { if a <= b then a else b }

  /** Python's `s[lo:hi]` for non-negative bounds: a bound past the end is
      cut back to the end, and an empty range gives the empty sequence. */
  function Slice<T>(s: seq<T>, lo: nat, hi: nat): (r: seq<T>)
    ensures lo <= hi <= |s| ==> r == s[lo..hi]
    ensures hi > |s| ==> r == if lo < |s| then s[lo..] else []
    ensures hi <= lo ==> r == []
  {
    var end := Min(hi, |s|);
    if lo < end then s[lo..end] else []
  }

  // ---------------------------------------------------------------------
  // Building advertisements

  /** Split horizon with poison reverse (RFC 2453, section 3.4.3): a route
      learned through the neighbour the advertisement goes to is
      advertised back to it as unreachable, through a copy; any other
      route is advertised as stored. */
  function Poisoned(route: RouteEntry, dest: int): (r: RouteEntry)
    ensures r.metric == if route.nextHop == dest then ValidateData.INFINITY else route.metric
    ensures r == route.WithMetric(r.metric)
  {
    if route.nextHop == dest then route.WithMetric(ValidateData.INFINITY) else route
  }

  /** The entries advertised to `dest`: one per destination, in the order
      the table yields them, each with the stored route or its poisoned copy. */
  function Advertised(ids: seq<int>, routes: map<int, RouteEntry>, dest: int): (r: seq<TableEntry>)
    requires forall i :: 0 <= i < |ids| ==> ids[i] in routes
    ensures |r| == |ids|
  {
    seq(|ids|, i requires 0 <= i < |ids| => (ids[i], Poisoned(routes[ids[i]], dest)))
  }

  /** Split horizon with poison reverse, entry by entry: the `i`-th entry
      names the `i`-th destination and carries its stored route, with the
      metric raised to INFINITY exactly when the route's next hop is the
      router the advertisement goes to. */
  lemma SplitHorizon(ids: seq<int>, routes: map<int, RouteEntry>, dest: int, i: nat)
    requires forall k :: 0 <= k < |ids| ==> ids[k] in routes
    requires i < |ids|
    ensures var e, route := Advertised(ids, routes, dest)[i], routes[ids[i]];
      && e.0 == ids[i]
      && e.1.metric == (if route.nextHop == dest then ValidateData.INFINITY else route.metric)
      && e.1 == route.WithMetric(e.1.metric)
  {
  }

  /** Consecutive groups of MAX_ENTRIES; the last group holds the rest and
      may be empty (no entries at all, or a multiple of MAX_ENTRIES). */
  function Chunks<T>(s: seq<T>): (cs: seq<seq<T>>)
    ensures |cs| >= 1
    decreases |s|
  {
    if |s| < MAX_ENTRIES then [s] else [s[..MAX_ENTRIES]] + Chunks(s[MAX_ENTRIES..])
  }

  /** There are |s| div MAX_ENTRIES full chunks, followed by one holding the
      remaining |s| mod MAX_ENTRIES elements. */
  lemma {:induction false} ChunkSizes<T>(s: seq<T>)
    ensures var cs := Chunks(s);
      && |cs| == |s| / MAX_ENTRIES + 1
      && (forall j :: 0 <= j < |cs| - 1 ==> |cs[j]| == MAX_ENTRIES)
      && |cs[|cs| - 1]| == |s| % MAX_ENTRIES
    decreases |s|
  {
    if |s| >= MAX_ENTRIES {
      var t := s[MAX_ENTRIES..];
      ChunkSizes(t);
      var cs, rest := Chunks(s), Chunks(t);
      assert cs == [s[..MAX_ENTRIES]] + rest;
      assert forall j :: 1 <= j < |cs| ==> cs[j] == rest[j - 1];
    }
  }

  /** Chunk `j` is the run of `s` that starts at MAX_ENTRIES * j. */
  lemma {:induction false} ChunkAt<T>(s: seq<T>, j: nat)
    requires j < |Chunks(s)|
    ensures MAX_ENTRIES * j + |Chunks(s)[j]| <= |s|
    ensures Chunks(s)[j] == s[MAX_ENTRIES * j .. MAX_ENTRIES * j + |Chunks(s)[j]|]
    decreases |s|
  {
    if |s| >= MAX_ENTRIES && j > 0 {
      var t := s[MAX_ENTRIES..];
      assert Chunks(s)[j] == Chunks(t)[j - 1];
      ChunkAt(t, j - 1);
      var k, n := MAX_ENTRIES * (j - 1), |Chunks(t)[j - 1]|;
      assert t[k .. k + n] == s[MAX_ENTRIES + k .. MAX_ENTRIES + k + n];
    }
  }

  function Flatten<T>(cs: seq<seq<T>>): seq<T> {
    if cs == [] then [] else cs[0] + Flatten(cs[1..])
  }

  /** Chunking loses and reorders nothing. */
  lemma {:induction false} FlattenChunks<T>(s: seq<T>)
    ensures Flatten(Chunks(s)) == s
    decreases |s|
  {
    if |s| >= MAX_ENTRIES {
      FlattenChunks(s[MAX_ENTRIES..]);
      var cs := Chunks(s);
      assert cs[0] == s[..MAX_ENTRIES];
      assert cs[1..] == Chunks(s[MAX_ENTRIES..]);
      assert s == s[..MAX_ENTRIES] + s[MAX_ENTRIES..];
    }
  }

  /** The chunks of the advertisement for `dest`, as the generator yields
      them: routes are collected one by one, poisoned where they were
      learned through `dest`, and the collected list is handed out and
      restarted each time it reaches MAX_ENTRIES; whatever is left, even
      nothing, is handed out at the end. */
  method NextPacketEntries(rt: RoutingTable, dest: int) returns (chunks: seq<seq<TableEntry>>)
    requires rt.Valid()
    ensures chunks == Chunks(Advertised(rt.Iter(), rt.table.entries, dest))
  {
    var ids := rt.Iter();
    ghost var adv := Advertised(ids, rt.table.entries, dest);
    var entries: seq<TableEntry> := [];
    chunks := [];
    for i := 0 to |ids|
      invariant chunks + [entries] == Chunks(adv[..i])
    {
      var id := ids[i];
      var route := rt.Get(id).value;
      if route.nextHop == dest {
        route := route.WithMetric(ValidateData.INFINITY);
      }
      assert adv[..i + 1] == adv[..i] + [(id, route)];
      CollectStep(chunks, entries, adv[..i], (id, route));
      entries := entries + [(id, route)];
      if |entries| == MAX_ENTRIES {
        chunks := chunks + [entries];
        entries := [];
      }
    }
    assert adv[..|ids|] == adv;
    chunks := chunks + [entries];
  }

  /** Appending one element extends the last chunk, and a last chunk that
      becomes full is followed by a new empty one. */
  lemma {:induction false} ChunksSnoc<T>(s: seq<T>, x: T)
    ensures var cs := Chunks(s); var last := cs[|cs| - 1] + [x];
      Chunks(s + [x]) == cs[..|cs| - 1] + (if |last| == MAX_ENTRIES then [last, []] else [last])
    decreases |s|
  {
    if |s| < MAX_ENTRIES {
      if |s| + 1 == MAX_ENTRIES {
        assert (s + [x])[..MAX_ENTRIES] == s + [x];
        assert (s + [x])[MAX_ENTRIES..] == [];
      }
    } else {
      var t := s[MAX_ENTRIES..];
      ChunksSnoc(t, x);
      assert (s + [x])[..MAX_ENTRIES] == s[..MAX_ENTRIES];
      assert (s + [x])[MAX_ENTRIES..] == t + [x];
      var cs, rest := Chunks(s), Chunks(t);
      assert cs == [s[..MAX_ENTRIES]] + rest;
      assert cs[..|cs| - 1] == [s[..MAX_ENTRIES]] + rest[..|rest| - 1];
    }
  }

  /** One step of the generator's collecting: the element joins the list
      being collected, which is handed out if it is now full. */
  lemma CollectStep<T>(handed: seq<seq<T>>, collecting: seq<T>, s: seq<T>, x: T)
    requires handed + [collecting] == Chunks(s)
    ensures var c := collecting + [x];
      if |c| == MAX_ENTRIES then handed + [c] + [[]] == Chunks(s + [x])
      else handed + [c] == Chunks(s + [x])
  {
    ChunksSnoc(s, x);
    var cs := Chunks(s);
    assert cs[..|cs| - 1] == handed;
  }

  /** Every chunk of an encodable sequence is encodable. */
  lemma ChunksEncodable(s: seq<TableEntry>)
    requires Encodable(s)
    ensures forall j :: 0 <= j < |Chunks(s)| ==> Encodable(Chunks(s)[j])
  {
    forall j | 0 <= j < |Chunks(s)| ensures Encodable(Chunks(s)[j]) {
      ChunkAt(s, j);
    }
  }

  /** A table whose advertisement to `dest` fits the entry fields: every
      destination fits 32 bits, and so does every metric that is sent as
      stored; a route learned from `dest` is sent with INFINITY instead,
      so its stored metric is never encoded. */
  ghost predicate Advertisable(routes: map<int, RouteEntry>, dest: int) {
    forall id :: id in routes ==>
      && 0 <= id < Pow256(4)
      && (routes[id].nextHop != dest ==> 0 <= routes[id].metric < Pow256(4))
  }

  /** The advertisement of such a table is encodable: a poisoned metric is
      INFINITY, which fits. */
  lemma AdvertisedEncodable(ids: seq<int>, routes: map<int, RouteEntry>, dest: int)
    requires forall i :: 0 <= i < |ids| ==> ids[i] in routes
    requires Advertisable(routes, dest)
    ensures Encodable(Advertised(ids, routes, dest))
  {
    forall i | 0 <= i < |ids| ensures 0 <= Advertised(ids, routes, dest)[i].1.metric < Pow256(4) {
      SplitHorizon(ids, routes, dest, i);
    }
  }

  // ---------------------------------------------------------------------
  // Encoding

  /** The header: command, version, and the sender's router id in 16 bits. */
  function Header(routerId: nat): (h: seq<Byte>)
    requires routerId < Pow256(2)
    ensures |h| == HEADER_LEN
  {
    [RIP_PACKET_COMMAND, RIP_VERSION_NUMBER] + ToBE(routerId, 2)
  }

  /** One encoded entry; the two reserved runs are zero. */
  function EncodeEntry(destination: nat, metric: nat): (e: seq<Byte>)
    requires destination < Pow256(4) && metric < Pow256(4)
    ensures |e| == ENTRY_LEN
  {
    ToBE(AF_INET, 2) + Zeros(2) + ToBE(destination, 4) + Zeros(8) + ToBE(metric, 4)
  }

  /** Entries whose destination and metric fit the 32-bit fields
      (`to_bytes` raises OverflowError otherwise). */
  ghost predicate Encodable(entries: seq<TableEntry>) {
    forall i :: 0 <= i < |entries| ==> 0 <= entries[i].0 < Pow256(4) && 0 <= entries[i].1.metric < Pow256(4)
  }

  function EncodeEntries(entries: seq<TableEntry>): (r: seq<Byte>)
    requires Encodable(entries)
    ensures |r| == ENTRY_LEN * |entries|
  {
    if entries == [] then []
    else
      var last := entries[|entries| - 1];
      EncodeEntries(entries[..|entries| - 1]) + EncodeEntry(last.0, last.1.metric)
  }

  /** The whole packet. The encoder itself does not limit the number of
      entries; the chunking in front of it does. */
  function EncodePacket(routerId: nat, entries: seq<TableEntry>): (b: seq<Byte>)
    requires routerId < Pow256(2)
    requires Encodable(entries)
    ensures |b| == HEADER_LEN + ENTRY_LEN * |entries|
  {
    Header(routerId) + EncodeEntries(entries)
  }

  /** Entry `i` of an encoding occupies bytes [20i, 20i + 20). */
  lemma {:induction false} EncodedEntryAt(entries: seq<TableEntry>, i: nat)
    requires Encodable(entries)
    requires i < |entries|
    ensures EncodeEntries(entries)[ENTRY_LEN * i .. ENTRY_LEN * i + ENTRY_LEN] == EncodeEntry(entries[i].0, entries[i].1.metric)
  {
    var p, last := entries[..|entries| - 1], entries[|entries| - 1];
    if i < |p| {
      EncodedEntryAt(p, i);
      assert p[i] == entries[i];
    }
    BlockOfSnoc(EncodeEntries(p), EncodeEntry(last.0, last.1.metric), |p|, i);
  }

  /** Block `i` of a run of 20-byte blocks with one block appended. */
  lemma BlockOfSnoc(front: seq<Byte>, e: seq<Byte>, n: nat, i: nat)
    requires |front| == ENTRY_LEN * n && |e| == ENTRY_LEN && i <= n
    ensures (front + e)[ENTRY_LEN * i .. ENTRY_LEN * i + ENTRY_LEN]
         == if i < n then front[ENTRY_LEN * i .. ENTRY_LEN * i + ENTRY_LEN] else e
  {
    if i < n {
      SliceOfFront(front, e, ENTRY_LEN * i, ENTRY_LEN * i + ENTRY_LEN);
    } else {
      SliceOfAppend(front, e, 0, ENTRY_LEN);
      assert e[0..ENTRY_LEN] == e;
    }
  }

  /** The fields of an encoded entry at their offsets. */
  lemma EntryFields(destination: nat, metric: nat)
    requires destination < Pow256(4) && metric < Pow256(4)
    ensures var e := EncodeEntry(destination, metric);
      && e[0..2] == ToBE(AF_INET, 2) && e[2..4] == Zeros(2) && e[4..8] == ToBE(destination, 4)
      && e[8..16] == Zeros(8) && e[16..20] == ToBE(metric, 4)
  {
    var a, z2, d, z8, m := ToBE(AF_INET, 2), Zeros(2), ToBE(destination, 4), Zeros(8), ToBE(metric, 4);
    var p1 := a + z2;
    var p2 := p1 + d;
    var p3 := p2 + z8;
    SliceOfFront(p3, m, 0, 16);
    SliceOfFront(p2, z8, 0, 8);
    SliceOfFront(p1, d, 0, 4);
    SliceOfFront(a, z2, 0, 2);
    SliceOfAppend(a, z2, 0, 2);
    SliceOfAppend(p1, d, 0, 4);
    SliceOfAppend(p2, z8, 0, 8);
    SliceOfAppend(p3, m, 0, 4);
  }

  /** The wire layout of an encoded packet: the header bytes, and for each
      entry the address family, the destination and the metric at their
      offsets with the reserved bytes zero. */
  lemma PacketLayout(routerId: nat, entries: seq<TableEntry>, i: nat)
    requires routerId < Pow256(2)
    requires Encodable(entries)
    requires i < |entries|
    ensures var b, at := EncodePacket(routerId, entries), HEADER_LEN + ENTRY_LEN * i;
      && b[0] == RIP_PACKET_COMMAND && b[1] == RIP_VERSION_NUMBER
      && FromBE(b[2..4]) == routerId
      && FromBE(b[at .. at + 2]) == AF_INET
      && b[at + 2 .. at + 4] == Zeros(2)
      && FromBE(b[at + 4 .. at + 8]) == entries[i].0
      && b[at + 8 .. at + 16] == Zeros(8)
      && FromBE(b[at + 16 .. at + 20]) == entries[i].1.metric
  {
    var b, at := EncodePacket(routerId, entries), HEADER_LEN + ENTRY_LEN * i;
    HeaderLayout(routerId, entries);
    EntryInPacket(routerId, entries, i);
    EntryLayout(b, at, entries[i].0, entries[i].1.metric);
  }

  /** The header bytes of an encoded packet. */
  lemma HeaderLayout(routerId: nat, entries: seq<TableEntry>)
    requires routerId < Pow256(2)
    requires Encodable(entries)
    ensures var b := EncodePacket(routerId, entries);
      && b[0] == RIP_PACKET_COMMAND && b[1] == RIP_VERSION_NUMBER
      && b[2..4] == ToBE(routerId, 2) && FromBE(b[2..4]) == routerId
  {
    var fixed, id, es := [RIP_PACKET_COMMAND as Byte, RIP_VERSION_NUMBER as Byte], ToBE(routerId, 2), EncodeEntries(entries);
    assert EncodePacket(routerId, entries) == (fixed + id) + es;
    SliceOfFront(fixed + id, es, 2, 4);
    SliceOfAppend(fixed, id, 0, 2);
    assert id[0..2] == id;
    FromBEToBE(routerId, 2);
  }

  /** The fields of an encoded entry that lies at `at` in a buffer. */
  lemma EntryLayout(b: seq<Byte>, at: nat, destination: nat, metric: nat)
    requires destination < Pow256(4) && metric < Pow256(4)
    requires at + ENTRY_LEN <= |b|
    requires b[at .. at + ENTRY_LEN] == EncodeEntry(destination, metric)
    ensures FromBE(b[at .. at + 2]) == AF_INET
    ensures b[at + 2 .. at + 4] == Zeros(2)
    ensures FromBE(b[at + 4 .. at + 8]) == destination
    ensures b[at + 8 .. at + 16] == Zeros(8)
    ensures FromBE(b[at + 16 .. at + 20]) == metric
  {
    EntryFields(destination, metric);
    SliceOfSlice(b, at, at + ENTRY_LEN, 0, 2);
    SliceOfSlice(b, at, at + ENTRY_LEN, 2, 4);
    SliceOfSlice(b, at, at + ENTRY_LEN, 4, 8);
    SliceOfSlice(b, at, at + ENTRY_LEN, 8, 16);
    SliceOfSlice(b, at, at + ENTRY_LEN, 16, 20);
    FromBEToBE(AF_INET, 2);
    FromBEToBE(destination, 4);
    FromBEToBE(metric, 4);
  }

  /** Entry `i` of an encoded packet occupies bytes [4 + 20i, 24 + 20i). */
  lemma EntryInPacket(routerId: nat, entries: seq<TableEntry>, i: nat)
    requires routerId < Pow256(2)
    requires Encodable(entries)
    requires i < |entries|
    ensures var at := HEADER_LEN + ENTRY_LEN * i;
      EncodePacket(routerId, entries)[at .. at + ENTRY_LEN] == EncodeEntry(entries[i].0, entries[i].1.metric)
  {
    var h, es := Header(routerId), EncodeEntries(entries);
    var at := HEADER_LEN + ENTRY_LEN * i;
    EncodedEntryAt(entries, i);
    SliceOfAppend(h, es, ENTRY_LEN * i, ENTRY_LEN * i + ENTRY_LEN);
  }

  /** `packet[start : start + |bytes|] = bytes` for a slice of the same length. */
  method AssignSlice(packet: array<Byte>, start: nat, bytes: seq<Byte>)
    requires start + |bytes| <= packet.Length
    modifies packet
    ensures packet[..] == old(packet[..start]) + bytes + old(packet[start + |bytes|..])
  {
    forall k | 0 <= k < |bytes| {
      packet[start + k] := bytes[k];
    }
  }

  /** Writes the header into the first four bytes of the buffer. */
  method ConstructPacketHeader(packet: array<Byte>, rt: RoutingTable)
    requires packet.Length >= HEADER_LEN
    requires 0 <= rt.routerId < Pow256(2)
    modifies packet
    ensures packet[..] == Header(rt.routerId) + old(packet[HEADER_LEN..])
  {
    packet[0] := RIP_PACKET_COMMAND;
    packet[1] := RIP_VERSION_NUMBER;
    AssignSlice(packet, 2, ToBE(rt.routerId, 2));
  }

  /** One packet: a zeroed buffer of the exact length, the header, then
      per entry three slice writes (family, destination, metric) that leave
      the reserved bytes as they were. */
  method ConstructPacket(rt: RoutingTable, entries: seq<TableEntry>) returns (packet: array<Byte>)
    requires 0 <= rt.routerId < Pow256(2)
    requires Encodable(entries)
    ensures fresh(packet)
    ensures packet.Length == HEADER_LEN + ENTRY_LEN * |entries|
    ensures packet[..] == EncodePacket(rt.routerId, entries)
  {
    packet := new Byte[HEADER_LEN + |entries| * ENTRY_LEN](_ => 0);
    ghost var full := EncodePacket(rt.routerId, entries);
    assert packet[HEADER_LEN..] == Zeros(packet.Length - HEADER_LEN);
    ConstructPacketHeader(packet, rt);
    HeaderLayout(rt.routerId, entries);
    assert full[..HEADER_LEN] == Header(rt.routerId);
    var current := HEADER_LEN;
    for i := 0 to |entries|
      invariant current == HEADER_LEN + ENTRY_LEN * i
      invariant packet.Length == |full|
      invariant packet[..] == full[..current] + Zeros(|full| - current)
    {
      var (destination, entry) := entries[i];
      EntryInPacket(rt.routerId, entries, i);
      ghost var before := packet[..];
      FillNext(full, current, before, before[..current] + EncodeEntry(destination, entry.metric) + before[current + ENTRY_LEN ..]);
      WriteEntry(packet, current, destination, entry.metric);
      current := current + ENTRY_LEN;
    }
    assert full[..current] == full;
  }

  /** One turn of the encoder's loop: while the buffer holds the first
      `at` bytes of the packet followed by zeros, the next 20 bytes are zero,
      and writing the packet's next entry over them extends the written part
      by that entry. */
  lemma FillNext(full: seq<Byte>, at: nat, before: seq<Byte>, after: seq<Byte>)
    requires at + ENTRY_LEN <= |full|
    requires before == full[..at] + Zeros(|full| - at)
    requires after == before[..at] + full[at .. at + ENTRY_LEN] + before[at + ENTRY_LEN ..]
    ensures before[at .. at + ENTRY_LEN] == Zeros(ENTRY_LEN)
    ensures after == full[..at + ENTRY_LEN] + Zeros(|full| - at - ENTRY_LEN)
  {
    assert before[..at] == full[..at];
    assert before[at + ENTRY_LEN ..] == Zeros(|full| - at - ENTRY_LEN);
    assert full[..at] + full[at .. at + ENTRY_LEN] == full[..at + ENTRY_LEN];
  }

  /** The three slice writes of one entry into a zeroed 20-byte run at
      `at`: family, destination and metric; the reserved bytes stay zero. */
  method WriteEntry(packet: array<Byte>, at: nat, destination: nat, metric: nat)
    requires at + ENTRY_LEN <= packet.Length
    requires packet[..][at .. at + ENTRY_LEN] == Zeros(ENTRY_LEN)
    requires destination < Pow256(4) && metric < Pow256(4)
    modifies packet
    ensures packet[..] == old(packet[..at]) + EncodeEntry(destination, metric) + old(packet[at + ENTRY_LEN ..])
  {
    ghost var front, back := packet[..at], packet[at + ENTRY_LEN ..];
    assert packet[..] == front + Zeros(ENTRY_LEN) + back;
    ghost var b0 := packet[..];
    var family, dest, m := ToBE(AF_INET, 2), ToBE(destination, 4), ToBE(metric, 4);
    AssignSlice(packet, at, family);
    ghost var b1 := packet[..];
    AssignSlice(packet, at + 4, dest);
    ghost var b2 := packet[..];
    AssignSlice(packet, at + 16, m);
    EntryWrites(front, back, destination, metric, b0, b1, b2, packet[..]);
  }

  /** The buffers after each of the three writes of `WriteEntry`: the last
      one holds the encoded entry between the untouched parts. */
  lemma EntryWrites(front: seq<Byte>, back: seq<Byte>, destination: nat, metric: nat,
                    b0: seq<Byte>, b1: seq<Byte>, b2: seq<Byte>, b3: seq<Byte>)
    requires destination < Pow256(4) && metric < Pow256(4)
    requires b0 == front + Zeros(ENTRY_LEN) + back
    requires b1 == b0[..|front|] + ToBE(AF_INET, 2) + b0[|front| + 2 ..]
    requires b2 == b1[..|front| + 4] + ToBE(destination, 4) + b1[|front| + 8 ..]
    requires b3 == b2[..|front| + 16] + ToBE(metric, 4) + b2[|front| + 20 ..]
    ensures b3 == front + EncodeEntry(destination, metric) + back
  {
    var family, dest, m := ToBE(AF_INET, 2), ToBE(destination, 4), ToBE(metric, 4);
    WriteIntoZeros(front, 0, family, 18, back, b0, b1);
    WriteIntoZeros(front + family, 2, dest, 12, back, b1, b2);
    WriteIntoZeros(front + family + Zeros(2) + dest, 8, m, 0, back, b2, b3);
    AppendEntry(front, destination, metric);
  }

  /** A slice write into a run of zeros that starts right after `front`,
      `gap` bytes into the run. */
  lemma WriteIntoZeros(front: seq<Byte>, gap: nat, bytes: seq<Byte>, after: nat, back: seq<Byte>,
                       buffer: seq<Byte>, written: seq<Byte>)
    requires buffer == front + Zeros(gap + |bytes| + after) + back
    requires written == buffer[..|front| + gap] + bytes + buffer[|front| + gap + |bytes| ..]
    ensures written == front + Zeros(gap) + bytes + Zeros(after) + back
    ensures gap == 0 ==> written == front + bytes + Zeros(after) + back
  {
    assert buffer[..|front| + gap] == front + Zeros(gap);
    assert buffer[|front| + gap + |bytes| ..] == Zeros(after) + back;
  }

  /** The three writes and the two runs of zeros between them form one entry. */
  lemma AppendEntry(front: seq<Byte>, destination: nat, metric: nat)
    requires destination < Pow256(4) && metric < Pow256(4)
    ensures front + ToBE(AF_INET, 2) + Zeros(2) + ToBE(destination, 4) + Zeros(8) + ToBE(metric, 4)
         == front + EncodeEntry(destination, metric)
  {
  }

  /** The packets advertising the whole table to `dest`: one per chunk. */
  method ConstructPackets(rt: RoutingTable, dest: int) returns (packets: seq<array<Byte>>)
    requires rt.Valid()
    requires 0 <= rt.routerId < Pow256(2)
    requires Advertisable(rt.table.entries, dest)
    ensures |packets| == |Chunks(Advertised(rt.Iter(), rt.table.entries, dest))| == rt.Len() / MAX_ENTRIES + 1
    ensures forall j :: 0 <= j < |packets| ==> fresh(packets[j])
    ensures forall j :: 0 <= j < |packets| ==>
      var chunk := Chunks(Advertised(rt.Iter(), rt.table.entries, dest))[j];
      Encodable(chunk) && packets[j][..] == EncodePacket(rt.routerId, chunk)
  {
    var chunks := NextPacketEntries(rt, dest);
    ghost var adv := Advertised(rt.Iter(), rt.table.entries, dest);
    AdvertisedEncodable(rt.Iter(), rt.table.entries, dest);
    ChunksEncodable(adv);
    ChunkSizes(adv);
    packets := ConstructChunkPackets(rt, chunks);
  }

  /** The loop of `ConstructPackets` over the generator's chunks: one
      freshly built packet per chunk, in order. */
  method ConstructChunkPackets(rt: RoutingTable, chunks: seq<seq<TableEntry>>) returns (packets: seq<array<Byte>>)
    requires 0 <= rt.routerId < Pow256(2)
    requires forall j :: 0 <= j < |chunks| ==> Encodable(chunks[j])
    ensures |packets| == |chunks|
    ensures forall j :: 0 <= j < |chunks| ==> fresh(packets[j])
    ensures forall j :: 0 <= j < |chunks| ==> packets[j][..] == EncodePacket(rt.routerId, chunks[j])
  {
    packets := [];
    for i := 0 to |chunks|
      invariant |packets| == i
      invariant forall j :: 0 <= j < i ==> fresh(packets[j])
      invariant forall j :: 0 <= j < i ==> packets[j][..] == EncodePacket(rt.routerId, chunks[j])
    {
      var packet := ConstructPacket(rt, chunks[i]);
      packets := packets + [packet];
    }
  }

  // ---------------------------------------------------------------------
  // Decoding

  /** The three fields of the entry that starts at `start`; the decoder
      calls it only for an entry that lies wholly inside the buffer. */
  function ReadEntry(packet: seq<Byte>, start: nat): (r: ResponseEntry)
    requires start + ENTRY_LEN <= |packet|
    ensures 0 <= r.afi < Pow256(2) && 0 <= r.routerId < Pow256(4) && 0 <= r.metric < Pow256(4)
  {
    ResponseEntry(
      FromBE(packet[start .. start + 2]),
      FromBE(packet[start + 4 .. start + 8]),
      FromBE(packet[start + 16 .. start + 20]))
  }

  /** Where each field of an entry is read from: the family from bytes 0-1,
      the router id from bytes 4-7 and the metric from bytes 16-19, each
      big-endian; the other bytes are ignored. */
  lemma ReadEntryFields(packet: seq<Byte>, start: nat)
    requires start + ENTRY_LEN <= |packet|
    ensures ToBE(ReadEntry(packet, start).afi, 2) == packet[start .. start + 2]
    ensures ToBE(ReadEntry(packet, start).routerId, 4) == packet[start + 4 .. start + 8]
    ensures ToBE(ReadEntry(packet, start).metric, 4) == packet[start + 16 .. start + 20]
  {
    ToBEFromBE(packet[start .. start + 2]);
    ToBEFromBE(packet[start + 4 .. start + 8]);
    ToBEFromBE(packet[start + 16 .. start + 20]);
  }

  /** How many entries the decoder reads from a buffer of `len` bytes: the
      whole 20-byte entries after the header, at most MAX_ENTRIES. */
  function EntryCount(len: nat): nat {
    if len < HEADER_LEN then 0 else Min(MAX_ENTRIES, (len - HEADER_LEN) / ENTRY_LEN)
  }

  /** The first `n` entries after the header, in order. */
  function EntriesFrom(packet: seq<Byte>, n: nat): (es: seq<ResponseEntry>)
    requires n == 0 || HEADER_LEN + ENTRY_LEN * n <= |packet|
    ensures |es| == n
    ensures forall i :: 0 <= i < n ==> es[i] == ReadEntry(packet, HEADER_LEN + ENTRY_LEN * i)
  {
    if n == 0 then [] else EntriesFrom(packet, n - 1) + [ReadEntry(packet, HEADER_LEN + ENTRY_LEN * (n - 1))]
  }

  /** Reading one more entry appends it. */
  lemma EntriesFromSnoc(packet: seq<Byte>, n: nat)
    requires HEADER_LEN + ENTRY_LEN * (n + 1) <= |packet|
    ensures EntriesFrom(packet, n + 1) == EntriesFrom(packet, n) + [ReadEntry(packet, HEADER_LEN + ENTRY_LEN * n)]
  {
  }

  /** Where the decoder stops: after `k` entries, because the next one
      would not fit or because the cap is reached. */
  lemma StopCount(len: nat, k: nat)
    requires k <= MAX_ENTRIES
    requires k == 0 || HEADER_LEN + ENTRY_LEN * k <= len
    requires k == MAX_ENTRIES || len < HEADER_LEN + ENTRY_LEN * (k + 1)
    ensures EntryCount(len) == k
  {
  }

  /** The decoded form of a buffer. `None` stands for the IndexError raised
      for a buffer shorter than two bytes; a two- or three-byte buffer
      decodes with the sender id read from what there is of bytes 2 and 3. */
  function Decode(packet: seq<Byte>): Option<ResponsePacket> {
    if |packet| < 2 then None
    else
      var n := EntryCount(|packet|);
      Some(ResponsePacket(
        packet[0], packet[1], FromBE(Slice(packet, 2, HEADER_LEN)),
        EntriesFrom(packet, n)))
  }

  /** `read_packet` step by step: it walks the buffer in 20-byte
      strides from the header on and stops, without error, at a partial
      entry or once MAX_ENTRIES entries have been read. */
  method ReadPacket(packet: seq<Byte>) returns (r: Option<ResponsePacket>)
    ensures r == Decode(packet)
    ensures r.None? <==> |packet| < 2
    ensures r.Some? ==> |r.value.entries| == EntryCount(|packet|)
    ensures r.Some? ==> |packet| >= HEADER_LEN ==> |r.value.entries| == Min(MAX_ENTRIES, (|packet| - HEADER_LEN) / ENTRY_LEN)
  {
    if |packet| < 2 {
      return None;
    }
    var command := packet[0];
    var version := packet[1];
    var sender := FromBE(Slice(packet, 2, HEADER_LEN));
    var entries: seq<ResponseEntry> := [];
    var start := HEADER_LEN;
    while start < |packet|
      invariant start == HEADER_LEN + ENTRY_LEN * |entries|
      invariant |entries| <= MAX_ENTRIES
      invariant |entries| == 0 || start <= |packet|
      invariant entries == EntriesFrom(packet, |entries|)
    {
      var end := start + ENTRY_LEN;
      if end <= |packet| && |entries| < MAX_ENTRIES {
        EntriesFromSnoc(packet, |entries|);
        entries := entries + [ReadEntry(packet, start)];
      } else {
        StopCount(|packet|, |entries|);
        return Some(ResponsePacket(command, version, sender, entries));
      }
      start := end;
    }
    StopCount(|packet|, |entries|);
    return Some(ResponsePacket(command, version, sender, entries));
  }

  /** What the decoder reads back from an encoded table entry. */
  function Response(e: TableEntry): ResponseEntry {
    ResponseEntry(AF_INET, e.0, e.1.metric)
  }

  function Responses(entries: seq<TableEntry>): (r: seq<ResponseEntry>)
    ensures |r| == |entries| && forall i :: 0 <= i < |entries| ==> r[i] == Response(entries[i])
  {
    seq(|entries|, i requires 0 <= i < |entries| => Response(entries[i]))
  }

  /** Decoding an encoded entry returns its family, destination and metric. */
  lemma ReadEncodedEntry(packet: seq<Byte>, start: nat, destination: nat, metric: nat)
    requires destination < Pow256(4) && metric < Pow256(4)
    requires start + ENTRY_LEN <= |packet|
    requires packet[start .. start + ENTRY_LEN] == EncodeEntry(destination, metric)
    ensures ReadEntry(packet, start) == ResponseEntry(AF_INET, destination, metric)
  {
    EntryLayout(packet, start, destination, metric);
  }

  /** Round trip: decoding an encoded packet gives back the header and the
      entries in order, up to the decoder's cap of MAX_ENTRIES. */
  lemma DecodeEncode(routerId: nat, entries: seq<TableEntry>)
    requires routerId < Pow256(2)
    requires Encodable(entries)
    ensures Decode(EncodePacket(routerId, entries))
         == Some(ResponsePacket(RIP_PACKET_COMMAND, RIP_VERSION_NUMBER, routerId,
                                Responses(entries[..Min(|entries|, MAX_ENTRIES)])))
  {
    var b := EncodePacket(routerId, entries);
    var n := Min(|entries|, MAX_ENTRIES);
    assert EntryCount(|b|) == n;
    assert Slice(b, 2, HEADER_LEN) == ToBE(routerId, 2);
    FromBEToBE(routerId, 2);
    var decoded := Decode(b).value.entries;
    var expected := Responses(entries[..n]);
    forall i | 0 <= i < n ensures decoded[i] == expected[i] {
      EntryInPacket(routerId, entries, i);
      ReadEncodedEntry(b, HEADER_LEN + ENTRY_LEN * i, entries[i].0, entries[i].1.metric);
    }
    assert decoded == expected;
    assert b[0] == RIP_PACKET_COMMAND && b[1] == RIP_VERSION_NUMBER;
  }

  /** Every packet built for a neighbour decodes to its chunk of the
      advertisement, with this router's id as the sender. */
  lemma AdvertisedPacketDecodes(routerId: nat, ids: seq<int>, routes: map<int, RouteEntry>, dest: int, j: nat)
    requires routerId < Pow256(2)
    requires forall i :: 0 <= i < |ids| ==> ids[i] in routes
    requires Advertisable(routes, dest)
    requires j < |Chunks(Advertised(ids, routes, dest))|
    ensures var chunk := Chunks(Advertised(ids, routes, dest))[j];
      && Encodable(chunk)
      && Decode(EncodePacket(routerId, chunk))
         == Some(ResponsePacket(RIP_PACKET_COMMAND, RIP_VERSION_NUMBER, routerId, Responses(chunk)))
  {
    var adv := Advertised(ids, routes, dest);
    var chunk := Chunks(adv)[j];
    AdvertisedEncodable(ids, routes, dest);
    ChunksEncodable(adv);
    ChunkSizes(adv);
    DecodeEncode(routerId, chunk);
    assert chunk[..Min(|chunk|, MAX_ENTRIES)] == chunk;
  }

  /** A router whose table holds a single route, to destination 5,
      sends any neighbour one packet with that one entry; the entry's
      metric is the poisoned one. */
  lemma SingleRouteAdvertisement(routerId: nat, route: RouteEntry, dest: int)
    requires routerId < Pow256(2)
    requires route.nextHop != dest ==> 0 <= route.metric < Pow256(4)
    ensures var adv := Advertised([5], map[5 := route], dest);
      && Chunks(adv) == [adv]
      && Decode(EncodePacket(routerId, adv))
         == Some(ResponsePacket(2, 2, routerId, [ResponseEntry(AF_INET, 5, Poisoned(route, dest).metric)]))
  {
    var adv := Advertised([5], map[5 := route], dest);
    AdvertisedPacketDecodes(routerId, [5], map[5 := route], dest, 0);
    assert Responses(adv) == [ResponseEntry(AF_INET, 5, Poisoned(route, dest).metric)];
  }

  /** Router 1 knows destination 5 through neighbour 2 at metric 3: the
      advertisement to 2 carries destination 5 at metric 16, the one to 3
      carries it at metric 3. */
  lemma PoisonReverseScenario(route: RouteEntry)
    requires route.nextHop == 2 && route.metric == 3
    ensures Decode(EncodePacket(1, Chunks(Advertised([5], map[5 := route], 2))[0]))
         == Some(ResponsePacket(2, 2, 1, [ResponseEntry(AF_INET, 5, 16)]))
    ensures Decode(EncodePacket(1, Chunks(Advertised([5], map[5 := route], 3))[0]))
         == Some(ResponsePacket(2, 2, 1, [ResponseEntry(AF_INET, 5, 3)]))
  {
    SingleRouteAdvertisement(1, route, 2);
    SingleRouteAdvertisement(1, route, 3);
  }

  // ---------------------------------------------------------------------
  // Validation of a received packet

  datatype PacketCheck = Accepted | SelfOriginated | UnknownNeighbour | BadCommand | BadVersion

  /** The checks in order; the first one that fails is the one logged. */
  function CheckPacket(rt: RoutingTable, p: ResponsePacket): (c: PacketCheck)
    reads rt, rt.table
    requires rt.Valid()
    ensures c == SelfOriginated <==> p.senderRouterId == rt.routerId
    ensures c == UnknownNeighbour <==> p.senderRouterId != rt.routerId && p.senderRouterId !in rt.Iter()
    ensures c == BadCommand <==>
      p.senderRouterId != rt.routerId && p.senderRouterId in rt.Iter() && p.command != RIP_PACKET_COMMAND
    ensures c == BadVersion <==>
      p.senderRouterId != rt.routerId && p.senderRouterId in rt.Iter() && p.command == RIP_PACKET_COMMAND
      && p.version != RIP_VERSION_NUMBER
  {
    if rt.routerId == p.senderRouterId then SelfOriginated
    else if p.senderRouterId !in rt.Neighbours() then UnknownNeighbour
    else if p.command != 2 then BadCommand
    else if p.version != 2 then BadVersion
    else Accepted
  }

  /** A packet is accepted exactly when it does not claim to come from this
      router, comes from a router the table has a route to, and carries
      command 2 and version 2. */
  function ValidatePacket(rt: RoutingTable, p: ResponsePacket): (ok: bool)
    reads rt, rt.table
    requires rt.Valid()
    ensures ok <==>
      && p.senderRouterId != rt.routerId
      && p.senderRouterId in rt.Iter()
      && p.command == RIP_PACKET_COMMAND
      && p.version == RIP_VERSION_NUMBER
  {
    CheckPacket(rt, p) == Accepted
  }
}
