/**
 What the worker's decoder reads out of a frame for the network watcher (`capture_worker.py`), and which frames the
 kernel filter lets through to it.
 */
module FrameDecoder {
  import opened Wrappers
  import opened NetBytes
  import opened BpfFilter

  datatype Dhcp = Dhcp(kind: nat, server: Option<Bytes>, yiaddr: Bytes, client: Bytes, name: Option<Bytes>)

  datatype Arp = Arp(op: nat, sha: Bytes, spa: Bytes, tpa: Bytes)

  /** The structured parts of a decoded packet; the rest of it is left out. */
  datatype Decoded = Decoded(arp: Option<Arp>, ip: Option<Ip>, srcMac: Option<Bytes>)

  /** An IP packet: where it comes from, and the DHCP message in it. */
  datatype Ip = Ip(src: Bytes, dhcp: Option<Dhcp>)

  datatype Event =
    | ArpEvent(ip: Bytes, mac: Bytes, op: nat, eth: Option<Bytes>)
    | DhcpEvent(message: Dhcp, src: Bytes, eth: Option<Bytes>)

  type Options = map<Byte, Bytes>

  // ----- DHCP -----------------------------------------------------------------------

  /** The options from `pos` on, over those read before. */
  function ReadOptions(data: Bytes, pos: nat, found: Options): Options
    decreases |data| - pos
  {
    if pos >= |data| || data[pos] == 255 then found
    else if data[pos] == 0 then ReadOptions(data, pos + 1, found)
    else if pos + 1 >= |data| then found
    else ReadOptions(data, pos + 2 + data[pos + 1], found[data[pos] := Slice(data, pos + 2, pos + 2 + data[pos + 1])])
  }

  /** The loop of `decode_dhcp` over the options. */
  method ScanOptions(data: Bytes, start: nat) returns (options: Options)
    ensures options == ReadOptions(data, start, map[])
  {
    options := map[];
    var pos := start;
    while pos < |data|
      invariant ReadOptions(data, start, map[]) == ReadOptions(data, pos, options)
    {
      var code := data[pos];
      if code == 255 {
        break;
      }
      if code == 0 {
        pos := pos + 1;
        continue;
      }
      if pos + 1 >= |data| {
        break;
      }
      var size := data[pos + 1];
      options := options[code := Slice(data, pos + 2, pos + 2 + size)];
      pos := pos + 2 + size;
    }
  }

  datatype Item = Item(code: Byte, value: Bytes)

  predicate IsItem(item: Item) {
    item.code != 0 && item.code != 255 && |item.value| < 256
  }

  function WriteOptions(items: seq<Item>): Bytes
    requires forall item :: item in items ==> IsItem(item)
  {
    if items == [] then [255]
    else
      assert items[0] in items && IsItem(items[0]);
      var head: Bytes := [items[0].code, |items[0].value|];
      head + items[0].value + WriteOptions(items[1..])
  }

  function Store(items: seq<Item>, found: Options): Options {
    if items == [] then found else Store(items[1..], found[items[0].code := items[0].value])
  }

  /** One option is read as it was written. */
  lemma OptionRead(before: Bytes, item: Item, rest: Bytes, found: Options)
    requires IsItem(item)
    ensures var (head: Bytes, at) := ([item.code, |item.value|], |before|);
      ReadOptions(before + head + item.value + rest, at, found) ==
      ReadOptions(before + head + item.value + rest, |before + head + item.value|, found[item.code := item.value])
  {
    var head: Bytes := [item.code, |item.value|];
    var data := before + head + item.value + rest;
    assert data[|before|] == item.code && data[|before| + 1] == |item.value|;
    assert data[|before| + 2..|before| + 2 + |item.value|] == item.value;
  }

  /** Options are read back as they were written, the last of several with one code winning. */
  lemma {:induction false} OptionsRoundTrip(before: Bytes, items: seq<Item>, after: Bytes, found: Options)
    requires forall item :: item in items ==> IsItem(item)
    ensures ReadOptions(before + WriteOptions(items) + after, |before|, found) == Store(items, found)
    decreases |items|
  {
    if items == [] {
      EndRead(before, after, found);
    } else {
      hide ReadOptions, Store;
      var item, rest := items[0], items[1..];
      assert IsItem(item);
      var head: Bytes := [item.code, |item.value|];
      var next := before + head + item.value;
      OptionRead(before, item, WriteOptions(rest) + after, found);
      Regroup(before, head, item.value, WriteOptions(rest), after);
      OptionsRoundTrip(next, rest, after, found[item.code := item.value]);
      StoreFirst(items, found);
    }
  }

  lemma StoreFirst(items: seq<Item>, found: Options)
    requires items != []
    ensures Store(items, found) == Store(items[1..], found[items[0].code := items[0].value])
  {
  }

  lemma Regroup(a: Bytes, b: Bytes, c: Bytes, d: Bytes, e: Bytes)
    ensures a + (b + c + d) + e == a + b + c + (d + e) == a + b + c + d + e
  {
  }

  lemma EndRead(before: Bytes, after: Bytes, found: Options)
    ensures ReadOptions(before + [255] + after, |before|, found) == found
  {
    assert (before + [255] + after)[|before|] == 255;
  }

  function Get(options: Options, code: Byte): Bytes {
    if code in options then options[code] else []
  }

  predicate HasMagic(data: Bytes) {
    |data| >= 241 && data[236..240] == [0x63, 0x82, 0x53, 0x63]
  }

  /** `decode_dhcp`. */
  function DecodeDhcp(data: Bytes): Option<Dhcp> {
    if !HasMagic(data) then None
    else
      var options := ReadOptions(data, 240, map[]);
      Some(Dhcp(
        if Get(options, 53) != [] then Get(options, 53)[0] else 0,
        if |Get(options, 54)| == 4 then Some(Get(options, 54)) else None,
        data[16..20],
        data[28..34],
        if Get(options, 12) != [] then Some(Get(options, 12)) else None))
  }

  // ----- transport and network -------------------------------------------------------------

  predicate IsDns(port: nat) { port == 53 || port == 5353 }

  /** What a UDP datagram holds for the watcher; other protocols hold nothing. */
  function DecodeL4(proto: nat, data: Bytes): Option<Dhcp> {
    if proto == 17 && |data| >= 8 then
      var sport, dport := Load16(data, 0).value, Load16(data, 2).value;
      if IsDns(sport) || IsDns(dport) then None
      else if (sport == 67 || sport == 68) && (dport == 67 || dport == 68) then DecodeDhcp(data[8..])
      else None
    else None
  }

  /** Past the IPv6 extension headers: the protocol and where its header starts. */
  function SkipExtensions(data: Bytes, proto: nat, pos: nat): (nat, nat)
    decreases |data| - pos
  {
    if (proto == 0 || proto == 43 || proto == 60) && pos + 8 <= |data|
    then SkipExtensions(data, data[pos], pos + 8 * (data[pos + 1] as int + 1))
    else (proto, pos)
  }

  /** `decode_ip`: `None` for something unreadable. */
  function DecodeIp(data: Bytes): Option<Ip> {
    if data == [] then None
    else if data[0] / 16 == 4 && |data| >= 20 then
      var header, total := 4 * (data[0] % 16), Load16(data, 2).value;
      if Load16(data, 6).value % 0x2000 != 0 then Some(Ip(data[12..16], None))  // a later fragment
      else
        var end := if header <= total <= |data| then total else |data|;
        Some(Ip(data[12..16], DecodeL4(data[9], Slice(data, header, end))))
    else if data[0] / 16 == 6 && |data| >= 40 then
      var length := Load16(data, 4).value;
      var (proto, pos) := SkipExtensions(data, data[6], 40);
      var end := if 40 + length <= |data| && length != 0 then 40 + length else |data|;
      Some(Ip(data[8..24], DecodeL4(proto, Slice(data, pos, end))))
    else None
  }

  // ----- frames ---------------------------------------------------------------------

  predicate IsTag(ethertype: nat) { ethertype == 0x8100 || ethertype == 0x88A8 }

  /** Past the VLAN tags: the ethertype and where the payload starts. */
  function SkipTags(frame: Bytes, ethertype: nat, pos: nat): (nat, nat)
    decreases |frame| - pos
  {
    if IsTag(ethertype) && |frame| >= pos + 4 then SkipTags(frame, Load16(frame, pos + 2).value, pos + 4)
    else (ethertype, pos)
  }

  function DecodeArp(frame: Bytes, pos: nat, srcMac: Bytes): Decoded {
    if |frame| >= pos + 28 && frame[pos..pos + 6] == [0, 1, 8, 0, 6, 4] then
      Decoded(
        Some(Arp(Load16(frame, pos + 6).value, frame[pos + 8..pos + 14], frame[pos + 14..pos + 18], frame[pos + 24..pos + 28])),
        None, Some(srcMac))
    else Decoded(None, None, Some(srcMac))
  }

  /** `_decode_frame`; `raw` for interfaces whose frames start with the IP header. */
  function DecodeFrame(frame: Bytes, raw: bool): Option<Decoded> {
    if raw then
      match DecodeIp(frame)
      case None => None
      case Some(ip) => Some(Decoded(None, Some(ip), None))
    else if |frame| < 14 then None
    else
      var (ethertype, pos) := SkipTags(frame, Load16(frame, 12).value, 14);
      var srcMac := frame[6..12];
      if ethertype == 0x0800 || ethertype == 0x86DD then
        match DecodeIp(Drop(frame, pos))
        case None => None
        case Some(ip) => Some(Decoded(None, Some(ip), Some(srcMac)))
      else if ethertype == 0x0806 then Some(DecodeArp(frame, pos, srcMac))
      else Some(Decoded(None, None, Some(srcMac)))
  }

  /** `events_from` the decoded frame. */
  function EventsFrom(frame: Bytes, raw: bool): seq<Event> {
    match DecodeFrame(frame, raw)
    case None => []
    case Some(d) =>
      (if d.arp.Some? then [ArpEvent(d.arp.value.spa, d.arp.value.sha, d.arp.value.op, d.srcMac)] else []) +
      (match d.ip case Some(Ip(src, Some(message))) => [DhcpEvent(message, src, d.srcMac)] case _ => [])
  }

  // ----- what is written is read --------------------------------------------------------

  /** A VLAN tag: one of the two ethertypes that announce it, and its contents. */
  datatype Tag = Tag(kind: nat, contents: Bytes)

  predicate IsVlan(tag: Tag) { IsTag(tag.kind) && |tag.contents| == 2 }

  function Word(x: nat): Bytes
    requires x < 0x10000
  {
    [x / 256, x % 256]
  }

  function WriteTags(tags: seq<Tag>): Bytes
    requires forall tag <- tags :: IsVlan(tag)
  {
    if tags == [] then [] else assert IsVlan(tags[0]); Word(tags[0].kind) + tags[0].contents + WriteTags(tags[1..])
  }

  lemma WordIsLoaded(before: Bytes, x: nat, after: Bytes)
    requires x < 0x10000
    ensures Load16(before + Word(x) + after, |before|) == Some(x)
  {
    var data := before + Word(x) + after;
    assert data[|before|] == x / 256 && data[|before| + 1] == x % 256;
  }

  lemma {:induction false} TagsAreSkipped(before: Bytes, tags: seq<Tag>, ethertype: nat, after: Bytes)
    requires (forall tag <- tags :: IsVlan(tag)) && ethertype < 0x10000 && !IsTag(ethertype)
    ensures var frame := before + WriteTags(tags) + Word(ethertype) + after;
      |frame| >= |before| + 2 &&
      SkipTags(frame, Load16(frame, |before|).value, |before| + 2) == (ethertype, |frame| - |after|)
    decreases |tags|
  {
    var frame := before + WriteTags(tags) + Word(ethertype) + after;
    if tags == [] {
      assert frame == before + Word(ethertype) + after;
      WordIsLoaded(before, ethertype, after);
    } else {
      var tag, rest := tags[0], tags[1..];
      assert IsVlan(tag);
      var next := before + Word(tag.kind) + tag.contents;
      var more := tag.contents + WriteTags(rest) + Word(ethertype) + after;
      assert frame == before + Word(tag.kind) + more == next + WriteTags(rest) + Word(ethertype) + after;
      WordIsLoaded(before, tag.kind, more);
      TagsAreSkipped(next, rest, ethertype, after);
    }
  }

  /** An ARP claim is read field by field, behind any number of VLAN tags and with any padding after it. */
  lemma ClaimIsRead(to: Bytes, from: Bytes, tags: seq<Tag>, op: nat, sha: Bytes, spa: Bytes, tha: Bytes, tpa: Bytes,
    padding: Bytes)
    requires |to| == |from| == |sha| == |tha| == 6 && |spa| == |tpa| == 4 && op < 0x10000
    requires forall tag <- tags :: IsVlan(tag)
    ensures var claim := [0, 1, 8, 0, 6, 4] + Word(op) + sha + spa + tha + tpa + padding;
      EventsFrom(to + from + WriteTags(tags) + Word(0x0806) + claim, false) == [ArpEvent(spa, sha, op, Some(from))]
  {
    var claim := [0, 1, 8, 0, 6, 4] + Word(op) + sha + spa + tha + tpa + padding;
    var frame := to + from + WriteTags(tags) + Word(0x0806) + claim;
    TagsAreSkipped(to + from, tags, 0x0806, claim);
    assert frame[6..12] == from;
    ArpFields(to + from + WriteTags(tags) + Word(0x0806), op, sha, spa, tha, tpa, padding, from);
  }

  lemma ArpFields(before: Bytes, op: nat, sha: Bytes, spa: Bytes, tha: Bytes, tpa: Bytes, padding: Bytes, srcMac: Bytes)
    requires |sha| == |tha| == 6 && |spa| == |tpa| == 4 && op < 0x10000
    ensures DecodeArp(before + ([0, 1, 8, 0, 6, 4] + Word(op) + sha + spa + tha + tpa + padding), |before|, srcMac) ==
      Decoded(Some(Arp(op, sha, spa, tpa)), None, Some(srcMac))
  {
    var head: Bytes := [0, 1, 8, 0, 6, 4];
    var n, frame := |before|, before + (head + Word(op) + sha + spa + tha + tpa + padding);
    assert frame[n..n + 6] == head;
    assert frame == before + head + Word(op) + (sha + spa + tha + tpa + padding);
    WordIsLoaded(before + head, op, sha + spa + tha + tpa + padding);
    assert frame[n + 8..n + 14] == sha && frame[n + 14..n + 18] == spa && frame[n + 24..n + 28] == tpa;
  }

  /** A DHCP message is read field by field, its options whatever their order and whatever follows them. */
  lemma DhcpIsRead(head: Bytes, yiaddr: Bytes, hops: Bytes, client: Bytes, rest: Bytes, items: seq<Item>, after: Bytes)
    requires |head| == 16 && |yiaddr| == 4 && |hops| == 8 && |client| == 6 && |rest| == 202
    requires forall item :: item in items ==> IsItem(item)
    ensures var (data, options) := (
        head + yiaddr + hops + client + rest + [0x63, 0x82, 0x53, 0x63] + WriteOptions(items) + after, Store(items, map[]));
      DecodeDhcp(data) == Some(Dhcp(
        if Get(options, 53) != [] then Get(options, 53)[0] else 0,
        if |Get(options, 54)| == 4 then Some(Get(options, 54)) else None,
        yiaddr, client,
        if Get(options, 12) != [] then Some(Get(options, 12)) else None))
  {
    var magic: Bytes := [0x63, 0x82, 0x53, 0x63];
    var fixed := head + yiaddr + hops + client + rest + magic;
    var data := fixed + WriteOptions(items) + after;
    assert data[16..20] == yiaddr && data[28..34] == client && data[236..240] == magic;
    OptionsRoundTrip(fixed, items, after, map[]);
  }

  /**
   A DHCP message between two of its ports in an unfragmented or first-fragment IPv4 datagram becomes an event with the
   sender's addresses; IP options before it and padding behind the datagram are no part of it, and a total length that
   cannot be right means everything.
   */
  lemma DhcpEventIsRead(to: Bytes, from: Bytes, ip: Bytes, udp: Bytes, message: Bytes, padding: Bytes)
    requires |to| == |from| == 6 && |ip| >= 20 && ip[0] / 16 == 4 && |ip| == 4 * (ip[0] % 16) && ip[9] == 17
    requires Load16(ip, 6).value % 0x2000 == 0
    requires var total := Load16(ip, 2).value;
      total == |ip| + 8 + |message| || (padding == [] && (total < |ip| || total > |ip| + 8 + |message|))
    requires |udp| == 8 && IsDhcpPort(Load16(udp, 0)) && IsDhcpPort(Load16(udp, 2))
    ensures EventsFrom(to + from + Word(0x0800) + (ip + udp + message + padding), false) ==
      match DecodeDhcp(message) case Some(dhcp) => [DhcpEvent(dhcp, ip[12..16], Some(from))] case None => []
  {
    hide DecodeIp, DecodeDhcp;
    var data := ip + udp + message + padding;
    var frame := to + from + Word(0x0800) + data;
    WordIsLoaded(to + from, 0x0800, data);
    assert frame[6..12] == from && Drop(frame, 14) == data;
    DatagramIsRead(ip, udp, message, padding);
  }

  lemma DatagramIsRead(ip: Bytes, udp: Bytes, message: Bytes, padding: Bytes)
    requires |ip| >= 20 && ip[0] / 16 == 4 && |ip| == 4 * (ip[0] % 16) && ip[9] == 17
    requires Load16(ip, 6).value % 0x2000 == 0
    requires var total := Load16(ip, 2).value;
      total == |ip| + 8 + |message| || (padding == [] && (total < |ip| || total > |ip| + 8 + |message|))
    requires |udp| == 8 && IsDhcpPort(Load16(udp, 0)) && IsDhcpPort(Load16(udp, 2))
    ensures DecodeIp(ip + udp + message + padding) == Some(Ip(ip[12..16], DecodeDhcp(message)))
  {
    hide DecodeDhcp;
    var data := ip + udp + message + padding;
    assert forall i :: 0 <= i < 20 ==> data[i] == ip[i];
    assert data[12..16] == ip[12..16];
    var l4 := data[|ip|..|ip| + 8 + |message|];
    assert l4 == udp + message;
    assert Load16(l4, 0) == Load16(udp, 0) && Load16(l4, 2) == Load16(udp, 2);
    assert l4[8..] == message;
  }

  /** A datagram holds a message for the watcher exactly when both of its ports are DHCP's and a message is behind them. */
  lemma MessageNeedsBothPorts(proto: nat, data: Bytes)
    ensures DecodeL4(proto, data) ==
      if proto == 17 && |data| >= 8 && IsDhcpPort(Load16(data, 0)) && IsDhcpPort(Load16(data, 2))
      then DecodeDhcp(data[8..]) else None
  {
    hide DecodeDhcp;
  }

  /** An IPv6 extension header of one of the three kinds that are skipped; its contents fill eight-byte units. */
  datatype Extension = Extension(kind: Byte, units: Byte, contents: Bytes)

  predicate IsSkipped(e: Extension) {
    (e.kind == 0 || e.kind == 43 || e.kind == 60) && |e.contents| == 8 * (e.units as int + 1) - 2
  }

  /** What the header before them names first. */
  function FirstKind(extensions: seq<Extension>, proto: Byte): Byte {
    if extensions == [] then proto else extensions[0].kind
  }

  /** Extension headers, each with the kind of the next and the number of its units after the first. */
  function WriteExtensions(extensions: seq<Extension>, proto: Byte): Bytes {
    if extensions == [] then []
    else
      var head: Bytes := [FirstKind(extensions[1..], proto), extensions[0].units];
      head + extensions[0].contents + WriteExtensions(extensions[1..], proto)
  }

  /** Any number of extension headers is skipped, and the protocol and the payload behind them are found. */
  lemma {:induction false} ExtensionsAreSkipped(before: Bytes, extensions: seq<Extension>, proto: Byte, after: Bytes)
    requires (forall e <- extensions :: IsSkipped(e)) && proto != 0 && proto != 43 && proto != 60
    ensures var headers := WriteExtensions(extensions, proto);
      SkipExtensions(before + headers + after, FirstKind(extensions, proto), |before|) == (proto, |before| + |headers|)
    decreases |extensions|
  {
    var data := before + WriteExtensions(extensions, proto) + after;
    if extensions != [] {
      var e, rest := extensions[0], extensions[1..];
      assert IsSkipped(e);
      var head: Bytes := [FirstKind(rest, proto), e.units];
      var next := before + head + e.contents;
      assert data == next + WriteExtensions(rest, proto) + after;
      assert data[|before|] == FirstKind(rest, proto) && data[|before| + 1] == e.units;
      ExtensionsAreSkipped(next, rest, proto, after);
    }
  }

  /**
   A DHCP message in an IPv6 packet, behind any extension headers, becomes an event with the sender's address; padding
   behind the length that the packet names is no part of it, and a length of 0 means everything.
   */
  lemma PacketIsRead(version: Byte, flow: Bytes, length: nat, hop: Bytes, src: Bytes, dst: Bytes,
    extensions: seq<Extension>, udp: Bytes, message: Bytes, padding: Bytes)
    requires version / 16 == 6 && |flow| == 3 && |hop| == 1 && |src| == |dst| == 16 && length < 0x10000
    requires forall e <- extensions :: IsSkipped(e)
    requires |udp| == 8 && IsDhcpPort(Load16(udp, 0)) && IsDhcpPort(Load16(udp, 2))
    requires var headers := WriteExtensions(extensions, 17);
      length == |headers| + 8 + |message| || (length == 0 && padding == [])
    ensures var ip := [version] + flow + Word(length) + [FirstKind(extensions, 17)] + hop + src + dst;
      DecodeIp(ip + WriteExtensions(extensions, 17) + udp + message + padding) == Some(Ip(src, DecodeDhcp(message)))
  {
    hide DecodeDhcp, SkipExtensions, WriteExtensions, DecodeL4, Slice, Load16;
    var headers := WriteExtensions(extensions, 17);
    var ip := [version] + flow + Word(length) + [FirstKind(extensions, 17)] + hop + src + dst;
    var rest := udp + message + padding;
    HeaderIsRead(version, flow, length, FirstKind(extensions, 17), hop, src, dst, headers + rest);
    assert ip + headers + rest == ip + (headers + rest);
    ExtensionsAreSkipped(ip, extensions, 17, rest);
    assert ip + headers + udp + message + padding == ip + headers + rest == (ip + headers) + (udp + message) + padding;
    SliceIs(ip + headers, udp + message, padding);
    UdpIsRead(udp, message);
  }

  lemma SliceIs(before: Bytes, body: Bytes, after: Bytes)
    ensures Slice(before + body + after, |before|, |before| + |body|) == body
  {
    assert (before + body + after)[|before|..|before| + |body|] == body;
  }

  lemma UdpIsRead(udp: Bytes, message: Bytes)
    requires |udp| == 8 && IsDhcpPort(Load16(udp, 0)) && IsDhcpPort(Load16(udp, 2))
    ensures DecodeL4(17, udp + message) == DecodeDhcp(message)
  {
    hide DecodeDhcp, DecodeL4;
    MessageNeedsBothPorts(17, udp + message);
    assert (udp + message)[8..] == message;
    assert Load16(udp + message, 0) == Load16(udp, 0) && Load16(udp + message, 2) == Load16(udp, 2);
  }

  lemma HeaderIsRead(version: Byte, flow: Bytes, length: nat, next: Byte, hop: Bytes, src: Bytes, dst: Bytes, rest: Bytes)
    requires |flow| == 3 && |hop| == 1 && |src| == |dst| == 16 && length < 0x10000
    ensures var ip := [version] + flow + Word(length) + [next] + hop + src + dst;
      var data := ip + rest;
      && |ip| == 40 && data[0] == version && Load16(data, 4) == Some(length) && data[6] == next && data[8..24] == src
  {
    var head: Bytes := [version];
    var kind: Bytes := [next];
    var data := head + flow + Word(length) + kind + hop + src + dst + rest;
    assert data == (head + flow) + Word(length) + (kind + hop + src + dst + rest);
    WordIsLoaded(head + flow, length, kind + hop + src + dst + rest);
  }

  // ----- the filter against the decoder ---------------------------------------------------

  lemma DropAt(frame: Bytes, i: nat)
    requires 14 + i < |frame|
    ensures Drop(frame, 14) == frame[14..] && i < |Drop(frame, 14)| && Drop(frame, 14)[i] == frame[14 + i]
  {
  }

  /** An IPv4 datagram with a DHCP message in it is one the filter wants. */
  lemma DhcpIsWanted(frame: Bytes)
    requires |frame| > 14 && Ethertype(frame) == Some(0x0800) && frame[14] / 16 == 4
    requires DecodeIp(Drop(frame, 14)).Some? && DecodeIp(Drop(frame, 14)).value.dhcp.Some?
    ensures IsWanted(frame)
  {
    hide DecodeDhcp, Drop, IsWanted;
    var data := Drop(frame, 14);
    assert data == frame[14..] by { DropAt(frame, 0); }
    var header, total := 4 * (data[0] % 16), Load16(data, 2).value;
    var l4 := Slice(data, header, if header <= total <= |data| then total else |data|);
    SliceAt(frame, header, if header <= total <= |data| then total else |data|, l4);
    WantedWhen(frame, data);
  }

  /** What the transport header of a datagram says is said in the frame. */
  lemma SliceAt(frame: Bytes, header: nat, end: nat, l4: Bytes)
    requires |frame| >= 14 && end <= |frame| - 14 && l4 == Slice(frame[14..], header, end) && |l4| >= 8
    ensures Load16(l4, 0) == Load16(frame, 14 + header) && Load16(l4, 2) == Load16(frame, 16 + header)
    ensures Load16(l4, 0).Some? && Load16(l4, 2).Some?
  {
    assert l4 == frame[14..][header..end];
    assert forall i :: 0 <= i < 4 ==> l4[i] == frame[14 + header + i];
  }

  lemma WantedWhen(frame: Bytes, data: Bytes)
    requires |frame| >= 34 && data == frame[14..] && Ethertype(frame) == Some(0x0800)
    requires data[9] == 17 && Load16(data, 6).value % 0x2000 == 0
    requires var (sport, dport) := (Load16(frame, HeaderEnd(frame)), Load16(frame, HeaderEnd(frame) + 2));
      sport.Some? && (IsDhcpPort(sport) || IsDhcpPort(dport))
    ensures IsWanted(frame)
  {
    assert data[6] == frame[20] && data[7] == frame[21] && data[9] == frame[23];
  }

  /**
   Which events the kernel lets through: exactly those of the frames the filter wants. All events of untagged ARP frames
   are among them, and all of frames that are IPv4 by ethertype and version.
   */
  lemma EventsAreAccepted(frame: Bytes)
    requires EventsFrom(frame, false) != []
    ensures Exec(Assemble(TABLE), frame, 0, 0, 0) == Verdict(IsWanted(frame))
    ensures Ethertype(frame) == Some(0x0806) || (Ethertype(frame) == Some(0x0800) && |frame| > 14 && frame[14] / 16 == 4)
      ==> IsWanted(frame)
    ensures Ethertype(frame) != Some(0x0806) && Ethertype(frame) != Some(0x0800) ==> !IsWanted(frame)
  {
    ProgramAcceptsWanted(frame);
    if Ethertype(frame) == Some(0x0800) && |frame| > 14 && frame[14] / 16 == 4 {
      DhcpIsWanted(frame);
    }
  }

  /** Between the two, an IPv6 packet under the ethertype of IPv4: the decoder reads it, the filter looks elsewhere. */
  lemma Version6IsMissed(to: Bytes, from: Bytes, flow: Bytes, hop: Bytes, src: Bytes, dst: Bytes, udp: Bytes, message: Bytes)
    requires |to| == |from| == 6 && |flow| == 3 && |hop| == 1 && |src| == |dst| == 16 && src[1] != 17
    requires |udp| == 8 && IsDhcpPort(Load16(udp, 0)) && IsDhcpPort(Load16(udp, 2))
    requires 8 + |message| < 0x10000 && DecodeDhcp(message).Some?
    ensures var ip := [0x60] + flow + Word(8 + |message|) + [17] + hop + src + dst;
      var frame := to + from + Word(0x0800) + (ip + udp + message);
      EventsFrom(frame, false) == [DhcpEvent(DecodeDhcp(message).value, src, Some(from))] &&
      Exec(Assemble(TABLE), frame, 0, 0, 0) == 0
  {
    hide DecodeDhcp, DecodeIp;
    var ip := [0x60] + flow + Word(8 + |message|) + [17] + hop + src + dst;
    var data := ip + udp + message;
    var frame := to + from + Word(0x0800) + data;
    WordIsLoaded(to + from, 0x0800, data);
    assert frame[6..12] == from && Drop(frame, 14) == data && frame[23] == data[9] == src[1];
    assert data == ip + WriteExtensions([], 17) + udp + message + [];
    PacketIsRead(0x60, flow, 8 + |message|, hop, src, dst, [], udp, message, []);
    ProgramAcceptsWanted(frame);
  }

  /** The condition is needed: every other ethertype is refused, whatever the decoder would have made of the frame. */
  lemma OtherEthertypesAreMissed(frame: Bytes)
    requires Ethertype(frame) != Some(0x0806) && Ethertype(frame) != Some(0x0800)
    ensures Exec(Assemble(TABLE), frame, 0, 0, 0) == 0
  {
    ProgramAcceptsWanted(frame);
  }

  /** Such a frame: an ARP claim behind a VLAN tag is an event to the decoder and nothing to the filter. */
  lemma TaggedClaimIsMissed(macs: Bytes, tag: Bytes, rest: Bytes)
    requires |macs| == 12 && |tag| == 2 && |rest| == 22
    ensures var frame := macs + [0x81, 0x00] + tag + [0x08, 0x06] + [0, 1, 8, 0, 6, 4] + rest;
      EventsFrom(frame, false) != [] && Exec(Assemble(TABLE), frame, 0, 0, 0) == 0
  {
    var frame := macs + [0x81, 0x00] + tag + [0x08, 0x06] + [0, 1, 8, 0, 6, 4] + rest;
    assert frame[12] == 0x81 && frame[13] == 0 && frame[16] == 0x08 && frame[17] == 0x06;
    assert frame[18..24] == [0, 1, 8, 0, 6, 4];
    assert SkipTags(frame, 0x8100, 14) == SkipTags(frame, 0x0806, 18) == (0x0806, 18);
    OtherEthertypesAreMissed(frame);
  }
}
