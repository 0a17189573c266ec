/** Addresses of peers (internal/p2p/discovery/static.go and internal/storage/p2p.go). */
module PeerAddress {
  import opened Common
  import opened Text
  import opened Decimal

  /** Metadata, which starts empty, and the time of the last contact are left out. */
  datatype PeerInfo = PeerInfo(id: string, address: string, port: int)

  datatype HostPort = HostPort(host: string, port: string)

  datatype Parsed = Parsed(peer: PeerInfo) | BadHostPort | BadPort | PortOutOfRange

  /** net.SplitHostPort: none for a missing port, too many colons, or a misplaced bracket. */
  function SplitHostPort(s: string): Option<HostPort> {
    var colon := LastIndexOf(s, ':');
    if colon.None? then None
    else if s[0] == '[' then
      var end := IndexOf(s, ']');
      if end + 1 != colon.value || '[' in s[1..] || ']' in s[end + 1..] then None
      else Some(HostPort(s[1..end], s[colon.value + 1..]))
    else
      var host := s[..colon.value];
      if ':' in host || '[' in s || ']' in s then None else Some(HostPort(host, s[colon.value + 1..]))
  }

  function GeneratePeerID(address: string): string {
    ReplaceAll(address, ':', '_')
  }

  function ParsePeerAddress(address: string): Parsed {
    var at := IndexOf(address, '@');
    var id := if at < |address| then address[..at] else GeneratePeerID(address);
    ParseHostPort(id, SplitHostPort(if at < |address| then address[at + 1..] else address))
  }

  predicate IsPort(n: int) {
    1 <= n <= 65535
  }

  function ParseHostPort(id: string, hostPort: Option<HostPort>): Parsed {
    if hostPort.None? then BadHostPort
    else
      var port := ParseInt(hostPort.value.port);
      if port.None? then BadPort
      else if !IsPort(port.value) then PortOutOfRange
      else Parsed(PeerInfo(id, hostPort.value.host, port.value))
  }

  function PrintInt(n: int): string {
    if n < 0 then "-" + Print(-n) else Print(n)
  }

  /** PeerInfo.Addr */
  function Addr(p: PeerInfo): string {
    p.address + ":" + PrintInt(p.port)
  }

  /** PeerInfo.String */
  function PrintPeer(p: PeerInfo): string {
    p.id + "@" + Addr(p)
  }

  predicate Free(s: string) {
    '[' !in s && ']' !in s
  }

  predicate Bracketed(s: string) {
    s != "" && s[0] == '['
  }

  function PortText(address: string): string {
    var colon := LastIndexOf(address, ':');
    if colon.None? then "" else address[colon.value + 1..]
  }

  /** The two shapes of an address: host:port, or [host]:port with any colons inside the brackets. */
  predicate Shaped(s: string, hp: HostPort) {
    && Free(hp.host) && Free(hp.port) && ':' !in hp.port
    && (s == "[" + hp.host + "]" + [':'] + hp.port || (':' !in hp.host && s == hp.host + [':'] + hp.port))
  }

  lemma BracketedParts(host: string, port: string)
    requires Free(host) && Free(port) && ':' !in port
    ensures var s := "[" + host + "]" + [':'] + port;
            && LastIndexOf(s, ':') == Some(|host| + 2) && IndexOf(s, ']') == |host| + 1
            && s[0] == '[' && '[' !in s[1..] && ']' !in s[|host| + 2..]
            && s[1..|host| + 1] == host && s[|host| + 3..] == port
  {
    var front := "[" + host + "]";
    var s := front + [':'] + port;
    LastIndexOfUnique(front, ':', port);
    assert s == ("[" + host) + [']'] + ([':'] + port);
    IndexOfFirst("[" + host, ']', [':'] + port);
    assert s[1..] == host + "]" + [':'] + port;
    assert s[|front|..] == [':'] + port;
  }

  lemma BracketedSplits(hp: HostPort)
    requires Free(hp.host) && Free(hp.port) && ':' !in hp.port
    ensures SplitHostPort("[" + hp.host + "]" + [':'] + hp.port) == Some(hp)
  {
    BracketedParts(hp.host, hp.port);
  }

  lemma BareSplits(hp: HostPort)
    requires Free(hp.host) && Free(hp.port) && ':' !in hp.port && ':' !in hp.host
    ensures SplitHostPort(hp.host + [':'] + hp.port) == Some(hp)
  {
    var s := hp.host + [':'] + hp.port;
    LastIndexOfUnique(hp.host, ':', hp.port);
    assert s[..|hp.host|] == hp.host && s[|hp.host| + 1..] == hp.port;
    assert s[0] == if hp.host == "" then ':' else hp.host[0];
  }

  lemma BracketedIsShaped(s: string, end: nat)
    requires end + 1 < |s| && s[0] == '[' && s[end] == ']' && s[end + 1] == ':' && ':' !in s[end + 2..]
    requires ']' !in s[..end] && '[' !in s[1..] && ']' !in s[end + 1..]
    ensures var host, port := s[1..end], s[end + 2..];
            && Free(host) && Free(port) && s == "[" + host + "]" + [':'] + port
  {
    forall c | c in s[1..end]
      ensures c in s[1..] && c in s[..end]
    {
      var k :| 0 <= k < end - 1 && s[1..end][k] == c;
      assert s[1..][k] == c && s[..end][k + 1] == c;
    }
    forall c | c in s[end + 2..]
      ensures c in s[1..] && c in s[end + 1..]
    {
      var k :| 0 <= k < |s| - end - 2 && s[end + 2..][k] == c;
      assert s[1..][k + end + 1] == c && s[end + 1..][k + 1] == c;
    }
  }

  lemma BareIsShaped(s: string, colon: nat)
    requires colon < |s| && s[colon] == ':' && ':' !in s[..colon] && '[' !in s && ']' !in s
    ensures Free(s[..colon]) && Free(s[colon + 1..]) && s == s[..colon] + [':'] + s[colon + 1..]
  {
    assert forall c | c in s[..colon] :: c in s;
    assert forall c | c in s[colon + 1..] :: c in s;
  }

  lemma SplitIsShaped(s: string)
    requires SplitHostPort(s).Some?
    ensures var hp := SplitHostPort(s).value;
            && Shaped(s, hp) && hp.port == PortText(s)
            && (Bracketed(s) ==> s == "[" + hp.host + "]" + [':'] + hp.port)
            && (!Bracketed(s) ==> ':' !in hp.host && s == hp.host + [':'] + hp.port)
  {
    var colon := LastIndexOf(s, ':').value;
    if s[0] == '[' {
      BracketedIsShaped(s, IndexOf(s, ']'));
    } else {
      BareIsShaped(s, colon);
    }
  }

  /** SplitHostPort gives a host and a port exactly when they make up the address in one of the two shapes. */
  lemma SplitExactlyTheShapes(s: string, hp: HostPort)
    ensures SplitHostPort(s) == Some(hp) <==> Shaped(s, hp)
  {
    if SplitHostPort(s) == Some(hp) {
      SplitIsShaped(s);
    }
    if Shaped(s, hp) {
      if s == "[" + hp.host + "]" + [':'] + hp.port {
        BracketedSplits(hp);
      } else {
        BareSplits(hp);
      }
    }
  }

  // ---------------------------------------------------------------- round trip

  lemma PrintIntIsPlain(n: int)
    ensures var s := PrintInt(n); Free(s) && ':' !in s && '@' !in s
    ensures n >= 0 ==> PrintInt(n) == Print(n)
  {
    assert forall c | c in Print(if n < 0 then -n else n) :: IsDigit(c);
  }

  /** Printed ports come back as numbers, negative ones too. */
  lemma PrintedIntParses(n: int)
    requires -INT64_LIMIT <= n < INT64_LIMIT
    ensures ParseInt(PrintInt(n)) == Some(n)
  {
    var zeros := "";
    assert zeros + Print(if n < 0 then -n else n) == Print(if n < 0 then -n else n);
    NumeralIsParsed(PrintInt(n), n, if n < 0 then "-" else "", zeros);
  }

  predicate Printable(p: PeerInfo) {
    IsPort(p.port) && '@' !in p.id && ':' !in p.address && Free(p.address)
  }

  /** Reading back what was printed gives the peer exactly when its port is a port, its ID holds no '@' and its host
      neither colons nor brackets. */
  lemma ParseOfPrintedPeer(p: PeerInfo)
    ensures ParsePeerAddress(PrintPeer(p)) == Parsed(p) <==>
            && 1 <= p.port <= 65535 && '@' !in p.id
            && ':' !in p.address && '[' !in p.address && ']' !in p.address
  {
    if Printable(p) {
      PrintablePeerComesBack(p);
    } else {
      OthersDoNot(p);
    }
  }

  /** What ParseHostPort makes of a split address. */
  lemma PortIsChecked(id: string, hp: HostPort)
    ensures var parsed := ParseHostPort(id, Some(hp));
            && parsed != BadHostPort
            && (parsed == BadPort <==> ParseInt(hp.port) == None)
            && (parsed == PortOutOfRange <==> ParseInt(hp.port).Some? && !(1 <= ParseInt(hp.port).value <= 65535))
            && (parsed.Parsed? ==> parsed.peer.address == hp.host && ParseInt(hp.port) == Some(parsed.peer.port))
  {
  }

  /** The part of an address after its first '@', or all of it. */
  function HostPortText(address: string): string {
    var at := IndexOf(address, '@');
    if at < |address| then address[at + 1..] else address
  }

  /** What is wrong with an address that is refused: its shape, its port's text, or its port. */
  lemma RefusedExactlyWhen(address: string)
    ensures var parsed := ParsePeerAddress(address);
            && (parsed == BadHostPort <==> forall hp :: !Shaped(HostPortText(address), hp))
            && (forall hp | Shaped(HostPortText(address), hp) ::
                  && (parsed == BadPort <==> ParseInt(hp.port) == None)
                  && (parsed == PortOutOfRange <==> ParseInt(hp.port).Some? && !(1 <= ParseInt(hp.port).value <= 65535))
                  && (parsed.Parsed? ==> parsed.peer.address == hp.host && ParseInt(hp.port) == Some(parsed.peer.port)))
  {
    var split := SplitHostPort(HostPortText(address));
    var at := IndexOf(address, '@');
    var id := if at < |address| then address[..at] else GeneratePeerID(address);
    assert ParsePeerAddress(address) == ParseHostPort(id, split);
    forall hp
      ensures split == Some(hp) <==> Shaped(HostPortText(address), hp)
    {
      SplitExactlyTheShapes(HostPortText(address), hp);
    }
    if split.Some? {
      PortIsChecked(id, split.value);
      assert Shaped(HostPortText(address), split.value);
    }
  }

  lemma PrintablePeerComesBack(p: PeerInfo)
    requires Printable(p)
    ensures ParsePeerAddress(PrintPeer(p)) == Parsed(p)
  {
    PrintedIdComesBack(p);
    PrintedAddrSplits(p);
  }

  lemma OthersDoNot(p: PeerInfo)
    requires !Printable(p)
    ensures ParsePeerAddress(PrintPeer(p)) != Parsed(p)
  {
    PrintedIdComesBack(p);
    if '@' !in p.id {
      OtherAddrs(p);
    }
  }

  lemma OtherAddrs(p: PeerInfo)
    requires !Printable(p) && '@' !in p.id
    ensures ParseHostPort(p.id, SplitHostPort(Addr(p))) != Parsed(p)
  {
    if SplitHostPort(Addr(p)).Some? && SplitHostPort(Addr(p)).value.host == p.address {
      HostComesBackOnlyBare(p);
    }
  }

  lemma PrintedIdComesBack(p: PeerInfo)
    ensures '@' !in p.id ==> ParsePeerAddress(PrintPeer(p)) == ParseHostPort(p.id, SplitHostPort(Addr(p)))
    ensures '@' in p.id ==> ParsePeerAddress(PrintPeer(p)) != Parsed(p)
  {
    var s := PrintPeer(p);
    assert s == p.id + ['@'] + Addr(p);
    if '@' in p.id {
      var i :| 0 <= i < |p.id| && p.id[i] == '@';
      assert s[i] == '@';
      IndexOfLeast(s, '@', i);
    } else {
      IndexOfFirst(p.id, '@', Addr(p));
      assert s[..|p.id|] == p.id && s[|p.id| + 1..] == Addr(p);
    }
  }

  lemma PrintedAddrSplits(p: PeerInfo)
    requires ':' !in p.address && Free(p.address)
    ensures SplitHostPort(Addr(p)) == Some(HostPort(p.address, PrintInt(p.port)))
    ensures IsPort(p.port) ==> ParseInt(PrintInt(p.port)) == Some(p.port)
  {
    PrintIntIsPlain(p.port);
    assert Addr(p) == p.address + [':'] + PrintInt(p.port);
    BareSplits(HostPort(p.address, PrintInt(p.port)));
    if IsPort(p.port) {
      ParseOfPrint(p.port);
    }
  }

  /** A host in brackets comes back without them, and any other host with colons or brackets is refused. */
  lemma HostComesBackOnlyBare(p: PeerInfo)
    requires SplitHostPort(Addr(p)).Some? && SplitHostPort(Addr(p)).value.host == p.address
    ensures ':' !in p.address && Free(p.address)
  {
    var hp := SplitHostPort(Addr(p)).value;
    SplitIsShaped(Addr(p));
    PrintIntIsPlain(p.port);
    assert Addr(p) == p.address + [':'] + PrintInt(p.port);
    LastIndexOfUnique(p.address, ':', PrintInt(p.port));
    assert hp.port == PrintInt(p.port);
  }

  // ---------------------------------------------------------------- generated IDs

  predicate IsAccepted(address: string) {
    ParsePeerAddress(address).Parsed?
  }

  /** Equal but for colons in place of underscores. */
  predicate Alike(a: string, b: string) {
    |a| == |b| && forall i | 0 <= i < |a| :: a[i] == b[i] || (a[i] in ":_" && b[i] in ":_")
  }

  lemma NumberHasNoSeparators(s: string)
    requires ParseInt(s).Some?
    ensures '_' !in s && ':' !in s
  {
    var digits := if s[0] == '+' || s[0] == '-' then s[1..] else s;
    assert forall c | c in digits :: IsDigit(c);
    assert forall c | c in s :: c == s[0] || c in digits;
  }

  lemma AlikeExactlyWhenSameId(a: string, b: string)
    ensures GeneratePeerID(a) == GeneratePeerID(b) <==> Alike(a, b)
  {
    var x, y := GeneratePeerID(a), GeneratePeerID(b);
    if Alike(a, b) {
      assert forall i | 0 <= i < |a| :: x[i] == y[i];
    }
    if x == y {
      forall i | 0 <= i < |a|
        ensures a[i] == b[i] || (a[i] in ":_" && b[i] in ":_")
      {
        assert x[i] == y[i];
      }
    }
  }

  lemma ParseWithoutId(a: string)
    requires '@' !in a
    ensures ParsePeerAddress(a) == ParseHostPort(GeneratePeerID(a), SplitHostPort(a))
  {
  }

  /** The parts of an accepted address without an ID. */
  lemma PartsOf(a: string)
    requires IsAccepted(a) && '@' !in a
    ensures ParsePeerAddress(a).peer.id == GeneratePeerID(a)
    ensures var host := ParsePeerAddress(a).peer.address;
            && '_' !in PortText(a) && ':' !in PortText(a)
            && (Bracketed(a) ==> a == "[" + host + "]" + [':'] + PortText(a))
            && (!Bracketed(a) ==> ':' !in host && a == host + [':'] + PortText(a))
  {
    ParseWithoutId(a);
    SplitIsShaped(a);
    NumberHasNoSeparators(PortText(a));
  }

  /** The last colon of an address is the last underscore of its ID. */
  lemma PortOfSameId(front1: string, port1: string, front2: string, port2: string)
    requires '_' !in port1 && ':' !in port1 && '_' !in port2 && ':' !in port2
    requires Alike(front1 + [':'] + port1, front2 + [':'] + port2)
    ensures port1 == port2 && Alike(front1, front2)
  {
    var a, b := front1 + [':'] + port1, front2 + [':'] + port2;
    assert a[|front1|] == ':' && b[|front2|] == ':';
    if |front1| < |front2| {
      assert false;
    } else if |front2| < |front1| {
      assert false;
    } else {
      forall i | 0 <= i < |port1|
        ensures port1[i] == port2[i]
      {
        assert a[|front1| + 1 + i] == port1[i] && b[|front1| + 1 + i] == port2[i];
        assert port1[i] in port1 && port2[i] in port2;
      }
      forall i | 0 <= i < |front1|
        ensures front1[i] == front2[i] || (front1[i] in ":_" && front2[i] in ":_")
      {
        assert a[i] == front1[i] && b[i] == front2[i];
      }
    }
  }

  lemma AlikeWithoutColons(a: string, b: string)
    requires Alike(a, b) && ':' !in a && ':' !in b
    ensures a == b
  {
    forall i | 0 <= i < |a|
      ensures a[i] == b[i]
    {
      assert a[i] in a && b[i] in b;
    }
  }

  lemma BracketedAlike(h1: string, h2: string)
    ensures Alike("[" + h1 + "]", "[" + h2 + "]") <==> Alike(h1, h2)
  {
    var a, b := "[" + h1 + "]", "[" + h2 + "]";
    assert forall i | 0 <= i < |h1| :: a[i + 1] == h1[i];
    assert forall i | 0 <= i < |h2| :: b[i + 1] == h2[i];
    if Alike(h1, h2) {
      forall i | 0 <= i < |a|
        ensures a[i] == b[i] || (a[i] in ":_" && b[i] in ":_")
      {
        assert 0 < i < |a| - 1 ==> a[i] == h1[i - 1] && b[i] == h2[i - 1];
      }
    }
  }

  lemma AlikeConcat(front1: string, front2: string, port: string)
    requires Alike(front1, front2)
    ensures Alike(front1 + [':'] + port, front2 + [':'] + port)
  {
  }

  /** Two different accepted addresses without an ID get the same one exactly when both have their hosts in brackets,
      and these differ only in colons against underscores. */
  lemma SameIdExactlyWhen(a: string, b: string)
    requires IsAccepted(a) && IsAccepted(b) && '@' !in a && '@' !in b
    ensures var p, q := ParsePeerAddress(a).peer, ParsePeerAddress(b).peer;
            p.id == q.id <==>
            a == b || (Bracketed(a) && Bracketed(b) && Alike(p.address, q.address) && PortText(a) == PortText(b))
  {
    var p, q := ParsePeerAddress(a).peer, ParsePeerAddress(b).peer;
    PartsOf(a);
    PartsOf(b);
    AlikeExactlyWhenSameId(a, b);
    var front1 := if Bracketed(a) then "[" + p.address + "]" else p.address;
    var front2 := if Bracketed(b) then "[" + q.address + "]" else q.address;
    BracketedAlike(p.address, q.address);
    if p.id == q.id {
      assert a[0] == b[0] || (a[0] in ":_" && b[0] in ":_");
      PortOfSameId(front1, PortText(a), front2, PortText(b));
      if !Bracketed(a) {
        AlikeWithoutColons(p.address, q.address);
      }
    }
    if Bracketed(a) && Bracketed(b) && Alike(p.address, q.address) && PortText(a) == PortText(b) {
      AlikeConcat(front1, front2, PortText(a));
    }
  }

  // ---------------------------------------------------------------- the configured list

  /** The peers of those addresses that parse, in their order. */
  function Collected(parse: string -> Parsed, addresses: seq<string>): seq<PeerInfo> {
    if addresses == [] then [] else PeerOf(parse(addresses[0])) + Collected(parse, addresses[1..])
  }

  function PeerOf(parsed: Parsed): seq<PeerInfo> {
    if parsed.Parsed? then [parsed.peer] else []
  }

  function Configured(addresses: seq<string>): seq<PeerInfo> {
    Collected(ParsePeerAddress, addresses)
  }

  lemma CollectedStep(parse: string -> Parsed, addresses: seq<string>, i: nat)
    requires i < |addresses|
    ensures Collected(parse, addresses[i..]) ==
            if parse(addresses[i]).Parsed? then [parse(addresses[i]).peer] + Collected(parse, addresses[i + 1..])
            else Collected(parse, addresses[i + 1..])
  {
    assert addresses[i..][0] == addresses[i] && addresses[i..][1..] == addresses[i + 1..];
  }

  lemma EmptyAddressIsRefused()
    ensures ParsePeerAddress("") == BadHostPort
  {
  }

  method NewStaticDiscovery(bootstrapPeers: seq<string>) returns (peers: seq<PeerInfo>)
    ensures peers == Configured(bootstrapPeers)
  {
    EmptyAddressIsRefused();
    peers := Collect(ParsePeerAddress, bootstrapPeers);
  }

  /** The loop of NewStaticDiscovery, for any parser. */
  method Collect(parse: string -> Parsed, bootstrapPeers: seq<string>) returns (peers: seq<PeerInfo>)
    requires !parse("").Parsed?
    ensures peers == Collected(parse, bootstrapPeers)
  {
    peers := [];
    var i := 0;
    assert bootstrapPeers[0..] == bootstrapPeers;
    while i < |bootstrapPeers|
      invariant 0 <= i <= |bootstrapPeers|
      invariant Collected(parse, bootstrapPeers) == peers + Collected(parse, bootstrapPeers[i..])
    {
      CollectedStep(parse, bootstrapPeers, i);
      ghost var rest := Collected(parse, bootstrapPeers[i + 1..]);
      var address := bootstrapPeers[i];
      i := i + 1;
      if address == "" {
        continue;
      }
      var parsed := parse(address);
      if !parsed.Parsed? {
        continue;
      }
      Regroup(peers, parsed.peer, rest);
      peers := peers + [parsed.peer];
    }
  }

  /** A node that is configured with the printed list of another one's peers knows the same peers. */
  lemma ConfiguredUndoesPrinting(peers: seq<PeerInfo>)
    requires forall p | p in peers :: Printable(p)
    ensures Configured(Map(PrintPeer, peers)) == peers
  {
    forall p | p in peers
      ensures ParsePeerAddress(PrintPeer(p)) == Parsed(p)
    {
      assert Printable(p);
      ParseOfPrintedPeer(p);
    }
    CollectedUndoes(ParsePeerAddress, PrintPeer, peers);
  }

  function Map<A, B>(f: A -> B, s: seq<A>): seq<B> {
    if s == [] then [] else [f(s[0])] + Map(f, s[1..])
  }

  lemma {:induction false} CollectedUndoes(parse: string -> Parsed, show: PeerInfo -> string, peers: seq<PeerInfo>)
    requires forall p | p in peers :: parse(show(p)) == Parsed(p)
    ensures Collected(parse, Map(show, peers)) == peers
  {
    if peers != [] {
      assert peers[0] in peers;
      CollectedUndoes(parse, show, peers[1..]);
      assert Map(show, peers)[1..] == Map(show, peers[1..]);
    }
  }

  /** Addresses that the ID map keeps apart: no ID of their own and no brackets. */
  predicate Bare(address: string) {
    '@' !in address && !Bracketed(address)
  }

  /** Different bare addresses yield different IDs, so a map keyed by ID holds as many peers as are configured. */
  lemma NoConfiguredPeerIsLost(addresses: seq<string>)
    requires Distinct(addresses) && forall a | a in addresses :: Bare(a)
    ensures DistinctIds(Configured(addresses))
  {
    forall a, b | a in addresses && b in addresses
      ensures SeparateIds(ParsePeerAddress, a, b)
    {
      assert Bare(a) && Bare(b);
      if IsAccepted(a) && IsAccepted(b) {
        SameIdExactlyWhen(a, b);
      }
    }
    CollectedIds(ParsePeerAddress, addresses);
  }

  predicate DistinctIds(peers: seq<PeerInfo>) {
    forall i, j | 0 <= i < j < |peers| :: peers[i].id != peers[j].id
  }

  predicate SeparateIds(parse: string -> Parsed, a: string, b: string) {
    parse(a).Parsed? && parse(b).Parsed? && parse(a).peer.id == parse(b).peer.id ==> a == b
  }

  lemma {:induction false} CollectedFrom(parse: string -> Parsed, addresses: seq<string>)
    ensures forall p | p in Collected(parse, addresses) :: exists a :: a in addresses && parse(a) == Parsed(p)
  {
    if addresses != [] {
      CollectedFrom(parse, addresses[1..]);
      forall p | p in Collected(parse, addresses)
        ensures exists a :: a in addresses && parse(a) == Parsed(p)
      {
        if parse(addresses[0]) == Parsed(p) {
          assert addresses[0] in addresses;
        } else {
          assert p in Collected(parse, addresses[1..]);
          var a :| a in addresses[1..] && parse(a) == Parsed(p);
          assert a in addresses;
        }
      }
    }
  }

  lemma {:induction false} CollectedIds(parse: string -> Parsed, addresses: seq<string>)
    requires Distinct(addresses)
    requires forall a, b | a in addresses && b in addresses :: SeparateIds(parse, a, b)
    ensures DistinctIds(Collected(parse, addresses))
  {
    if addresses != [] {
      var first, rest := addresses[0], addresses[1..];
      CollectedIds(parse, rest);
      CollectedFrom(parse, rest);
      forall p | p in Collected(parse, rest) && parse(first).Parsed?
        ensures p.id != parse(first).peer.id
      {
        var a :| a in rest && parse(a) == Parsed(p);
        assert SeparateIds(parse, first, a);
      }
    }
  }
}
