/**
 A reader that recovers the metrics from the text of a device report by looking up its keys.
 */
module ReportReads {
  import opened Options
  import opened JsonTexts
  import opened ReportBuilders
  import opened ReportParses

  // ----- Looking up keys

  // The first member with the key.
  function Find(ms: seq<Member>, key: string): Option<Json> {
    if ms == [] then None else if ms[0].key == key then Some(ms[0].value) else Find(ms[1..], key)
  }

  function At(j: Json, key: string): Option<Json> {
    if j.Object? then Find(j.members, key) else None
  }

  function NumberAt(j: Json, key: string): Option<nat> {
    match At(j, key)
    case Some(Number(n)) => Some(n)
    case _ => None
  }

  function TextAt(j: Json, key: string): Option<string> {
    match At(j, key)
    case Some(Text(s)) => Some(s)
    case _ => None
  }

  function ItemsAt(j: Json, key: string): Option<seq<Json>> {
    match At(j, key)
    case Some(Array(js)) => Some(js)
    case _ => None
  }

  // Reads every item, or fails.
  function ReadAll<T>(js: seq<Json>, read: Json -> Option<T>): Option<seq<T>> {
    if js == [] then Some([])
    else
      match (read(js[0]), ReadAll(js[1..], read))
      case (Some(x), Some(xs)) => Some([x] + xs)
      case _ => None
  }

  // ----- Dotted texts

  // A number and the character after it.
  function NumberThen(s: string, c: char): Parsed<nat> {
    match ParseNumber(s)
    case Failed => Failed
    case Parsed(n, rest) => if rest != "" && rest[0] == c then Parsed(n, rest[1..]) else Failed
  }

  // A number that ends the text.
  function LastNumber(s: string): Option<nat> {
    match ParseNumber(s)
    case Failed => None
    case Parsed(n, rest) => if rest == "" then Some(n) else None
  }

  function ReadVersion(s: string): Option<(nat, nat)> {
    match NumberThen(s, '.')
    case Failed => None
    case Parsed(major, rest) =>
      match LastNumber(rest)
      case None => None
      case Some(minor) => Some((major, minor))
  }

  // The 32-bit address of a dotted quad, and the port after it.
  function ReadAddress(s: string): Option<(nat, nat)> {
    match NumberThen(s, '.')
    case Failed => None
    case Parsed(a, s1) =>
      match NumberThen(s1, '.')
      case Failed => None
      case Parsed(b, s2) =>
        match NumberThen(s2, '.')
        case Failed => None
        case Parsed(c, s3) =>
          match NumberThen(s3, ':')
          case Failed => None
          case Parsed(d, s4) =>
            match LastNumber(s4)
            case Some(port) =>
              if a < 256 && b < 256 && c < 256 && d < 256 then
                Some((a * 0x100_0000 + b * 0x1_0000 + c * 256 + d, port))
              else None
            case None => None
  }

  lemma NumberThenOf(n: nat, c: char, rest: string)
    requires !IsDigit(c)
    ensures NumberThen(Decimal(n) + ([c] + rest), c) == Parsed(n, rest)
  {
    hide Decimal, ParseNumber;
    ParseDecimal(n, [c] + rest);
    assert ([c] + rest)[1..] == rest;
  }

  lemma LastNumberOf(n: nat)
    ensures LastNumber(Decimal(n)) == Some(n)
  {
    hide Decimal, ParseNumber;
    ParseDecimal(n, "");
    assert Decimal(n) + "" == Decimal(n);
  }

  lemma VersionIsRead(major: nat, minor: nat)
    ensures ReadVersion(Decimal(major) + "." + Decimal(minor)) == Some((major, minor))
  {
    hide Decimal, NumberThen, LastNumber;
    assert Decimal(major) + "." + Decimal(minor) == Decimal(major) + (['.'] + Decimal(minor));
    NumberThenOf(major, '.', Decimal(minor));
    LastNumberOf(minor);
  }

  lemma FourBytes(ip: nat)
    requires ip < 0x1_0000_0000
    ensures ip / 0x100_0000 % 256 * 0x100_0000 + ip / 0x1_0000 % 256 * 0x1_0000 + ip / 256 % 256 * 256 + ip % 256 == ip
  {
  }

  lemma AddressIsRead(ip: nat, port: nat)
    requires ip < 0x1_0000_0000
    ensures ReadAddress(AddressText(ip, port)) == Some((ip, port))
  {
    hide Decimal, NumberThen, LastNumber;
    var a, b, c, d := ip / 0x100_0000 % 256, ip / 0x1_0000 % 256, ip / 256 % 256, ip % 256;
    var s4 := Decimal(port);
    var s3 := Decimal(d) + ([':'] + s4);
    var s2 := Decimal(c) + (['.'] + s3);
    var s1 := Decimal(b) + (['.'] + s2);
    assert AddressText(ip, port) == Decimal(a) + (['.'] + s1) by {
      Nest8(Decimal(a), ".", Decimal(b), ".", Decimal(c), ".", Decimal(d), ":", Decimal(port));
    }
    NumberThenOf(a, '.', s1);
    NumberThenOf(b, '.', s2);
    NumberThenOf(c, '.', s3);
    NumberThenOf(d, ':', s4);
    LastNumberOf(port);
    FourBytes(ip);
  }

  // ----- The reader

  // Members of one object have different keys.
  predicate Distinguishable(k: Keys) {
    && k.header != k.metrics && k.header != k.custom && k.metrics != k.custom
    && k.id != k.version
    && k.tcpPorts != k.udpPorts && k.tcpPorts != k.networkStats && k.tcpPorts != k.tcpConnections
    && k.udpPorts != k.networkStats && k.udpPorts != k.tcpConnections && k.networkStats != k.tcpConnections
    && k.ports != k.total && k.connections != k.total
    && k.bytesIn != k.bytesOut && k.bytesIn != k.packetsIn && k.bytesIn != k.packetsOut
    && k.bytesOut != k.packetsIn && k.bytesOut != k.packetsOut && k.packetsIn != k.packetsOut
    && k.localPort != k.remoteAddress
  }

  function ReadPort(k: Keys, j: Json): Option<nat> {
    NumberAt(j, k.port)
  }

  function ReadConnection(k: Keys, j: Json): Option<Connection> {
    match (NumberAt(j, k.localPort), TextAt(j, k.remoteAddress))
    case (Some(localPort), Some(address)) =>
      (match ReadAddress(address)
       case Some((ip, port)) => Some(Connection(localPort, ip, port))
       case None => None)
    case _ => None
  }

  function ReadTaskId(j: Json): Option<nat> {
    if j.Number? then Some(j.number) else None
  }

  // A list beside its length, which must be right.
  function ReadTotalled<T>(k: Keys, j: Json, key: string, read: Json -> Option<T>): Option<seq<T>> {
    match (ItemsAt(j, key), NumberAt(j, k.total))
    case (Some(js), Some(n)) => if n == |js| then ReadAll(js, read) else None
    case _ => None
  }

  function ReadStats(k: Keys, j: Json): Option<NetworkStats> {
    match (NumberAt(j, k.bytesIn), NumberAt(j, k.bytesOut), NumberAt(j, k.packetsIn), NumberAt(j, k.packetsOut))
    case (Some(a), Some(b), Some(c), Some(d)) => Some(NetworkStats(a, b, c, d))
    case _ => None
  }

  function ReadHeader(k: Keys, j: Json): Option<Stamp> {
    match (NumberAt(j, k.id), TextAt(j, k.version))
    case (Some(id), Some(version)) =>
      (match ReadVersion(version)
       case Some((major, minor)) => Some(Stamp(major, minor, id))
       case None => None)
    case _ => None
  }

  // The one object in a list.
  function OnlyAt(j: Json, key: string): Option<Json> {
    match ItemsAt(j, key)
    case Some(js) => if |js| == 1 then Some(js[0]) else None
    case None => None
  }

  function ReadCustom(k: Keys, j: Json): Option<(nat, seq<nat>)> {
    match (OnlyAt(j, "stack_high_water_mark"), OnlyAt(j, "task_numbers"))
    case (Some(water), Some(tasks)) =>
      (match (NumberAt(water, k.number), ItemsAt(tasks, k.numberList))
       case (Some(mark), Some(js)) =>
         (match ReadAll(js, ReadTaskId)
          case Some(ids) => Some((mark, ids))
          case None => None)
       case _ => None)
    case _ => None
  }

  function ReadEstablished(k: Keys, j: Json): Option<seq<Connection>> {
    match At(j, k.established)
    case Some(e) => ReadTotalled(k, e, k.connections, c => ReadConnection(k, c))
    case None => None
  }

  function ReadPorts(k: Keys, j: Json): Option<seq<nat>> {
    ReadTotalled(k, j, k.ports, p => ReadPort(k, p))
  }

  function ReadMetrics(k: Keys, j: Json, custom: (nat, seq<nat>)): Option<Metrics> {
    match (At(j, k.tcpPorts), At(j, k.udpPorts), At(j, k.networkStats), At(j, k.tcpConnections))
    case (Some(tcp), Some(udp), Some(stats), Some(connections)) =>
      (match (ReadPorts(k, tcp), ReadPorts(k, udp), ReadStats(k, stats), ReadEstablished(k, connections))
       case (Some(t), Some(u), Some(n), Some(c)) => Some(Metrics(t, u, n, c, custom.0, custom.1))
       case _ => None)
    case _ => None
  }

  function ReadTree(k: Keys, j: Json): Option<(Metrics, Stamp)> {
    match (At(j, k.header), At(j, k.metrics), At(j, k.custom))
    case (Some(header), Some(metrics), Some(custom)) =>
      (match (ReadHeader(k, header), ReadCustom(k, custom))
       case (Some(s), Some(c)) =>
         (match ReadMetrics(k, metrics, c)
          case Some(m) => Some((m, s))
          case None => None)
       case _ => None)
    case _ => None
  }

  function ReadReport(k: Keys, text: string): Option<(Metrics, Stamp)> {
    match Parse(text)
    case Failed => None
    case Parsed(j, _) => ReadTree(k, j)
  }

  // ----- The reader on the tree of a report

  lemma Find2(m: Member, n: Member)
    ensures Find([m, n], m.key) == Some(m.value)
    ensures m.key != n.key ==> Find([m, n], n.key) == Some(n.value)
  {
    assert [m, n][1..] == [n];
    assert Find([n], n.key) == Some(n.value);
  }

  lemma Find3(l: Member, m: Member, n: Member)
    requires l.key != m.key && l.key != n.key && m.key != n.key
    ensures Find([l, m, n], l.key) == Some(l.value)
    ensures Find([l, m, n], m.key) == Some(m.value)
    ensures Find([l, m, n], n.key) == Some(n.value)
  {
    assert [l, m, n][1..] == [m, n];
    Find2(m, n);
  }

  lemma Find4(k: Member, l: Member, m: Member, n: Member)
    requires k.key != l.key && k.key != m.key && k.key != n.key && l.key != m.key && l.key != n.key && m.key != n.key
    ensures Find([k, l, m, n], k.key) == Some(k.value)
    ensures Find([k, l, m, n], l.key) == Some(l.value)
    ensures Find([k, l, m, n], m.key) == Some(m.value)
    ensures Find([k, l, m, n], n.key) == Some(n.value)
  {
    assert [k, l, m, n][1..] == [l, m, n];
    Find3(l, m, n);
  }

  lemma {:induction false} AllAreRead<T(!new)>(items: seq<T>, tree: T -> Json, read: Json -> Option<T>)
    requires forall i :: 0 <= i < |items| ==> read(tree(items[i])) == Some(items[i])
    ensures ReadAll(Mapped(items, tree), read) == Some(items)
  {
    if items != [] {
      assert forall i :: 0 <= i < |items[1..]| ==> items[1..][i] == items[i + 1];
      AllAreRead(items[1..], tree, read);
      assert [items[0]] + items[1..] == items;
    }
  }

  lemma ConnectionIsRead(k: Keys, c: Connection)
    requires k.localPort != k.remoteAddress && c.remoteIp < 0x1_0000_0000
    ensures ReadConnection(k, ConnectionTree(k, c)) == Some(c)
  {
    hide ReadAddress, AddressText, Find;
    Find2(Member(k.localPort, Number(c.localPort)),
          Member(k.remoteAddress, Text(AddressText(c.remoteIp, c.remotePort))));
    AddressIsRead(c.remoteIp, c.remotePort);
  }

  lemma PortsAreRead(k: Keys, ports: seq<nat>)
    requires k.ports != k.total
    ensures ReadPorts(k, Totalled(k, k.ports, PortsTree(k, ports), |ports|)) == Some(ports)
  {
    Find2(Member(k.ports, PortsTree(k, ports)), Member(k.total, Number(|ports|)));
    assert forall p: nat :: ReadPort(k, PortTree(k, p)) == Some(p);
    AllAreRead(ports, p => PortTree(k, p), p => ReadPort(k, p));
    hide Find, ReadAll, Mapped;
  }

  predicate Addressable(m: Metrics) {
    forall i :: 0 <= i < |m.connections| ==> m.connections[i].remoteIp < 0x1_0000_0000
  }

  lemma EstablishedIsRead(k: Keys, m: Metrics)
    requires k.connections != k.total && k.localPort != k.remoteAddress && Addressable(m)
    ensures ReadEstablished(k, EstablishedTree(k, m)) == Some(m.connections)
  {
    var list := ConnectionsTree(k, m.connections);
    Find2(Member(k.connections, list), Member(k.total, Number(|m.connections|)));
    forall i | 0 <= i < |m.connections|
      ensures ReadConnection(k, ConnectionTree(k, m.connections[i])) == Some(m.connections[i])
    {
      ConnectionIsRead(k, m.connections[i]);
    }
    hide ReadConnection, ConnectionTree, ReadAll, Mapped;
    AllAreRead(m.connections, c => ConnectionTree(k, c), c => ReadConnection(k, c));
  }

  lemma CustomIsRead(k: Keys, m: Metrics)
    ensures ReadCustom(k, CustomTree(k, m)) == Some((m.stackHighWaterMark, m.taskIds))
  {
    AllAreRead(m.taskIds, t => Number(t), ReadTaskId);
    hide ReadAll, Mapped;
    assert "stack_high_water_mark"[0] != "task_numbers"[0];
    Find2(Member("stack_high_water_mark", Array([Object([Member(k.number, Number(m.stackHighWaterMark))])])),
          Member("task_numbers", Array([Object([Member(k.numberList, TaskIdsTree(m.taskIds))])])));
  }

  lemma StatsAreRead(k: Keys, n: NetworkStats)
    requires Distinguishable(k)
    ensures ReadStats(k, StatsTree(k, n)) == Some(n)
  {
    hide Find;
    Find4(Member(k.bytesIn, Number(n.bytesReceived)), Member(k.bytesOut, Number(n.bytesSent)),
          Member(k.packetsIn, Number(n.packetsReceived)), Member(k.packetsOut, Number(n.packetsSent)));
  }

  lemma HeaderIsRead(k: Keys, s: Stamp)
    requires k.id != k.version
    ensures ReadHeader(k, HeaderTree(k, s)) == Some(s)
  {
    hide Find, ReadVersion, Decimal;
    Find2(Member(k.id, Number(s.id)), Member(k.version, Text(Decimal(s.major) + "." + Decimal(s.minor))));
    VersionIsRead(s.major, s.minor);
  }

  lemma MetricsAreRead(k: Keys, m: Metrics)
    requires Distinguishable(k) && Addressable(m)
    ensures ReadMetrics(k, MetricsTree(k, m), (m.stackHighWaterMark, m.taskIds)) == Some(m)
  {
    Find4(Member(k.tcpPorts, Totalled(k, k.ports, PortsTree(k, m.tcpPorts), |m.tcpPorts|)),
          Member(k.udpPorts, Totalled(k, k.ports, PortsTree(k, m.udpPorts), |m.udpPorts|)),
          Member(k.networkStats, StatsTree(k, m.stats)),
          Member(k.tcpConnections, EstablishedTree(k, m)));
    hide Find, ReadPorts, ReadStats, ReadEstablished, Totalled, StatsTree, EstablishedTree, PortsTree;
    PortsAreRead(k, m.tcpPorts);
    PortsAreRead(k, m.udpPorts);
    StatsAreRead(k, m.stats);
    EstablishedIsRead(k, m);
  }

  lemma TreeIsRead(k: Keys, m: Metrics, s: Stamp)
    requires Distinguishable(k) && Addressable(m)
    ensures ReadTree(k, ReportTree(k, m, s)) == Some((m, s))
  {
    Find3(Member(k.header, HeaderTree(k, s)), Member(k.metrics, MetricsTree(k, m)), Member(k.custom, CustomTree(k, m)));
    hide Find, ReadHeader, ReadMetrics, ReadCustom, HeaderTree, MetricsTree, CustomTree;
    HeaderIsRead(k, s);
    CustomIsRead(k, m);
    MetricsAreRead(k, m);
  }

  // ----- The tree is printable

  predicate PlainKeys(k: Keys) {
    && Plain(k.header) && Plain(k.id) && Plain(k.version) && Plain(k.metrics)
    && Plain(k.tcpPorts) && Plain(k.udpPorts) && Plain(k.ports) && Plain(k.port) && Plain(k.total)
    && Plain(k.networkStats) && Plain(k.bytesIn) && Plain(k.bytesOut) && Plain(k.packetsIn) && Plain(k.packetsOut)
    && Plain(k.tcpConnections) && Plain(k.established) && Plain(k.connections) && Plain(k.localPort)
    && Plain(k.remoteAddress) && Plain(k.custom) && Plain(k.number) && Plain(k.numberList)
  }

  lemma PlainSum(a: string, b: string)
    requires Plain(a) && Plain(b)
    ensures Plain(a + b)
  {
  }

  lemma AddressIsPlain(ip: nat, port: nat)
    ensures Plain(AddressText(ip, port))
  {
    hide Decimal;
  }

  lemma PrintableMembers2(m: Member, n: Member)
    requires Plain(m.key) && Printable(m.value) && Plain(n.key) && Printable(n.value)
    ensures PrintableMembers([m, n]) && Printable(Object([m, n]))
  {
    assert [m, n][1..] == [n] && [n][1..] == [];
  }

  lemma PrintableMember(m: Member)
    requires Plain(m.key) && Printable(m.value)
    ensures PrintableMembers([m]) && Printable(Object([m]))
  {
    assert [m][1..] == [];
  }

  lemma PrintableFront(m: Member, ms: seq<Member>)
    requires Plain(m.key) && Printable(m.value) && PrintableMembers(ms)
    ensures PrintableMembers([m] + ms) && Printable(Object([m] + ms))
  {
    assert ([m] + ms)[1..] == ms;
  }

  lemma PrintableOne(j: Json)
    requires Printable(j)
    ensures Printable(Array([j]))
  {
    assert [j][1..] == [];
  }

  lemma {:induction false} PrintableMapped<T(!new)>(items: seq<T>, tree: T -> Json)
    requires forall x: T :: Printable(tree(x))
    ensures PrintableItems(Mapped(items, tree))
  {
    if items != [] {
      PrintableMapped(items[1..], tree);
    }
  }

  lemma ListsArePrintable(k: Keys, m: Metrics)
    requires PlainKeys(k)
    ensures Printable(PortsTree(k, m.tcpPorts)) && Printable(PortsTree(k, m.udpPorts))
    ensures Printable(ConnectionsTree(k, m.connections)) && Printable(TaskIdsTree(m.taskIds))
  {
    hide Plain, AddressText;
    forall p: nat ensures Printable(PortTree(k, p)) {
      PrintableMember(Member(k.port, Number(p)));
    }
    forall c: Connection ensures Printable(ConnectionTree(k, c)) {
      AddressIsPlain(c.remoteIp, c.remotePort);
      PrintableMembers2(Member(k.localPort, Number(c.localPort)),
                        Member(k.remoteAddress, Text(AddressText(c.remoteIp, c.remotePort))));
    }
    PrintableMapped(m.tcpPorts, p => PortTree(k, p));
    PrintableMapped(m.udpPorts, p => PortTree(k, p));
    PrintableMapped(m.connections, c => ConnectionTree(k, c));
    PrintableMapped(m.taskIds, t => Number(t));
  }

  lemma MetricsArePrintable(k: Keys, m: Metrics)
    requires PlainKeys(k)
    ensures Printable(MetricsTree(k, m))
  {
    ListsArePrintable(k, m);
    hide Plain, Printable, PrintableMembers, PrintableItems;
    var tcp := Totalled(k, k.ports, PortsTree(k, m.tcpPorts), |m.tcpPorts|);
    var udp := Totalled(k, k.ports, PortsTree(k, m.udpPorts), |m.udpPorts|);
    var conns := Totalled(k, k.connections, ConnectionsTree(k, m.connections), |m.connections|);
    TotalledIsPrintable(k, k.ports, PortsTree(k, m.tcpPorts), |m.tcpPorts|);
    TotalledIsPrintable(k, k.ports, PortsTree(k, m.udpPorts), |m.udpPorts|);
    TotalledIsPrintable(k, k.connections, ConnectionsTree(k, m.connections), |m.connections|);
    StatsArePrintable(k, m.stats);
    PrintableMember(Member(k.established, conns));
    var c, d := Member(k.networkStats, StatsTree(k, m.stats)), Member(k.tcpConnections, EstablishedTree(k, m));
    PrintableMembers2(c, d);
    PrintableFront(Member(k.udpPorts, udp), [c, d]);
    PrintableFront(Member(k.tcpPorts, tcp), [Member(k.udpPorts, udp)] + [c, d]);
    assert MetricsTree(k, m).members == [Member(k.tcpPorts, tcp)] + ([Member(k.udpPorts, udp)] + [c, d]);
  }

  lemma NumbersArePrintable(n: nat)
    ensures Printable(Number(n))
  {
  }

  lemma TotalledIsPrintable(k: Keys, key: string, list: Json, total: nat)
    requires Plain(key) && Plain(k.total) && Printable(list)
    ensures Printable(Totalled(k, key, list, total))
  {
    hide Plain;
    PrintableMembers2(Member(key, list), Member(k.total, Number(total)));
  }

  lemma StatsArePrintable(k: Keys, n: NetworkStats)
    requires PlainKeys(k)
    ensures Printable(StatsTree(k, n))
  {
    hide Plain;
    var a, b := Member(k.bytesIn, Number(n.bytesReceived)), Member(k.bytesOut, Number(n.bytesSent));
    var c, d := Member(k.packetsIn, Number(n.packetsReceived)), Member(k.packetsOut, Number(n.packetsSent));
    PrintableMembers2(c, d);
    PrintableFront(b, [c, d]);
    PrintableFront(a, [b] + [c, d]);
    assert StatsTree(k, n).members == [a] + ([b] + [c, d]);
  }

  lemma HeaderIsPrintable(k: Keys, s: Stamp)
    requires PlainKeys(k)
    ensures Printable(HeaderTree(k, s))
  {
    assert Plain(Decimal(s.major)) && Plain(Decimal(s.minor)) && Plain(".");
    PlainSum(Decimal(s.major), ".");
    PlainSum(Decimal(s.major) + ".", Decimal(s.minor));
    hide Plain, Decimal;
    PrintableMembers2(Member(k.id, Number(s.id)), Member(k.version, Text(Decimal(s.major) + "." + Decimal(s.minor))));
  }

  lemma CustomIsPrintable(k: Keys, m: Metrics)
    requires PlainKeys(k)
    ensures Printable(CustomTree(k, m))
  {
    ListsArePrintable(k, m);
    NumbersArePrintable(m.stackHighWaterMark);
    assert Plain("stack_high_water_mark") && Plain("task_numbers");
    hide Plain, Printable, PrintableMembers, PrintableItems;
    var water := Object([Member(k.number, Number(m.stackHighWaterMark))]);
    var tasks := Object([Member(k.numberList, TaskIdsTree(m.taskIds))]);
    PrintableMember(Member(k.number, Number(m.stackHighWaterMark)));
    PrintableMember(Member(k.numberList, TaskIdsTree(m.taskIds)));
    PrintableOne(water);
    PrintableOne(tasks);
    PrintableMembers2(Member("stack_high_water_mark", Array([water])), Member("task_numbers", Array([tasks])));
  }

  lemma ReportIsPrintable(k: Keys, m: Metrics, s: Stamp)
    requires PlainKeys(k)
    ensures Printable(ReportTree(k, m, s))
  {
    HeaderIsPrintable(k, s);
    MetricsArePrintable(k, m);
    CustomIsPrintable(k, m);
    hide Plain, Printable, PrintableMembers, HeaderTree, MetricsTree, CustomTree;
    var a, b, c :=
      Member(k.header, HeaderTree(k, s)), Member(k.metrics, MetricsTree(k, m)), Member(k.custom, CustomTree(k, m));
    PrintableMembers2(b, c);
    PrintableFront(a, [b, c]);
    assert ReportTree(k, m, s).members == [a] + [b, c];
  }

  // ----- Main results

  // The text of every report is JSON, and reading it gives back all that was reported.
  lemma ReportIsRecovered(k: Keys, m: Metrics, s: Stamp)
    requires PlainKeys(k) && Distinguishable(k) && Addressable(m)
    ensures Parse(ReportText(k, m, s)) == Parsed(ReportTree(k, m, s), "")
    ensures ReadReport(k, ReportText(k, m, s)) == Some((m, s))
  {
    hide PlainKeys, Distinguishable, Addressable, ReportText, ReportTree, Print, Parse, ReadTree;
    ReportIsPrinted(k, m, s);
    ReportIsPrintable(k, m, s);
    PrintParses(ReportTree(k, m, s));
    TreeIsRead(k, m, s);
  }

  // Where each metric is found in the text: by its own keys, and lists in their order.
  lemma ReportLookups(k: Keys, m: Metrics, s: Stamp)
    requires PlainKeys(k) && Distinguishable(k)
    ensures Parse(ReportText(k, m, s)).Parsed?
    ensures var j := Parse(ReportText(k, m, s)).value;
            && At(j, k.header).Some? && At(j, k.metrics).Some? && At(j, k.custom).Some?
            && var header, metrics, custom := At(j, k.header).value, At(j, k.metrics).value, At(j, k.custom).value;
               && NumberAt(header, k.id) == Some(s.id)
               && TextAt(header, k.version) == Some(Decimal(s.major) + "." + Decimal(s.minor))
               && MetricsAreAt(k, metrics, m) && CustomIsAt(k, custom, m)
  {
    ReportIsPrinted(k, m, s);
    ReportIsPrintable(k, m, s);
    hide PlainKeys, Distinguishable, ReportText, ReportTree, Print, Parse, MetricsAreAt, CustomIsAt, At, NumberAt,
         TextAt, Decimal;
    PrintParses(ReportTree(k, m, s));
    TreeLookups(k, m, s);
  }

  lemma TreeLookups(k: Keys, m: Metrics, s: Stamp)
    requires Distinguishable(k)
    ensures var j := ReportTree(k, m, s);
            && At(j, k.header).Some? && At(j, k.metrics).Some? && At(j, k.custom).Some?
            && var header, metrics, custom := At(j, k.header).value, At(j, k.metrics).value, At(j, k.custom).value;
               && NumberAt(header, k.id) == Some(s.id)
               && TextAt(header, k.version) == Some(Decimal(s.major) + "." + Decimal(s.minor))
               && MetricsAreAt(k, metrics, m) && CustomIsAt(k, custom, m)
  {
    hide MetricsAreAt, CustomIsAt, Find, MetricsTree, CustomTree, Decimal;
    Find3(Member(k.header, HeaderTree(k, s)), Member(k.metrics, MetricsTree(k, m)), Member(k.custom, CustomTree(k, m)));
    Find2(Member(k.id, Number(s.id)), Member(k.version, Text(Decimal(s.major) + "." + Decimal(s.minor))));
    MetricsFound(k, m);
    CustomFound(k, m);
  }

  // A list of ports and its length.
  predicate PortsAreAt(k: Keys, j: Json, ports: seq<nat>) {
    && NumberAt(j, k.total) == Some(|ports|)
    && ItemsAt(j, k.ports).Some? && |ItemsAt(j, k.ports).value| == |ports|
    && forall i :: 0 <= i < |ports| ==> NumberAt(ItemsAt(j, k.ports).value[i], k.port) == Some(ports[i])
  }

  predicate ConnectionsAreAt(k: Keys, j: Json, cs: seq<Connection>) {
    && NumberAt(j, k.total) == Some(|cs|)
    && ItemsAt(j, k.connections).Some? && |ItemsAt(j, k.connections).value| == |cs|
    && forall i :: 0 <= i < |cs| ==>
         var item := ItemsAt(j, k.connections).value[i];
         && NumberAt(item, k.localPort) == Some(cs[i].localPort)
         && TextAt(item, k.remoteAddress) == Some(AddressText(cs[i].remoteIp, cs[i].remotePort))
  }

  predicate MetricsAreAt(k: Keys, j: Json, m: Metrics) {
    && At(j, k.tcpPorts).Some? && PortsAreAt(k, At(j, k.tcpPorts).value, m.tcpPorts)
    && At(j, k.udpPorts).Some? && PortsAreAt(k, At(j, k.udpPorts).value, m.udpPorts)
    && At(j, k.networkStats).Some?
    && NumberAt(At(j, k.networkStats).value, k.bytesIn) == Some(m.stats.bytesReceived)
    && NumberAt(At(j, k.networkStats).value, k.bytesOut) == Some(m.stats.bytesSent)
    && NumberAt(At(j, k.networkStats).value, k.packetsIn) == Some(m.stats.packetsReceived)
    && NumberAt(At(j, k.networkStats).value, k.packetsOut) == Some(m.stats.packetsSent)
    && At(j, k.tcpConnections).Some? && At(At(j, k.tcpConnections).value, k.established).Some?
    && ConnectionsAreAt(k, At(At(j, k.tcpConnections).value, k.established).value, m.connections)
  }

  predicate CustomIsAt(k: Keys, j: Json, m: Metrics) {
    && OnlyAt(j, "stack_high_water_mark").Some? && OnlyAt(j, "task_numbers").Some?
    && NumberAt(OnlyAt(j, "stack_high_water_mark").value, k.number) == Some(m.stackHighWaterMark)
    && var ids := ItemsAt(OnlyAt(j, "task_numbers").value, k.numberList);
       && ids.Some? && |ids.value| == |m.taskIds|
       && forall i :: 0 <= i < |m.taskIds| ==> ids.value[i] == Number(m.taskIds[i])
  }

  lemma PortsFound(k: Keys, ports: seq<nat>)
    requires k.ports != k.total
    ensures PortsAreAt(k, Totalled(k, k.ports, PortsTree(k, ports), |ports|), ports)
  {
    Find2(Member(k.ports, PortsTree(k, ports)), Member(k.total, Number(|ports|)));
    forall i | 0 <= i < |ports|
      ensures NumberAt(PortTree(k, ports[i]), k.port) == Some(ports[i])
    {
    }
    hide Find, Mapped, PortTree;
  }

  lemma ConnectionsFound(k: Keys, cs: seq<Connection>)
    requires k.connections != k.total && k.localPort != k.remoteAddress
    ensures ConnectionsAreAt(k, Totalled(k, k.connections, ConnectionsTree(k, cs), |cs|), cs)
  {
    Find2(Member(k.connections, ConnectionsTree(k, cs)), Member(k.total, Number(|cs|)));
    forall i | 0 <= i < |cs|
      ensures var item := ConnectionTree(k, cs[i]);
              && NumberAt(item, k.localPort) == Some(cs[i].localPort)
              && TextAt(item, k.remoteAddress) == Some(AddressText(cs[i].remoteIp, cs[i].remotePort))
    {
      Find2(Member(k.localPort, Number(cs[i].localPort)),
            Member(k.remoteAddress, Text(AddressText(cs[i].remoteIp, cs[i].remotePort))));
    }
    hide Find, Mapped, ConnectionTree, AddressText;
  }

  lemma MetricsFound(k: Keys, m: Metrics)
    requires Distinguishable(k)
    ensures MetricsAreAt(k, MetricsTree(k, m), m)
  {
    Find4(Member(k.tcpPorts, Totalled(k, k.ports, PortsTree(k, m.tcpPorts), |m.tcpPorts|)),
          Member(k.udpPorts, Totalled(k, k.ports, PortsTree(k, m.udpPorts), |m.udpPorts|)),
          Member(k.networkStats, StatsTree(k, m.stats)),
          Member(k.tcpConnections, EstablishedTree(k, m)));
    Find4(Member(k.bytesIn, Number(m.stats.bytesReceived)), Member(k.bytesOut, Number(m.stats.bytesSent)),
          Member(k.packetsIn, Number(m.stats.packetsReceived)), Member(k.packetsOut, Number(m.stats.packetsSent)));
    assert At(EstablishedTree(k, m), k.established) ==
           Some(Totalled(k, k.connections, ConnectionsTree(k, m.connections), |m.connections|));
    hide Find, PortsAreAt, ConnectionsAreAt, Totalled, EstablishedTree, PortsTree, ConnectionsTree;
    PortsFound(k, m.tcpPorts);
    PortsFound(k, m.udpPorts);
    ConnectionsFound(k, m.connections);
  }

  lemma CustomFound(k: Keys, m: Metrics)
    ensures CustomIsAt(k, CustomTree(k, m), m)
  {
    assert "stack_high_water_mark"[0] != "task_numbers"[0];
    Find2(Member("stack_high_water_mark", Array([Object([Member(k.number, Number(m.stackHighWaterMark))])])),
          Member("task_numbers", Array([Object([Member(k.numberList, TaskIdsTree(m.taskIds))])])));
    hide Mapped;
  }

  // Different metrics never have the same report.
  lemma ReportsDiffer(k: Keys, m: Metrics, s: Stamp, n: Metrics, t: Stamp)
    requires PlainKeys(k) && Distinguishable(k) && Addressable(m) && Addressable(n)
    ensures ReportText(k, m, s) == ReportText(k, n, t) ==> m == n && s == t
  {
    hide PlainKeys, Distinguishable, Addressable, ReportText, ReadReport;
    ReportIsRecovered(k, m, s);
    ReportIsRecovered(k, n, t);
  }
}
