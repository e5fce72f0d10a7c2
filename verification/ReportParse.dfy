/**
 Reading a device report back: the text of a report is the printed form of a JSON tree, so
 it is valid JSON and a reader that looks up the keys recovers every metric.
 */
module ReportParses {
  import opened JsonTexts
  import opened ReportBuilders

  // ----- The tree of a report

  function PortTree(k: Keys, port: nat): Json {
    Object([Member(k.port, Number(port))])
  }

  function ConnectionTree(k: Keys, c: Connection): Json {
    Object([Member(k.localPort, Number(c.localPort)),
            Member(k.remoteAddress, Text(AddressText(c.remoteIp, c.remotePort)))])
  }

  function PortsTree(k: Keys, ports: seq<nat>): Json {
    Array(Mapped(ports, p => PortTree(k, p)))
  }

  function ConnectionsTree(k: Keys, connections: seq<Connection>): Json {
    Array(Mapped(connections, c => ConnectionTree(k, c)))
  }

  function TaskIdsTree(taskIds: seq<nat>): Json {
    Array(Mapped(taskIds, t => Number(t)))
  }

  function HeaderTree(k: Keys, s: Stamp): Json {
    Object([Member(k.id, Number(s.id)), Member(k.version, Text(Decimal(s.major) + "." + Decimal(s.minor)))])
  }

  // A list and its length.
  function Totalled(k: Keys, key: string, list: Json, total: nat): Json {
    Object([Member(key, list), Member(k.total, Number(total))])
  }

  function StatsTree(k: Keys, n: NetworkStats): Json {
    Object([Member(k.bytesIn, Number(n.bytesReceived)), Member(k.bytesOut, Number(n.bytesSent)),
            Member(k.packetsIn, Number(n.packetsReceived)), Member(k.packetsOut, Number(n.packetsSent))])
  }

  function EstablishedTree(k: Keys, m: Metrics): Json {
    Object([Member(k.established, Totalled(k, k.connections, ConnectionsTree(k, m.connections), |m.connections|))])
  }

  function MetricsTree(k: Keys, m: Metrics): Json {
    Object([
      Member(k.tcpPorts, Totalled(k, k.ports, PortsTree(k, m.tcpPorts), |m.tcpPorts|)),
      Member(k.udpPorts, Totalled(k, k.ports, PortsTree(k, m.udpPorts), |m.udpPorts|)),
      Member(k.networkStats, StatsTree(k, m.stats)),
      Member(k.tcpConnections, EstablishedTree(k, m))])
  }

  function CustomTree(k: Keys, m: Metrics): Json {
    Object([
      Member("stack_high_water_mark", Array([Object([Member(k.number, Number(m.stackHighWaterMark))])])),
      Member("task_numbers", Array([Object([Member(k.numberList, TaskIdsTree(m.taskIds))])]))])
  }

  function ReportTree(k: Keys, m: Metrics, s: Stamp): Json {
    Object([Member(k.header, HeaderTree(k, s)), Member(k.metrics, MetricsTree(k, m)),
            Member(k.custom, CustomTree(k, m))])
  }

  // ----- Printing objects of known size

  lemma Print1(m: Member, rest: string)
    ensures PrintTo(Object([m]), rest) == "{" + (Key(m.key) + PrintTo(m.value, "}" + rest))
  {
  }

  lemma Members2(m: Member, n: Member, rest: string)
    ensures MembersTo([m, n], rest) == Key(m.key) + PrintTo(m.value, "," + (Key(n.key) + PrintTo(n.value, rest)))
  {
    hide PrintTo, Key;
    assert [m, n][1..] == [n];
    assert MembersTo([n], rest) == Key(n.key) + PrintTo(n.value, rest);
  }

  lemma Print2(m: Member, n: Member, rest: string)
    ensures PrintTo(Object([m, n]), rest) ==
            "{" + (Key(m.key) + PrintTo(m.value, "," + (Key(n.key) + PrintTo(n.value, "}" + rest))))
  {
    hide MembersTo, Key;
    Members2(m, n, "}" + rest);
  }

  lemma Print3(l: Member, m: Member, n: Member, rest: string)
    ensures PrintTo(Object([l, m, n]), rest) ==
            "{" + (Key(l.key) + PrintTo(l.value, "," + (Key(m.key) + PrintTo(m.value,
            "," + (Key(n.key) + PrintTo(n.value, "}" + rest))))))
  {
    hide Key;
    assert [l, m, n][1..] == [m, n];
    Members2(m, n, "}" + rest);
  }

  lemma Print4(k: Member, l: Member, m: Member, n: Member, rest: string)
    ensures PrintTo(Object([k, l, m, n]), rest) ==
            "{" + (Key(k.key) + PrintTo(k.value, "," + (Key(l.key) + PrintTo(l.value,
            "," + (Key(m.key) + PrintTo(m.value, "," + (Key(n.key) + PrintTo(n.value, "}" + rest))))))))
  {
    hide Key;
    assert [k, l, m, n][1..] == [l, m, n] && [l, m, n][1..] == [m, n];
    Members2(m, n, "}" + rest);
    assert MembersTo([l, m, n], "}" + rest) == Key(l.key) + PrintTo(l.value, "," + MembersTo([m, n], "}" + rest));
  }

  lemma PrintArray1(j: Json, rest: string)
    ensures PrintTo(Array([j]), rest) == "[" + PrintTo(j, "]" + rest)
  {
  }

  lemma PrintNumber(n: nat, rest: string)
    ensures PrintTo(Number(n), rest) == Decimal(n) + rest
  {
  }

  lemma PrintString(s: string, rest: string)
    ensures PrintTo(Text(s), rest) == Quoted(s) + rest
  {
  }

  // ----- The arrays

  lemma {:induction false} JoinedIsPrinted<T(!new)>(items: seq<T>, format: T -> string, tree: T -> Json, rest: string)
    requires forall x: T, r: string :: format(x) + r == PrintTo(tree(x), r)
    ensures Joined(Mapped(items, format)) + rest == ElementsTo(Mapped(items, tree), rest)
  {
    var texts, js := Mapped(items, format), Mapped(items, tree);
    if items == [] {
      assert "" + rest == rest;
    } else {
      var more := Joined(texts[1..]);
      JoinedIsPrinted(items[1..], format, tree, rest);
      if |items| == 1 {
        assert format(items[0]) + rest == PrintTo(js[0], rest);
      } else {
        assert texts[0] + "," + more + rest == texts[0] + ("," + (more + rest));
        assert format(items[0]) + ("," + (more + rest)) == PrintTo(js[0], "," + (more + rest));
      }
    }
  }

  lemma ArrayIsPrinted<T(!new)>(items: seq<T>, format: T -> string, tree: T -> Json, rest: string)
    requires forall x: T, r: string :: format(x) + r == PrintTo(tree(x), r)
    ensures ArrayText(Mapped(items, format)) + rest == PrintTo(Array(Mapped(items, tree)), rest)
  {
    JoinedIsPrinted(items, format, tree, "]" + rest);
    var all := Joined(Mapped(items, format));
    assert "[" + all + "]" + rest == "[" + (all + ("]" + rest));
  }

  lemma PortIsPrinted(k: Keys, port: nat, rest: string)
    ensures PortText(k, port) + rest == PrintTo(PortTree(k, port), rest)
  {
    hide PrintTo, Key, Decimal;
    Print1(Member(k.port, Number(port)), rest);
    PrintNumber(port, "}" + rest);
    assert PortText(k, port) + rest == "{" + (Key(k.port) + (Decimal(port) + ("}" + rest)));
  }

  lemma ConnectionIsPrinted(k: Keys, c: Connection, rest: string)
    ensures ConnectionText(k, c) + rest == PrintTo(ConnectionTree(k, c), rest)
  {
    hide PrintTo, Key, Decimal, AddressText, Quoted;
    var address := AddressText(c.remoteIp, c.remotePort);
    Print2(Member(k.localPort, Number(c.localPort)), Member(k.remoteAddress, Text(address)), rest);
    PrintString(address, "}" + rest);
    var tail := "," + (Key(k.remoteAddress) + (Quoted(address) + ("}" + rest)));
    PrintNumber(c.localPort, tail);
    assert ConnectionText(k, c) + rest == "{" + (Key(k.localPort) + (Decimal(c.localPort) + tail));
  }

  lemma PortsArePrinted(k: Keys, ports: seq<nat>, rest: string)
    ensures PortsText(k, ports) + rest == PrintTo(PortsTree(k, ports), rest)
  {
    hide PrintTo, PortText, PortTree;
    forall x: nat, r: string ensures PortText(k, x) + r == PrintTo(PortTree(k, x), r) {
      PortIsPrinted(k, x, r);
    }
    ArrayIsPrinted(ports, p => PortText(k, p), p => PortTree(k, p), rest);
  }

  lemma ConnectionsArePrinted(k: Keys, connections: seq<Connection>, rest: string)
    ensures ConnectionsText(k, connections) + rest == PrintTo(ConnectionsTree(k, connections), rest)
  {
    hide PrintTo, ConnectionText, ConnectionTree;
    forall c: Connection, r: string ensures ConnectionText(k, c) + r == PrintTo(ConnectionTree(k, c), r) {
      ConnectionIsPrinted(k, c, r);
    }
    ArrayIsPrinted(connections, c => ConnectionText(k, c), c => ConnectionTree(k, c), rest);
  }

  lemma TaskIdsArePrinted(taskIds: seq<nat>, rest: string)
    ensures TaskIdsText(taskIds) + rest == PrintTo(TaskIdsTree(taskIds), rest)
  {
    hide Decimal;
    ArrayIsPrinted(taskIds, Decimal, t => Number(t), rest);
  }

  // ----- The parts, each followed by the rest of the tree

  lemma Part4IsPrinted(k: Keys, m: Metrics)
    ensures Part4(k, m) + (TaskIdsText(m.taskIds) + PART5) ==
            "," + (Key(k.total) + (Decimal(|m.connections|) + ("}" + ("}" + ("}" +
            ("," + (Key(k.custom) + PrintTo(CustomTree(k, m), "}"))))))))
  {
    hide PrintTo, Key, Decimal, TaskIdsText, TaskIdsTree;
    var list := TaskIdsText(m.taskIds) + PART5;
    var water := Member("stack_high_water_mark", Array([Object([Member(k.number, Number(m.stackHighWaterMark))])]));
    var tasks := Member("task_numbers", Array([Object([Member(k.numberList, TaskIdsTree(m.taskIds))])]));
    Print2(water, tasks, "}");
    TaskIdsArePrinted(m.taskIds, PART5);
    assert PART5 == "}" + ("]" + ("}" + "}"));
    Print1(Member(k.numberList, TaskIdsTree(m.taskIds)), "]" + ("}" + "}"));
    PrintArray1(Object([Member(k.numberList, TaskIdsTree(m.taskIds))]), "}" + "}");
    var afterTasks := "[" + ("{" + (Key(k.numberList) + list));
    var tail := "," + (Key("task_numbers") + afterTasks);
    PrintArray1(Object([Member(k.number, Number(m.stackHighWaterMark))]), tail);
    Print1(Member(k.number, Number(m.stackHighWaterMark)), "]" + tail);
    PrintNumber(m.stackHighWaterMark, "}" + ("]" + tail));
    Part4Nested(k, m, list);
  }

  lemma Nest5(a: string, b: string, c: string, d: string, e: string, r: string)
    ensures a + b + c + d + e + r == a + (b + (c + (d + (e + r))))
  {
  }

  lemma Nest8(a: string, b: string, c: string, d: string, e: string, f: string, g: string, h: string, r: string)
    ensures a + b + c + d + e + f + g + h + r == a + (b + (c + (d + (e + (f + (g + (h + r)))))))
  {
  }

  lemma Part4Nested(k: Keys, m: Metrics, list: string)
    ensures Part4(k, m) + list ==
            "," + (Key(k.total) + (Decimal(|m.connections|) + ("}" + ("}" + ("}" + ("," + (Key(k.custom) +
            ("{" + (Key("stack_high_water_mark") + ("[" + ("{" + (Key(k.number) +
            (Decimal(m.stackHighWaterMark) + ("}" + ("]" +
            ("," + (Key("task_numbers") + ("[" + ("{" + (Key(k.numberList) + list))))))))))))))))))))
  {
    hide Key, Decimal;
    var total, custom := Key(k.total), Key(k.custom);
    var count := Decimal(|m.connections|);
    var front := "," + total + count + "}}}," + custom;
    var number, mark, numbers := Key(k.number), Decimal(m.stackHighWaterMark), Key(k.numberList);
    Nest8(front, "{", STACK_OPEN, number, mark, "}],", TASKS_OPEN, numbers, list);
    var back := "{" + (STACK_OPEN + (number + (mark + ("}]," + (TASKS_OPEN + (numbers + list))))));
    Nest5(",", total, count, "}}},", custom, back);
    Close3(custom + back);
    CustomNested(number, mark, numbers + list);
  }

  const STACK_OPEN := "\"stack_high_water_mark\": [{"
  const TASKS_OPEN := "\"task_numbers\": [{"

  lemma CustomNested(number: string, mark: string, r: string)
    ensures "{" + (STACK_OPEN + (number + (mark + ("}]," + (TASKS_OPEN + r))))) ==
            "{" + (Key("stack_high_water_mark") + ("[" + ("{" + (number + (mark + ("}" + ("]" +
            ("," + (Key("task_numbers") + ("[" + ("{" + r)))))))))))
  {
    assert STACK_OPEN == Key("stack_high_water_mark") + ("[" + "{");
    assert TASKS_OPEN == Key("task_numbers") + ("[" + "{");
    OpenArray(Key("task_numbers"), r);
    Close2(TASKS_OPEN + r);
    OpenArray(Key("stack_high_water_mark"), number + (mark + ("}]," + (TASKS_OPEN + r))));
  }

  lemma OpenArray(key: string, r: string)
    ensures key + ("[" + "{") + r == key + ("[" + ("{" + r))
  {
  }

  lemma Close2(r: string)
    ensures "}]," + r == "}" + ("]" + ("," + r))
  {
  }

  lemma Close3(r: string)
    ensures "}}}," + r == "}" + ("}" + ("}" + ("," + r)))
  {
  }

  lemma TotalledIsPrinted(k: Keys, key: string, list: Json, total: nat, rest: string)
    ensures PrintTo(Totalled(k, key, list, total), rest) ==
            "{" + (Key(key) + PrintTo(list, "," + (Key(k.total) + (Decimal(total) + ("}" + rest)))))
  {
    hide PrintTo, Key, Decimal;
    Print2(Member(key, list), Member(k.total, Number(total)), rest);
    PrintNumber(total, "}" + rest);
  }

  // What follows the metrics.
  function AfterMetrics(k: Keys, m: Metrics): string {
    "," + (Key(k.custom) + PrintTo(CustomTree(k, m), "}"))
  }

  lemma EstablishedIsPrinted(k: Keys, m: Metrics)
    ensures PrintTo(EstablishedTree(k, m), "}" + AfterMetrics(k, m)) ==
            "{" + (Key(k.established) + ("{" + (Key(k.connections) +
            (ConnectionsText(k, m.connections) + (Part4(k, m) + (TaskIdsText(m.taskIds) + PART5))))))
  {
    hide PrintTo, Key, Decimal, AfterMetrics, Part4, ConnectionsText, ConnectionsTree, TaskIdsText, Totalled;
    var after := AfterMetrics(k, m);
    var list := ConnectionsTree(k, m.connections);
    var last := Part4(k, m) + (TaskIdsText(m.taskIds) + PART5);
    Print1(Member(k.established, Totalled(k, k.connections, list, |m.connections|)), "}" + after);
    TotalledIsPrinted(k, k.connections, list, |m.connections|, "}" + ("}" + after));
    Part4IsPrinted(k, m);
    AfterMetricsIs(k, m);
    assert last == "," + (Key(k.total) + (Decimal(|m.connections|) + ("}" + ("}" + ("}" + after)))));
    ConnectionsArePrinted(k, m.connections, last);
  }

  lemma AfterMetricsIs(k: Keys, m: Metrics)
    ensures AfterMetrics(k, m) == "," + (Key(k.custom) + PrintTo(CustomTree(k, m), "}"))
  {
  }

  lemma Nest4(a: string, b: string, c: string, d: string, r: string)
    ensures a + b + c + d + r == a + (b + (c + (d + r)))
  {
  }

  lemma CloseComma(r: string)
    ensures "}," + r == "}" + ("," + r)
  {
  }

  lemma StatsArePrinted(k: Keys, n: NetworkStats, rest: string)
    ensures PrintTo(StatsTree(k, n), rest) ==
            "{" + (Key(k.bytesIn) + (Decimal(n.bytesReceived) + ("," + (Key(k.bytesOut) + (Decimal(n.bytesSent) +
            ("," + (Key(k.packetsIn) + (Decimal(n.packetsReceived) + ("," +
            (Key(k.packetsOut) + (Decimal(n.packetsSent) +
            ("}" + rest))))))))))))
  {
    hide PrintTo, Key, Decimal;
    Print4(Member(k.bytesIn, Number(n.bytesReceived)), Member(k.bytesOut, Number(n.bytesSent)),
           Member(k.packetsIn, Number(n.packetsReceived)), Member(k.packetsOut, Number(n.packetsSent)), rest);
    var t3 := "}" + rest;
    PrintNumber(n.packetsSent, t3);
    var t2 := "," + (Key(k.packetsOut) + (Decimal(n.packetsSent) + t3));
    PrintNumber(n.packetsReceived, t2);
    var t1 := "," + (Key(k.packetsIn) + (Decimal(n.packetsReceived) + t2));
    PrintNumber(n.bytesSent, t1);
    PrintNumber(n.bytesReceived, "," + (Key(k.bytesOut) + (Decimal(n.bytesSent) + t1)));
  }

  // The statistics within part 3.
  function StatsText(k: Keys, n: NetworkStats): string {
    Key(k.bytesIn) + Decimal(n.bytesReceived) + "," + Key(k.bytesOut) + Decimal(n.bytesSent) + "," +
    Key(k.packetsIn) + Decimal(n.packetsReceived) + "," + Key(k.packetsOut) + Decimal(n.packetsSent)
  }

  lemma StatsNested(k: Keys, n: NetworkStats, rest: string)
    ensures StatsText(k, n) + rest ==
            Key(k.bytesIn) + (Decimal(n.bytesReceived) + ("," + (Key(k.bytesOut) + (Decimal(n.bytesSent) +
            ("," + (Key(k.packetsIn) + (Decimal(n.packetsReceived) +
            ("," + (Key(k.packetsOut) + (Decimal(n.packetsSent) + rest))))))))))
  {
    hide Key, Decimal;
    var a, b := Key(k.packetsIn), Decimal(n.packetsReceived);
    var first := Key(k.bytesIn) + Decimal(n.bytesReceived) + "," + Key(k.bytesOut) + Decimal(n.bytesSent);
    Nest8(first, ",", a, b, ",", Key(k.packetsOut), Decimal(n.packetsSent), "", rest);
    Nest5(Key(k.bytesIn), Decimal(n.bytesReceived), ",", Key(k.bytesOut), Decimal(n.bytesSent),
          "," + (a + (b + ("," + (Key(k.packetsOut) + (Decimal(n.packetsSent) + rest))))));
    assert "" + rest == rest;
    assert StatsText(k, n) + "" == StatsText(k, n);
  }

  lemma Part3IsSplit(k: Keys, m: Metrics)
    ensures Part3(k, m) ==
            ("," + Key(k.total) + Decimal(|m.udpPorts|) + "}," + Key(k.networkStats)) +
            ("{" + StatsText(k, m.stats) + "}," + Key(k.tcpConnections)) +
            ("{" + Key(k.established) + "{" + Key(k.connections))
  {
    hide Key, Decimal;
  }

  lemma Part3IsPrinted(k: Keys, m: Metrics, list: string)
    ensures Part3(k, m) + list ==
            "," + (Key(k.total) + (Decimal(|m.udpPorts|) + ("}" + ("," + (Key(k.networkStats) +
            PrintTo(StatsTree(k, m.stats), "," + (Key(k.tcpConnections) +
            ("{" + (Key(k.established) + ("{" + (Key(k.connections) + list)))))))))))
  {
    Part3IsSplit(k, m);
    hide Part3, Key, Decimal, PrintTo, StatsText, StatsTree;
    var total, count, stats := Key(k.total), Decimal(|m.udpPorts|), Key(k.networkStats);
    var x := "," + total + count + "}," + stats;
    var y := "{" + StatsText(k, m.stats) + "}," + Key(k.tcpConnections);
    var z := "{" + Key(k.established) + "{" + Key(k.connections);
    assert x + y + z + list == x + (y + (z + list));
    Nest4("{", Key(k.established), "{", Key(k.connections), list);
    Nest4("{", StatsText(k, m.stats), "},", Key(k.tcpConnections), z + list);
    CloseComma(Key(k.tcpConnections) + (z + list));
    var after := "," + (Key(k.tcpConnections) + (z + list));
    StatsNested(k, m.stats, "}" + after);
    StatsArePrinted(k, m.stats, after);
    Nest5(",", total, count, "},", stats, y + (z + list));
    CloseComma(stats + (y + (z + list)));
  }

  lemma Part2IsPrinted(k: Keys, m: Metrics, list: string)
    ensures Part2(k, m) + list ==
            "," + (Key(k.total) +
                   (Decimal(|m.tcpPorts|) + ("}" + ("," + (Key(k.udpPorts) + ("{" + (Key(k.ports) + list)))))))
  {
    hide Key, Decimal;
    var total, count := Key(k.total), Decimal(|m.tcpPorts|);
    Nest8(",", total, count, "},", Key(k.udpPorts), "{", Key(k.ports), "", list);
    assert Part2(k, m) + "" == Part2(k, m) && "" + list == list;
    CloseComma(Key(k.udpPorts) + ("{" + (Key(k.ports) + list)));
  }

  lemma HeaderIsPrinted(k: Keys, s: Stamp, rest: string)
    ensures PrintTo(HeaderTree(k, s), rest) ==
            "{" + (Key(k.id) + (Decimal(s.id) + ("," + (Key(k.version) +
            (Quoted(Decimal(s.major) + "." + Decimal(s.minor)) + ("}" + rest))))))
  {
    hide PrintTo, Key, Decimal, Quoted;
    var version := Decimal(s.major) + "." + Decimal(s.minor);
    Print2(Member(k.id, Number(s.id)), Member(k.version, Text(version)), rest);
    PrintString(version, "}" + rest);
    PrintNumber(s.id, "," + (Key(k.version) + (Quoted(version) + ("}" + rest))));
  }

  lemma Part1IsPrinted(k: Keys, s: Stamp, list: string)
    ensures Part1(k, s) + list ==
            "{" + (Key(k.header) + PrintTo(HeaderTree(k, s), "," + (Key(k.metrics) +
            ("{" + (Key(k.tcpPorts) + ("{" + (Key(k.ports) + list)))))))
  {
    hide Key, Decimal, Quoted, PrintTo, HeaderTree;
    var header, id, version, metrics := Key(k.header), Key(k.id), Key(k.version), Key(k.metrics);
    var number, text := Decimal(s.id), Quoted(Decimal(s.major) + "." + Decimal(s.minor));
    var first := "{" + header + "{" + id + number + "," + version + text;
    var last := "{" + (Key(k.tcpPorts) + ("{" + (Key(k.ports) + list)));
    Nest8(first, "},", metrics, "{", Key(k.tcpPorts), "{", Key(k.ports), "", list);
    assert "" + list == list && Part1(k, s) + "" == Part1(k, s);
    Nest8("{", header, "{", id, number, ",", version, text, "}," + (metrics + last));
    CloseComma(metrics + last);
    HeaderIsPrinted(k, s, "," + (metrics + last));
  }

  lemma MetricsArePrinted(k: Keys, m: Metrics)
    ensures PrintTo(MetricsTree(k, m), AfterMetrics(k, m)) ==
            "{" + (Key(k.tcpPorts) + ("{" + (Key(k.ports) +
            (PortsText(k, m.tcpPorts) + (Part2(k, m) + (PortsText(k, m.udpPorts) +
            (Part3(k, m) + (ConnectionsText(k, m.connections) + (Part4(k, m) + (TaskIdsText(m.taskIds) + PART5))))))))))
  {
    hide PrintTo, Key, Decimal, AfterMetrics, Part2, Part3, Part4, PortsText, PortsTree, ConnectionsText, TaskIdsText,
         StatsTree, EstablishedTree, Totalled;
    var r3 := ConnectionsText(k, m.connections) + (Part4(k, m) + (TaskIdsText(m.taskIds) + PART5));
    var r2 := Part3(k, m) + r3;
    var r1 := Part2(k, m) + (PortsText(k, m.udpPorts) + r2);
    var tcp, udp := PortsTree(k, m.tcpPorts), PortsTree(k, m.udpPorts);
    Print4(Member(k.tcpPorts, Totalled(k, k.ports, tcp, |m.tcpPorts|)),
           Member(k.udpPorts, Totalled(k, k.ports, udp, |m.udpPorts|)),
           Member(k.networkStats, StatsTree(k, m.stats)),
           Member(k.tcpConnections, EstablishedTree(k, m)), AfterMetrics(k, m));
    EstablishedIsPrinted(k, m);
    Part3IsPrinted(k, m, r3);
    var t3 := "," + (Key(k.networkStats) + PrintTo(StatsTree(k, m.stats),
              "," + (Key(k.tcpConnections) + PrintTo(EstablishedTree(k, m), "}" + AfterMetrics(k, m)))));
    assert r2 == "," + (Key(k.total) + (Decimal(|m.udpPorts|) + ("}" + t3)));
    TotalledIsPrinted(k, k.ports, udp, |m.udpPorts|, t3);
    PortsArePrinted(k, m.udpPorts, r2);
    var t2 := "," + (Key(k.udpPorts) + PrintTo(Totalled(k, k.ports, udp, |m.udpPorts|), t3));
    Part2IsPrinted(k, m, PortsText(k, m.udpPorts) + r2);
    assert r1 == "," + (Key(k.total) + (Decimal(|m.tcpPorts|) + ("}" + t2)));
    TotalledIsPrinted(k, k.ports, tcp, |m.tcpPorts|, t2);
    PortsArePrinted(k, m.tcpPorts, r1);
  }

  // The text of a report is the printed form of its tree.
  lemma ReportIsPrinted(k: Keys, m: Metrics, s: Stamp)
    ensures ReportText(k, m, s) == Print(ReportTree(k, m, s))
  {
    hide PrintTo, Key, Decimal, Part1, Part2, Part3, Part4, PortsText, ConnectionsText, TaskIdsText,
         HeaderTree, MetricsTree, CustomTree;
    Print3(Member(k.header, HeaderTree(k, s)), Member(k.metrics, MetricsTree(k, m)),
           Member(k.custom, CustomTree(k, m)), "");
    assert "}" + "" == "}";
    MetricsArePrinted(k, m);
    var list := PortsText(k, m.tcpPorts) + (Part2(k, m) + (PortsText(k, m.udpPorts) +
                (Part3(k, m) +
                 (ConnectionsText(k, m.connections) + (Part4(k, m) + (TaskIdsText(m.taskIds) + PART5))))));
    Part1IsPrinted(k, s, list);
  }
}
