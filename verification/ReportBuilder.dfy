/**
 The device report writer (source/defender-tools/report_builder.c). It prints the metrics
 into a caller's buffer of fixed length, and reports exactly when they do not fit.
 */
module ReportBuilders {
  import opened JsonTexts

  const NUL: char := '\0'

  datatype Status = Success | BufferTooSmall | BadParameter

  datatype Connection = Connection(localPort: nat, remoteIp: nat, remotePort: nat)

  datatype NetworkStats =
    NetworkStats(bytesReceived: nat, bytesSent: nat, packetsReceived: nat, packetsSent: nat)

  datatype Metrics = Metrics(
    tcpPorts: seq<nat>,
    udpPorts: seq<nat>,
    stats: NetworkStats,
    connections: seq<Connection>,
    stackHighWaterMark: nat,
    taskIds: seq<nat>)

  // The report's version and number.
  datatype Stamp = Stamp(major: nat, minor: nat, id: nat)

  // The key constants of the device defender library, defined outside this repository.
  datatype Keys = Keys(
    header: string, id: string, version: string, metrics: string,
    tcpPorts: string, udpPorts: string, ports: string, port: string, total: string,
    networkStats: string, bytesIn: string, bytesOut: string, packetsIn: string, packetsOut: string,
    tcpConnections: string, established: string, connections: string, localPort: string, remoteAddress: string,
    custom: string, number: string, numberList: string)

  // ----- snprintf and its check

  // Writes as much of the text as fits and a terminating NUL; the result is the length of the whole text.
  method Snprintf(buf: array<char>, pos: nat, size: nat, text: string) returns (n: int)
    requires pos + size <= buf.Length
    modifies buf
    ensures n == |text|
    ensures buf[..pos] == old(buf[..pos]) && buf[pos + size..] == old(buf[pos + size..])
    ensures |text| < size ==> buf[pos..pos + |text|] == text && buf[pos + |text|] == NUL
    ensures 0 < size <= |text| ==> buf[pos..pos + size - 1] == text[..size - 1] && buf[pos + size - 1] == NUL
  {
    n := |text|;
    if size == 0 {
      return;
    }
    var count := if |text| < size then |text| else size - 1;
    for i := 0 to count
      invariant buf[..pos] == old(buf[..pos]) && buf[pos + size..] == old(buf[pos + size..])
      invariant buf[pos..pos + i] == text[..i]
    {
      buf[pos + i] := text[i];
      assert buf[pos..pos + i + 1] == buf[pos..pos + i] + [text[i]];
    }
    assert text[..count] == if |text| < size then text else text[..size - 1];
    buf[pos + count] := NUL;
  }

  predicate SnprintfSuccess(n: int, length: nat) {
    n > 0 && n < length
  }

  // ----- Arrays

  function Joined(texts: seq<string>): string {
    if texts == [] then "" else if |texts| == 1 then texts[0] else texts[0] + "," + Joined(texts[1..])
  }

  function ArrayText(texts: seq<string>): string {
    "[" + Joined(texts) + "]"
  }

  // Every text followed by a comma, as the loop leaves them.
  function Terminated(texts: seq<string>): string {
    if texts == [] then "" else Terminated(texts[..|texts| - 1]) + (texts[|texts| - 1] + ",")
  }

  lemma {:induction false} TerminatedFront(texts: seq<string>)
    requires texts != []
    ensures Terminated(texts) == texts[0] + "," + Terminated(texts[1..])
  {
    var n := |texts|;
    if n > 1 {
      TerminatedFront(texts[..n - 1]);
      assert texts[..n - 1][1..] == texts[1..][..n - 2];
    } else {
      assert Terminated(texts[..0]) == "" && Terminated(texts[1..]) == "";
    }
  }

  // Only the last comma is one too many.
  lemma {:induction false} TerminatedIsJoined(texts: seq<string>)
    requires texts != []
    ensures Terminated(texts) == Joined(texts) + ","
  {
    TerminatedFront(texts);
    if |texts| > 1 {
      TerminatedIsJoined(texts[1..]);
    }
  }

  lemma {:induction false} TerminatedGrows(texts: seq<string>, i: nat)
    requires i <= |texts|
    ensures |Terminated(texts[..i])| <= |Terminated(texts)|
  {
    if i < |texts| {
      TerminatedGrows(texts[..|texts| - 1], i);
      assert texts[..|texts| - 1][..i] == texts[..i];
    } else {
      assert texts[..i] == texts;
    }
  }

  lemma TerminatedStep(texts: seq<string>, i: nat)
    requires i < |texts|
    ensures Terminated(texts[..i + 1]) == Terminated(texts[..i]) + (texts[i] + ",")
    ensures |Terminated(texts[..i])| + |texts[i]| + 1 <= |Terminated(texts)|
  {
    TerminatedGrows(texts, i + 1);
    assert texts[..i + 1][..i] == texts[..i];
  }

  lemma ArrayTextLength(texts: seq<string>)
    ensures texts == [] ==> Joined(texts) == "" && |ArrayText(texts)| == 2
    ensures texts != [] ==> |ArrayText(texts)| == 1 + |Terminated(texts)|
    ensures Terminated(texts[..0]) == ""
  {
    if texts != [] {
      TerminatedIsJoined(texts);
    }
  }

  lemma ArrayTextIs(texts: seq<string>)
    ensures ArrayText(texts) == "[" + Joined(texts) + "]"
  {
  }

  function Mapped<T, U>(items: seq<T>, f: T -> U): (us: seq<U>)
    ensures |us| == |items| && forall i :: 0 <= i < |items| ==> us[i] == f(items[i])
  {
    if items == [] then [] else [f(items[0])] + Mapped(items[1..], f)
  }

  // One snprintf of an array writer: appends the text to what stands from the position from on.
  method WriteElement(buf: array<char>, from: nat, writePos: nat, remaining: nat, text: string) returns (ok: bool)
    requires from <= writePos && writePos + remaining <= buf.Length && text != ""
    modifies buf
    ensures buf[..from] == old(buf[..from]) && buf[writePos + remaining..] == old(buf[writePos + remaining..])
    ensures ok <==> |text| < remaining
    ensures ok ==> buf[from..writePos + |text|] == old(buf[from..writePos]) + text
  {
    var n := Snprintf(buf, writePos, remaining, text);
    ok := SnprintfSuccess(n, remaining);
    assert buf[..from] == buf[..writePos][..from];
    assert ok ==> buf[from..writePos + |text|] == buf[..writePos][from..] + buf[writePos..writePos + |text|];
  }

  /**
   The three array writers, which differ in the format of an element only. The text fits
   exactly when there is room for it and one byte more.
   */
  method WriteArray<T>(buf: array<char>, pos: nat, length: nat, items: seq<T>, format: T -> string)
    returns (status: Status, written: nat)
    requires pos + length <= buf.Length
    modifies buf
    ensures buf[..pos] == old(buf[..pos]) && buf[pos + length..] == old(buf[pos + length..])
    ensures status == Success <==> |ArrayText(Mapped(items, format))| + 1 <= length
    ensures status == Success ==>
              written == |ArrayText(Mapped(items, format))|
                && buf[pos..pos + written] == ArrayText(Mapped(items, format))
    ensures status == Success || status == BufferTooSmall
  {
    hide Joined, Terminated, Mapped, ArrayText;
    written := 0;
    status := Success;
    ghost var texts := Mapped(items, format);
    var writePos, remaining := pos, length;
    ArrayTextLength(texts);
    if remaining > 1 {
      buf[writePos] := '[';
      remaining := remaining - 1;
      writePos := writePos + 1;
    } else {
      status := BufferTooSmall;
    }
    var i := 0;
    while i < |items| && status == Success
      invariant i <= |items| && writePos + remaining == pos + length
      invariant status == Success || status == BufferTooSmall
      invariant buf[..pos] == old(buf[..pos]) && buf[pos + length..] == old(buf[pos + length..])
      invariant status == Success ==> pos < writePos && remaining >= 1
      invariant status == Success ==> buf[pos..writePos] == "[" + Terminated(texts[..i])
      invariant status != Success ==> |ArrayText(texts)| + 1 > length
      decreases |items| - i, status == Success
    {
      var text := format(items[i]) + ",";
      TerminatedStep(texts, i);
      var ok := WriteElement(buf, pos, writePos, remaining, text);
      if !ok {
        status := BufferTooSmall;
        break;
      } else {
        remaining := remaining - |text|;
        writePos := writePos + |text|;
        assert "[" + Terminated(texts[..i]) + text == "[" + (Terminated(texts[..i]) + text);
      }
      i := i + 1;
    }
    if status == Success {
      assert texts[..i] == texts;
      if |items| > 0 {
        writePos := writePos - 1;
        remaining := remaining + 1;
        assert buf[pos..writePos] == "[" + Joined(texts) by {
          TerminatedIsJoined(texts);
          assert buf[pos..writePos] == buf[pos..writePos + 1][..writePos - pos];
        }
      }
      if remaining > 1 {
        buf[writePos] := ']';
        remaining := remaining - 1;
        writePos := writePos + 1;
      } else {
        status := BufferTooSmall;
      }
    }
    if status == Success {
      written := length - remaining;
      assert buf[pos..writePos] == ArrayText(texts) by {
        ArrayTextIs(texts);
        assert buf[pos..writePos] == buf[pos..writePos - 1] + "]";
      }
    }
  }

  function PortText(k: Keys, port: nat): string {
    "{" + Key(k.port) + Decimal(port) + "}"
  }

  // Dotted quad and port.
  function AddressText(ip: nat, port: nat): string {
    Decimal(ip / 0x100_0000 % 256) + "." + Decimal(ip / 0x1_0000 % 256) + "." + Decimal(ip / 256 % 256) + "." +
    Decimal(ip % 256) + ":" + Decimal(port)
  }

  function ConnectionText(k: Keys, c: Connection): string {
    "{" + Key(k.localPort) + Decimal(c.localPort) + "," +
    Key(k.remoteAddress) + Quoted(AddressText(c.remoteIp, c.remotePort)) + "}"
  }

  method WritePortsArray(buf: array<char>, pos: nat, length: nat, k: Keys, ports: seq<nat>)
    returns (status: Status, written: nat)
    requires pos + length <= buf.Length
    modifies buf
    ensures buf[..pos] == old(buf[..pos]) && buf[pos + length..] == old(buf[pos + length..])
    ensures status == Success <==> |PortsText(k, ports)| + 1 <= length
    ensures status == Success ==> written == |PortsText(k, ports)| && buf[pos..pos + written] == PortsText(k, ports)
    ensures status == Success || status == BufferTooSmall
  {
    status, written := WriteArray(buf, pos, length, ports, p => PortText(k, p));
  }

  method WriteConnectionsArray(buf: array<char>, pos: nat, length: nat, k: Keys, connections: seq<Connection>)
    returns (status: Status, written: nat)
    requires pos + length <= buf.Length
    modifies buf
    ensures buf[..pos] == old(buf[..pos]) && buf[pos + length..] == old(buf[pos + length..])
    ensures status == Success <==> |ConnectionsText(k, connections)| + 1 <= length
    ensures status == Success ==>
              written == |ConnectionsText(k, connections)| && buf[pos..pos + written] == ConnectionsText(k, connections)
    ensures status == Success || status == BufferTooSmall
  {
    status, written := WriteArray(buf, pos, length, connections, c => ConnectionText(k, c));
  }

  method WriteTaskIdsArray(buf: array<char>, pos: nat, length: nat, taskIds: seq<nat>)
    returns (status: Status, written: nat)
    requires pos + length <= buf.Length
    modifies buf
    ensures buf[..pos] == old(buf[..pos]) && buf[pos + length..] == old(buf[pos + length..])
    ensures status == Success <==> |TaskIdsText(taskIds)| + 1 <= length
    ensures status == Success ==> written == |TaskIdsText(taskIds)| && buf[pos..pos + written] == TaskIdsText(taskIds)
    ensures status == Success || status == BufferTooSmall
  {
    status, written := WriteArray(buf, pos, length, taskIds, Decimal);
  }

  function PortsText(k: Keys, ports: seq<nat>): string {
    ArrayText(Mapped(ports, p => PortText(k, p)))
  }

  function ConnectionsText(k: Keys, connections: seq<Connection>): string {
    ArrayText(Mapped(connections, c => ConnectionText(k, c)))
  }

  function TaskIdsText(taskIds: seq<nat>): string {
    ArrayText(Mapped(taskIds, Decimal))
  }

  // ----- The report

  function Part1(k: Keys, s: Stamp): string {
    "{" + Key(k.header) + "{" + Key(k.id) + Decimal(s.id) + "," +
    Key(k.version) + Quoted(Decimal(s.major) + "." + Decimal(s.minor)) + "}," +
    Key(k.metrics) + "{" + Key(k.tcpPorts) + "{" + Key(k.ports)
  }

  function Part2(k: Keys, m: Metrics): string {
    "," + Key(k.total) + Decimal(|m.tcpPorts|) + "}," + Key(k.udpPorts) + "{" + Key(k.ports)
  }

  function Part3(k: Keys, m: Metrics): string {
    "," + Key(k.total) + Decimal(|m.udpPorts|) + "}," + Key(k.networkStats) + "{" +
    Key(k.bytesIn) + Decimal(m.stats.bytesReceived) + "," + Key(k.bytesOut) + Decimal(m.stats.bytesSent) + "," +
    Key(k.packetsIn) + Decimal(m.stats.packetsReceived) + "," + Key(k.packetsOut) +
    Decimal(m.stats.packetsSent) + "}," +
    Key(k.tcpConnections) + "{" + Key(k.established) + "{" + Key(k.connections)
  }

  function Part4(k: Keys, m: Metrics): string {
    "," + Key(k.total) + Decimal(|m.connections|) + "}}}," + Key(k.custom) + "{" +
    "\"stack_high_water_mark\": [{" + Key(k.number) + Decimal(m.stackHighWaterMark) + "}]," +
    "\"task_numbers\": [{" + Key(k.numberList)
  }

  const PART5 := "}]}}"

  function ReportText(k: Keys, m: Metrics, s: Stamp): string {
    Part1(k, s) + (PortsText(k, m.tcpPorts) +
    (Part2(k, m) + (PortsText(k, m.udpPorts) +
    (Part3(k, m) + (ConnectionsText(k, m.connections) +
    (Part4(k, m) + (TaskIdsText(m.taskIds) + PART5)))))))
  }

  // Of the whole text all but rest is in the first pos of length bytes.
  ghost predicate Progress(b: seq<char>, pos: nat, remaining: nat, length: nat, whole: string, rest: string) {
    && pos + remaining == length <= |b|
    && remaining >= 1
    && whole == b[..pos] + rest
  }

  lemma Advances(a: seq<char>, b: seq<char>, pos: nat, remaining: nat, length: nat, whole: string, text: string,
                 rest: string)
    requires Progress(a, pos, remaining, length, whole, text + rest)
    requires |b| == |a| && b[..pos] == a[..pos]
    requires |text| < remaining && b[pos..pos + |text|] == text
    ensures Progress(b, pos + |text|, remaining - |text|, length, whole, rest)
  {
    assert b[..pos + |text|] == a[..pos] + text;
  }

  lemma DoesNotFit(b: seq<char>, pos: nat, remaining: nat, length: nat, whole: string, text: string, rest: string)
    requires Progress(b, pos, remaining, length, whole, text + rest)
    requires |text| >= remaining
    ensures |whole| + 1 > length
  {
  }

  // One snprintf of the report and its check.
  method WritePart(buf: array<char>, pos: nat, remaining: nat, text: string,
                   ghost length: nat, ghost whole: string, ghost rest: string)
    returns (status: Status, written: nat)
    requires Progress(buf[..], pos, remaining, length, whole, text + rest) && text != ""
    modifies buf
    ensures buf[length..] == old(buf[length..])
    ensures status == Success ==>
              && written == |text| && written < remaining
              && Progress(buf[..], pos + written, remaining - written, length, whole, rest)
    ensures status == Success ==> buf[pos + written] == NUL
    ensures status != Success ==> status == BufferTooSmall && |whole| + 1 > length
  {
    ghost var before := buf[..];
    var n := Snprintf(buf, pos, remaining, text);
    if !SnprintfSuccess(n, remaining) {
      DoesNotFit(before, pos, remaining, length, whole, text, rest);
      return BufferTooSmall, 0;
    }
    Advances(before, buf[..], pos, remaining, length, whole, text, rest);
    return Success, n;
  }

  // Ports come twice, each time after a part.
  method WritePartAndPorts(buf: array<char>, pos: nat, remaining: nat, text: string, k: Keys, ports: seq<nat>,
                           ghost length: nat, ghost whole: string, ghost rest: string)
    returns (status: Status, written: nat)
    requires Progress(buf[..], pos, remaining, length, whole, text + (PortsText(k, ports) + rest)) && text != ""
    modifies buf
    ensures buf[length..] == old(buf[length..])
    ensures status == Success ==>
              written < remaining && Progress(buf[..], pos + written, remaining - written, length, whole, rest)
    ensures status != Success ==> status == BufferTooSmall && |whole| + 1 > length
  {
    hide PortsText;
    status, written := WritePart(buf, pos, remaining, text, length, whole, PortsText(k, ports) + rest);
    if status == Success {
      ghost var before := buf[..];
      var bufferWritten;
      status, bufferWritten := WritePortsArray(buf, pos + written, remaining - written, k, ports);
      if status == Success {
        Advances(before, buf[..], pos + written, remaining - written, length, whole, PortsText(k, ports), rest);
        written := written + bufferWritten;
      } else {
        DoesNotFit(before, pos + written, remaining - written, length, whole, PortsText(k, ports), rest);
      }
    }
  }

  method WritePartAndConnections(buf: array<char>, pos: nat, remaining: nat, text: string,
                                 k: Keys, connections: seq<Connection>,
                                 ghost length: nat, ghost whole: string, ghost rest: string)
    returns (status: Status, written: nat)
    requires Progress(buf[..], pos, remaining, length, whole, text + (ConnectionsText(k, connections) + rest))
             && text != ""
    modifies buf
    ensures buf[length..] == old(buf[length..])
    ensures status == Success ==>
              written < remaining && Progress(buf[..], pos + written, remaining - written, length, whole, rest)
    ensures status != Success ==> status == BufferTooSmall && |whole| + 1 > length
  {
    hide ConnectionsText;
    status, written := WritePart(buf, pos, remaining, text, length, whole, ConnectionsText(k, connections) + rest);
    if status == Success {
      ghost var before := buf[..];
      var bufferWritten;
      status, bufferWritten := WriteConnectionsArray(buf, pos + written, remaining - written, k, connections);
      if status == Success {
        Advances(before, buf[..], pos + written, remaining - written, length, whole,
                 ConnectionsText(k, connections), rest);
        written := written + bufferWritten;
      } else {
        DoesNotFit(before, pos + written, remaining - written, length, whole, ConnectionsText(k, connections), rest);
      }
    }
  }

  method WritePartAndTaskIds(buf: array<char>, pos: nat, remaining: nat, text: string, taskIds: seq<nat>,
                             ghost length: nat, ghost whole: string, ghost rest: string)
    returns (status: Status, written: nat)
    requires Progress(buf[..], pos, remaining, length, whole, text + (TaskIdsText(taskIds) + rest)) && text != ""
    modifies buf
    ensures buf[length..] == old(buf[length..])
    ensures status == Success ==>
              written < remaining && Progress(buf[..], pos + written, remaining - written, length, whole, rest)
    ensures status != Success ==> status == BufferTooSmall && |whole| + 1 > length
  {
    hide TaskIdsText;
    status, written := WritePart(buf, pos, remaining, text, length, whole, TaskIdsText(taskIds) + rest);
    if status == Success {
      ghost var before := buf[..];
      var bufferWritten;
      status, bufferWritten := WriteTaskIdsArray(buf, pos + written, remaining - written, taskIds);
      if status == Success {
        Advances(before, buf[..], pos + written, remaining - written, length, whole, TaskIdsText(taskIds), rest);
        written := written + bufferWritten;
      } else {
        DoesNotFit(before, pos + written, remaining - written, length, whole, TaskIdsText(taskIds), rest);
      }
    }
  }

  /**
   eGenerateJsonReport: the report is the rendering of the metrics, it succeeds exactly when
   the rendering and its NUL fit the given length, and nothing beyond that length is written.
   */
  method GenerateJsonReport(buf: array<char>, length: nat, m: Metrics, s: Stamp, k: Keys)
    returns (status: Status, reportLength: nat)
    requires length <= buf.Length
    modifies buf
    ensures buf[length..] == old(buf[length..])
    ensures status == BadParameter <==> length == 0
    ensures status == Success <==> |ReportText(k, m, s)| + 1 <= length
    ensures status == Success ==>
              reportLength == |ReportText(k, m, s)| && buf[..reportLength] == ReportText(k, m, s)
                && buf[reportLength] == NUL
  {
    hide Progress, Part1, Part2, Part3, Part4, PortsText, ConnectionsText, TaskIdsText, ReportText;
    reportLength := 0;
    if length == 0 {
      return BadParameter, 0;
    }
    ghost var whole, r1, r2, r3, r4 := Split(k, m, s);
    Starts(buf[..], length, whole);
    var pos, remaining := 0, length;
    var n;
    status, n := WritePartAndPorts(buf, pos, remaining, Part1(k, s), k, m.tcpPorts, length, whole, r1);
    if status != Success {
      return;
    }
    pos, remaining := pos + n, remaining - n;
    status, n := WritePartAndPorts(buf, pos, remaining, Part2(k, m), k, m.udpPorts, length, whole, r2);
    if status != Success {
      return;
    }
    pos, remaining := pos + n, remaining - n;
    status, n := WritePartAndConnections(buf, pos, remaining, Part3(k, m), k, m.connections, length, whole, r3);
    if status != Success {
      return;
    }
    pos, remaining := pos + n, remaining - n;
    status, n := WritePartAndTaskIds(buf, pos, remaining, Part4(k, m), m.taskIds, length, whole, r4);
    if status != Success {
      return;
    }
    pos, remaining := pos + n, remaining - n;
    status, n := WritePart(buf, pos, remaining, PART5, length, whole, "");
    if status != Success {
      return;
    }
    pos, remaining := pos + n, remaining - n;
    reportLength := length - remaining;
    Finishes(buf[..], pos, remaining, length, whole);
    assert buf[..][..pos] == buf[..pos];
  }

  // What is left of the report after each array.
  lemma Split(k: Keys, m: Metrics, s: Stamp) returns (whole: string, r1: string, r2: string, r3: string, r4: string)
    ensures whole == ReportText(k, m, s)
    ensures whole == Part1(k, s) + (PortsText(k, m.tcpPorts) + r1)
    ensures r1 == Part2(k, m) + (PortsText(k, m.udpPorts) + r2)
    ensures r2 == Part3(k, m) + (ConnectionsText(k, m.connections) + r3)
    ensures r3 == Part4(k, m) + (TaskIdsText(m.taskIds) + r4)
    ensures r4 == PART5 + ""
    ensures Part1(k, s) != "" && Part2(k, m) != "" && Part3(k, m) != "" && Part4(k, m) != "" && PART5 != ""
  {
    PartsAreNotEmpty(k, m, s);
    hide Part1, Part2, Part3, Part4, PortsText, ConnectionsText, TaskIdsText;
    r4 := PART5;
    assert PART5 + "" == PART5;
    r3 := Part4(k, m) + (TaskIdsText(m.taskIds) + r4);
    r2 := Part3(k, m) + (ConnectionsText(k, m.connections) + r3);
    r1 := Part2(k, m) + (PortsText(k, m.udpPorts) + r2);
    whole := ReportText(k, m, s);
  }

  lemma Starts(b: seq<char>, length: nat, whole: string)
    requires 1 <= length <= |b|
    ensures Progress(b, 0, length, length, whole, whole)
  {
    assert b[..0] + whole == whole;
  }

  lemma Finishes(b: seq<char>, pos: nat, remaining: nat, length: nat, whole: string)
    requires Progress(b, pos, remaining, length, whole, "")
    ensures pos == length - remaining == |whole| && b[..pos] == whole && |whole| + 1 <= length
  {
  }

  lemma PartsAreNotEmpty(k: Keys, m: Metrics, s: Stamp)
    ensures Part1(k, s) != "" && Part2(k, m) != "" && Part3(k, m) != "" && Part4(k, m) != ""
  {
    assert |"," + Key(k.total)| > 0;
  }
}
