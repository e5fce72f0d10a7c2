/**
 The part of JSON that the device report uses: objects, arrays, plain strings and
 non-negative integers. A printer in the layout of the report, and a parser for the same
 part of the grammar of RFC 8259, with white space allowed wherever the grammar allows it.
 */
module JsonTexts {

  datatype Json =
    | Number(number: nat)
    | Text(text: string)
    | Array(items: seq<Json>)
    | Object(members: seq<Member>)

  datatype Member = Member(key: string, value: Json)

  datatype Parsed<+T> = Failed | Parsed(value: T, rest: string)

  // ----- Decimal numbers

  predicate IsDigit(c: char) {
    '0' <= c <= '9'
  }

  function Digit(n: nat): (c: char)
    requires n < 10
    ensures IsDigit(c)
  {
    '0' + n as char
  }

  function DigitValue(c: char): (n: nat)
    requires IsDigit(c)
    ensures n < 10
  {
    c as int - '0' as int
  }

  predicate AllDigits(s: string) {
    forall i :: 0 <= i < |s| ==> IsDigit(s[i])
  }

  // The text of %u, %hu and %lu.
  function Decimal(n: nat): (s: string)
    ensures |s| >= 1 && AllDigits(s)
  {
    if n < 10 then [Digit(n)] else Decimal(n / 10) + [Digit(n % 10)]
  }

  function FromDecimal(s: string): nat
    requires AllDigits(s)
  {
    if s == "" then 0 else 10 * FromDecimal(s[..|s| - 1]) + DigitValue(s[|s| - 1])
  }

  lemma {:induction false} DecimalRoundTrip(n: nat)
    ensures FromDecimal(Decimal(n)) == n
    ensures Decimal(n)[0] == '0' ==> n == 0 && |Decimal(n)| == 1
  {
    if n >= 10 {
      DecimalRoundTrip(n / 10);
      assert Decimal(n)[..|Decimal(n)| - 1] == Decimal(n / 10);
    } else {
      assert Decimal(n)[..0] == "";
    }
  }

  // What follows a number does not continue it.
  predicate Stops(s: string) {
    s == "" || !IsDigit(s[0])
  }

  function LeadingDigits(s: string): (k: nat)
    ensures k <= |s| && AllDigits(s[..k]) && Stops(s[k..])
  {
    if Stops(s) then 0 else 1 + LeadingDigits(s[1..])
  }

  lemma {:induction false} LeadingDigitsOf(digits: string, rest: string)
    requires AllDigits(digits) && Stops(rest)
    ensures LeadingDigits(digits + rest) == |digits|
  {
    if digits == "" {
      assert digits + rest == rest;
    } else {
      assert (digits + rest)[1..] == digits[1..] + rest;
      LeadingDigitsOf(digits[1..], rest);
    }
  }

  // int of RFC 8259 section 6: no sign and no superfluous zero.
  function ParseNumber(s: string): (r: Parsed<nat>)
    ensures r.Parsed? ==> |r.rest| < |s|
  {
    var k := if s != "" && s[0] == '0' then 1 else LeadingDigits(s);
    if k == 0 then Failed else Parsed(FromDecimal(s[..k]), s[k..])
  }

  lemma ParseDecimal(n: nat, rest: string)
    requires Stops(rest)
    ensures ParseNumber(Decimal(n) + rest) == Parsed(n, rest)
  {
    hide LeadingDigits, FromDecimal;
    DecimalRoundTrip(n);
    LeadingDigitsOf(Decimal(n), rest);
    var s := Decimal(n) + rest;
    assert s[..|Decimal(n)|] == Decimal(n) && s[|Decimal(n)|..] == rest;
  }

  // ----- Strings without escapes

  predicate IsPlain(c: char) {
    c >= ' ' && c != '"' && c != '\\'
  }

  predicate Plain(s: string) {
    forall i :: 0 <= i < |s| ==> IsPlain(s[i])
  }

  function Quoted(s: string): string {
    "\"" + s + "\""
  }

  // The length of the run of plain characters.
  function LeadingPlain(s: string): (k: nat)
    ensures k <= |s|
  {
    if s == "" || !IsPlain(s[0]) then 0 else 1 + LeadingPlain(s[1..])
  }

  lemma {:induction false} LeadingPlainOf(plain: string, rest: string)
    requires Plain(plain)
    ensures LeadingPlain(plain + "\"" + rest) == |plain|
  {
    if plain == "" {
      assert (plain + "\"" + rest)[0] == '"';
    } else {
      assert (plain + "\"" + rest)[1..] == plain[1..] + "\"" + rest;
      LeadingPlainOf(plain[1..], rest);
    }
  }

  function ParseText(s: string): (r: Parsed<string>)
    ensures r.Parsed? ==> |r.rest| < |s|
  {
    if s == "" || s[0] != '"' then Failed
    else
      var k := LeadingPlain(s[1..]);
      if k < |s[1..]| && s[1..][k] == '"' then Parsed(s[1..][..k], s[1..][k + 1..]) else Failed
  }

  lemma ParseQuoted(text: string, rest: string)
    requires Plain(text)
    ensures ParseText(Quoted(text) + rest) == Parsed(text, rest)
  {
    hide LeadingPlain;
    var s := Quoted(text) + rest;
    assert s[1..] == text + "\"" + rest;
    LeadingPlainOf(text, rest);
    assert s[1..][..|text|] == text && s[1..][|text| + 1..] == rest;
  }

  // ----- Printing

  function Key(key: string): string {
    "\"" + key + "\": "
  }

  // The text of a value followed by rest.
  function PrintTo(j: Json, rest: string): string {
    match j
    case Number(n) => Decimal(n) + rest
    case Text(s) => Quoted(s) + rest
    case Array(js) => "[" + ElementsTo(js, "]" + rest)
    case Object(ms) => "{" + MembersTo(ms, "}" + rest)
  }

  function ElementsTo(js: seq<Json>, rest: string): string {
    if js == [] then rest
    else PrintTo(js[0], if |js| == 1 then rest else "," + ElementsTo(js[1..], rest))
  }

  function MembersTo(ms: seq<Member>, rest: string): string {
    if ms == [] then rest
    else Key(ms[0].key) + PrintTo(ms[0].value, if |ms| == 1 then rest else "," + MembersTo(ms[1..], rest))
  }

  function Print(j: Json): string {
    PrintTo(j, "")
  }

  // ----- Parsing (RFC 8259)

  predicate IsSpace(c: char) {
    c == ' ' || c == '\t' || c == '\n' || c == '\r'
  }

  function SkipSpace(s: string): (t: string)
    ensures |t| <= |s|
    ensures t == "" || !IsSpace(t[0])
  {
    if s != "" && IsSpace(s[0]) then SkipSpace(s[1..]) else s
  }

  // Takes off white space and then the character c.
  function Expect(s: string, c: char): (r: Parsed<char>)
    ensures r.Parsed? ==> |r.rest| < |s|
  {
    var t := SkipSpace(s);
    if t != "" && t[0] == c then Parsed(c, t[1..]) else Failed
  }

  function ParseValue(s: string): (r: Parsed<Json>)
    ensures r.Parsed? ==> |r.rest| < |s|
    decreases |s|, 1
  {
    var t := SkipSpace(s);
    if t == "" then Failed
    else if t[0] == '{' then
      if Expect(t[1..], '}').Parsed? then Parsed(Object([]), Expect(t[1..], '}').rest)
      else
        match ParseMembers(t[1..])
        case Failed => Failed
        case Parsed(ms, rest) => Parsed(Object(ms), rest)
    else if t[0] == '[' then
      if Expect(t[1..], ']').Parsed? then Parsed(Array([]), Expect(t[1..], ']').rest)
      else
        match ParseElements(t[1..])
        case Failed => Failed
        case Parsed(js, rest) => Parsed(Array(js), rest)
    else if t[0] == '"' then
      match ParseText(t)
      case Failed => Failed
      case Parsed(text, rest) => Parsed(Text(text), rest)
    else
      match ParseNumber(t)
      case Failed => Failed
      case Parsed(n, rest) => Parsed(Number(n), rest)
  }

  // One or more values up to the bracket that closes the array.
  function ParseElements(s: string): (r: Parsed<seq<Json>>)
    ensures r.Parsed? ==> |r.rest| < |s|
    decreases |s|, 2
  {
    match ParseValue(s)
    case Failed => Failed
    case Parsed(j, s1) =>
      if Expect(s1, ']').Parsed? then Parsed([j], Expect(s1, ']').rest)
      else
        match Expect(s1, ',')
        case Failed => Failed
        case Parsed(_, s2) =>
          match ParseElements(s2)
          case Failed => Failed
          case Parsed(js, rest) => Parsed([j] + js, rest)
  }

  // A name, the colon and the value.
  function ParseMember(s: string): (r: Parsed<Member>)
    ensures r.Parsed? ==> |r.rest| < |s|
    decreases |s|, 2
  {
    match ParseText(SkipSpace(s))
    case Failed => Failed
    case Parsed(key, s1) =>
      match Expect(s1, ':')
      case Failed => Failed
      case Parsed(_, s2) =>
        match ParseValue(s2)
        case Failed => Failed
        case Parsed(j, rest) => Parsed(Member(key, j), rest)
  }

  // One or more members up to the brace that closes the object.
  function ParseMembers(s: string): (r: Parsed<seq<Member>>)
    ensures r.Parsed? ==> |r.rest| < |s|
    decreases |s|, 3
  {
    match ParseMember(s)
    case Failed => Failed
    case Parsed(m, s1) =>
      if Expect(s1, '}').Parsed? then Parsed([m], Expect(s1, '}').rest)
      else
        match Expect(s1, ',')
        case Failed => Failed
        case Parsed(_, s2) =>
          match ParseMembers(s2)
          case Failed => Failed
          case Parsed(ms, rest) => Parsed([m] + ms, rest)
  }

  // A whole text holds one value and white space around it.
  function Parse(s: string): Parsed<Json> {
    match ParseValue(s)
    case Failed => Failed
    case Parsed(j, rest) => if SkipSpace(rest) == "" then Parsed(j, "") else Failed
  }

  // ----- Printing and parsing are inverse

  // All strings are free of quotes, backslashes and control characters.
  predicate Printable(j: Json) {
    match j
    case Number(_) => true
    case Text(s) => Plain(s)
    case Array(js) => PrintableItems(js)
    case Object(ms) => PrintableMembers(ms)
  }

  predicate PrintableItems(js: seq<Json>) {
    js != [] ==> Printable(js[0]) && PrintableItems(js[1..])
  }

  predicate PrintableMembers(ms: seq<Member>) {
    ms != [] ==> Plain(ms[0].key) && Printable(ms[0].value) && PrintableMembers(ms[1..])
  }

  predicate StartsValue(s: string) {
    s != "" && (IsDigit(s[0]) || s[0] == '"' || s[0] == '[' || s[0] == '{')
  }

  lemma PrintStarts(j: Json, rest: string)
    ensures StartsValue(PrintTo(j, rest))
  {
  }

  lemma ExpectHead(c: char, d: char, rest: string)
    requires !IsSpace(c)
    ensures Expect([c] + rest, d) == if c == d then Parsed(d, rest) else Failed
  {
    assert ([c] + rest)[1..] == rest;
  }

  lemma {:induction false} ParsePrinted(j: Json, rest: string)
    requires Printable(j) && Stops(rest)
    ensures ParseValue(PrintTo(j, rest)) == Parsed(j, rest)
    decreases j, 1
  {
    match j
    case Number(n) =>
      ParseDecimal(n, rest);
    case Text(s) =>
      ParseQuoted(s, rest);
    case Array(js) =>
      ParsePrintedArray(js, rest);
    case Object(ms) =>
      ParsePrintedObject(ms, rest);
  }

  lemma {:induction false} ParsePrintedArray(js: seq<Json>, rest: string)
    requires PrintableItems(js)
    ensures ParseValue(PrintTo(Array(js), rest)) == Parsed(Array(js), rest)
    decreases js, 1
  {
    hide ParseElements, ParseMembers, ParseText, ParseNumber, Expect;
    var s := PrintTo(Array(js), rest);
    assert s[1..] == ElementsTo(js, "]" + rest);
    ExpectHead(']', ']', rest);
    if js != [] {
      PrintStarts(js[0], if |js| == 1 then "]" + rest else "," + ElementsTo(js[1..], "]" + rest));
      ExpectHead(s[1], ']', s[2..]);
      assert [s[1]] + s[2..] == s[1..];
      ParsePrintedElements(js, rest);
    }
  }

  lemma {:induction false} ParsePrintedElements(js: seq<Json>, rest: string)
    requires js != [] && PrintableItems(js)
    ensures ParseElements(ElementsTo(js, "]" + rest)) == Parsed(js, rest)
    decreases js, 0
  {
    hide ParseValue, Expect, PrintTo;
    var more := if |js| == 1 then "]" + rest else "," + ElementsTo(js[1..], "]" + rest);
    ParsePrinted(js[0], more);
    if |js| == 1 {
      ExpectHead(']', ']', rest);
      assert js == [js[0]];
    } else {
      ExpectHead(',', ']', ElementsTo(js[1..], "]" + rest));
      ExpectHead(',', ',', ElementsTo(js[1..], "]" + rest));
      ParsePrintedElements(js[1..], rest);
      assert [js[0]] + js[1..] == js;
    }
  }

  lemma {:induction false} ParsePrintedObject(ms: seq<Member>, rest: string)
    requires PrintableMembers(ms)
    ensures ParseValue(PrintTo(Object(ms), rest)) == Parsed(Object(ms), rest)
    decreases ms, 1
  {
    hide ParseElements, ParseMembers, ParseText, ParseNumber, Expect;
    var s := PrintTo(Object(ms), rest);
    assert s[1..] == MembersTo(ms, "}" + rest);
    ExpectHead('}', '}', rest);
    if ms != [] {
      ExpectHead(s[1], '}', s[2..]);
      assert [s[1]] + s[2..] == s[1..];
      ParsePrintedMembers(ms, rest);
    }
  }

  lemma {:induction false} ParsePrintedMember(m: Member, rest: string)
    requires Plain(m.key) && Printable(m.value) && Stops(rest)
    ensures ParseMember(Key(m.key) + PrintTo(m.value, rest)) == Parsed(m, rest)
    decreases m, 0
  {
    hide ParseValue, ParseText, PrintTo, Plain;
    var value := PrintTo(m.value, rest);
    var s := Key(m.key) + value;
    assert s == Quoted(m.key) + (": " + value);
    assert s[0] == '"';
    ParseQuoted(m.key, ": " + value);
    assert ": " + value == [':'] + (" " + value);
    ExpectHead(':', ':', " " + value);
    ParsePrinted(m.value, rest);
    PrintStarts(m.value, rest);
    ParseAfterSpace(value);
  }

  lemma ParseAfterSpace(s: string)
    ensures ParseValue(" " + s) == ParseValue(s)
  {
    assert (" " + s)[1..] == s;
    assert SkipSpace(" " + s) == SkipSpace(s);
  }

  lemma {:induction false} ParsePrintedMembers(ms: seq<Member>, rest: string)
    requires ms != [] && PrintableMembers(ms)
    ensures ParseMembers(MembersTo(ms, "}" + rest)) == Parsed(ms, rest)
    decreases ms, 0
  {
    hide ParseMember, Expect, PrintTo, Plain, Key;
    var more := if |ms| == 1 then "}" + rest else "," + MembersTo(ms[1..], "}" + rest);
    ParsePrintedMember(ms[0], more);
    if |ms| == 1 {
      ExpectHead('}', '}', rest);
      assert ms == [ms[0]];
    } else {
      ExpectHead(',', '}', MembersTo(ms[1..], "}" + rest));
      ExpectHead(',', ',', MembersTo(ms[1..], "}" + rest));
      ParsePrintedMembers(ms[1..], rest);
      assert [ms[0]] + ms[1..] == ms;
    }
  }

  // Every printed value is JSON and parses to itself.
  lemma PrintParses(j: Json)
    requires Printable(j)
    ensures Parse(Print(j)) == Parsed(j, "")
  {
    ParsePrinted(j, "");
  }
}
