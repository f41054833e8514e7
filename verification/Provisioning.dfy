/** The byte-fed provisioning parser, the program that prints its frames, and the persisted blob. */
module Provisioning {
  import opened Bytes
  import opened Domain

  const ENDPOINT_CAPACITY := 96
  const TEMPLATE_CAPACITY := 64
  const TOKEN_CAPACITY := 192
  const PAYLOAD_CAPACITY := 355
  const HEADER_CAPACITY := 96
  const BLOB_SIZE := 368
  /** The width of the target's lengths. */
  const SIZE_LIMIT := 0x1_0000_0000

  type Text = seq<byte>

  function Ascii(s: string): (t: Text)
    ensures |t| == |s| && forall i :: 0 <= i < |s| ==> t[i] == s[i] as int % 256
  {
    seq(|s|, i requires 0 <= i < |s| => (s[i] as int) % 256)
  }

  // ---------------------------------------------------------------- configurations

  /** Three fixed-size character arrays; a text ends at its first zero byte. */
  datatype Configuration = Configuration(endpoint: Text, template: Text, token: Text)

  predicate Sized(c: Configuration) {
    |c.endpoint| == ENDPOINT_CAPACITY && |c.template| == TEMPLATE_CAPACITY && |c.token| == TOKEN_CAPACITY
  }

  function TextLength(a: Text): (n: nat)
    ensures n <= |a| && (forall i :: 0 <= i < n ==> a[i] != 0) && (n < |a| ==> a[n] == 0)
  {
    if a == [] || a[0] == 0 then 0 else 1 + TextLength(a[1..])
  }

  predicate Within(b: byte, low: char, high: char) {
    low as int <= b <= high as int
  }

  const SUFFIX: Text := Ascii(".blynk.cloud")

  predicate RegionalEndpoint(e: Text) {
    |e| > |SUFFIX| && e[|e| - |SUFFIX|..] == SUFFIX
    && e[0] != '-' as int && e[|e| - |SUFFIX| - 1] != '-' as int
    && forall i :: 0 <= i < |e| - |SUFFIX| ==>
         Within(e[i], 'a', 'z') || Within(e[i], '0', '9') || e[i] == '-' as int
  }

  predicate SafeIdentifier(t: Text) {
    t != [] && forall i :: 0 <= i < |t| ==>
      Within(t[i], 'A', 'Z') || Within(t[i], 'a', 'z') || Within(t[i], '0', '9') || t[i] == '_' as int || t[i] == '-' as int
  }

  predicate SafeToken(t: Text) {
    t != [] && forall i :: 0 <= i < |t| ==> 0x21 <= t[i] <= 0x7E
  }

  predicate ValidTexts(endpoint: Text, template: Text, token: Text) {
    |endpoint| < ENDPOINT_CAPACITY && |template| < TEMPLATE_CAPACITY && |token| < TOKEN_CAPACITY
    && RegionalEndpoint(endpoint) && SafeIdentifier(template) && SafeToken(token)
  }

  predicate ValidConfiguration(c: Configuration)
    requires Sized(c)
  {
    var e, t, k := TextLength(c.endpoint), TextLength(c.template), TextLength(c.token);
    e < ENDPOINT_CAPACITY && t < TEMPLATE_CAPACITY && k < TOKEN_CAPACITY
    && RegionalEndpoint(c.endpoint[..e]) && SafeIdentifier(c.template[..t]) && SafeToken(c.token[..k])
  }

  function Padded(t: Text, size: nat): (a: Text)
    requires |t| <= size
    ensures |a| == size && a[..|t|] == t && forall i :: |t| <= i < size ==> a[i] == 0
  {
    t + seq(size - |t|, _ => 0)
  }

  lemma {:induction false} TextLengthIs(a: Text, n: nat)
    requires n <= |a| && (forall i :: 0 <= i < n ==> a[i] != 0) && (n < |a| ==> a[n] == 0)
    ensures TextLength(a) == n
  {
    if n > 0 {
      TextLengthIs(a[1..], n - 1);
    }
  }

  // ---------------------------------------------------------------- big-endian numbers

  function Be16(v: u16): (s: Text)
    ensures |s| == 2
  {
    [v / 0x100, v % 0x100]
  }

  function Be32(v: u32): (s: Text)
    ensures |s| == 4
  {
    [v / 0x100_0000, v / 0x1_0000 % 0x100, v / 0x100 % 0x100, v % 0x100]
  }

  function GetBe16(b: Text, at: nat): u16
    requires at + 2 <= |b|
  {
    (b[at] as int) * 0x100 + b[at + 1]
  }

  function GetBe32(b: Text, at: nat): u32
    requires at + 4 <= |b|
  {
    (b[at] as int) * 0x100_0000 + (b[at + 1] as int) * 0x1_0000 + (b[at + 2] as int) * 0x100 + b[at + 3]
  }

  lemma Be16Read(b: Text, at: nat, v: u16)
    requires at + 2 <= |b| && b[at..at + 2] == Be16(v)
    ensures GetBe16(b, at) == v
  {
    assert b[at] == b[at..at + 2][0] && b[at + 1] == b[at..at + 2][1];
  }

  lemma Be32Read(b: Text, at: nat, v: u32)
    requires at + 4 <= |b| && b[at..at + 4] == Be32(v)
    ensures GetBe32(b, at) == v
  {
    var w := b[at..at + 4];
    assert b[at] == w[0] && b[at + 1] == w[1] && b[at + 2] == w[2] && b[at + 3] == w[3];
    FourBytes(v);
  }

  lemma FourBytes(v: u32)
    ensures (v / 0x100_0000) * 0x100_0000 + (v / 0x1_0000 % 0x100) * 0x1_0000 + (v / 0x100 % 0x100) * 0x100 + v % 0x100 == v
  {
    var a, b, c := v / 0x100, v / 0x1_0000, v / 0x100_0000;
    assert a / 0x100 == b && b / 0x100 == c;
  }

  // ---------------------------------------------------------------- numbers in text

  const SPACE: byte := 32
  const NEWLINE: byte := 10
  const RETURN: byte := 13

  predicate IsDigit(b: byte) {
    Within(b, '0', '9')
  }

  function Decimal(n: nat): (t: Text)
    ensures t != [] && forall i :: 0 <= i < |t| ==> IsDigit(t[i])
  {
    if n < 10 then [48 + n] else Decimal(n / 10) + [48 + n % 10]
  }

  /** The value of a run of decimal digits. */
  function DecimalValue(t: Text): nat
    requires forall i :: 0 <= i < |t| ==> IsDigit(t[i])
  {
    if t == [] then 0
    else
      assert IsDigit(t[|t| - 1]);
      10 * DecimalValue(t[..|t| - 1]) + (t[|t| - 1] as int - 48)
  }

  function ParseDecimal(t: Text): Option<nat> {
    if t == [] || (exists i :: 0 <= i < |t| && !IsDigit(t[i])) then None
    else if DecimalValue(t) >= SIZE_LIMIT then None
    else Some(DecimalValue(t))
  }

  lemma {:induction false} DecimalReads(n: nat)
    ensures DecimalValue(Decimal(n)) == n
  {
    var t := Decimal(n);
    if n < 10 {
      assert t[..0] == [];
    } else {
      DecimalReads(n / 10);
      assert t[..|t| - 1] == Decimal(n / 10);
    }
  }

  function HexValue(b: byte): Option<nat> {
    if Within(b, '0', '9') then Some(b - 48)
    else if Within(b, 'a', 'f') then Some(b - 87)
    else if Within(b, 'A', 'F') then Some(b - 55)
    else None
  }

  function HexDigit(v: nat): (b: byte)
    requires v < 16
    ensures HexValue(b) == Some(v) && b != SPACE && b != NEWLINE && b != RETURN
  {
    if v < 10 then 48 + v else 55 + v
  }

  function Hex(v: nat, digits: nat): (t: Text)
    ensures |t| == digits
  {
    if digits == 0 then [] else Hex(v / 16, digits - 1) + [HexDigit(v % 16)]
  }

  function HexRead(t: Text): Option<nat> {
    if t == [] then Some(0)
    else match HexRead(t[..|t| - 1])
      case None => None
      case Some(high) =>
        match HexValue(t[|t| - 1]) case None => None case Some(low) => Some(16 * high + low)
  }

  function ParseCrc(t: Text): Option<nat> {
    if |t| != 8 then None else HexRead(t)
  }

  function Power16(n: nat): nat {
    if n == 0 then 1 else 16 * Power16(n - 1)
  }

  lemma {:induction false} HexReads(v: nat, digits: nat)
    requires v < Power16(digits)
    ensures HexRead(Hex(v, digits)) == Some(v)
    ensures forall i :: 0 <= i < digits ==>
              var b := Hex(v, digits)[i]; b != SPACE && b != NEWLINE && b != RETURN
  {
    if digits > 0 {
      HexReads(v / 16, digits - 1);
      assert Hex(v, digits)[..digits - 1] == Hex(v / 16, digits - 1);
    }
  }

  lemma Eight(v: u32)
    ensures v < Power16(8)
  {
    assert Power16(4) == 0x1_0000;
    assert Power16(8) == 0x1_0000 * Power16(4);
  }

  // ---------------------------------------------------------------- the printed frame

  datatype Operation = Set | Status | Clear

  function Name(op: Operation): Text {
    match op
    case Set => Ascii("SET")
    case Status => Ascii("STATUS")
    case Clear => Ascii("CLEAR")
  }

  const PROTOCOL: Text := Ascii("FUMURI-BLYNK/1")

  function SetPayload(endpoint: Text, template: Text, token: Text): Text
    requires |endpoint| < 0x1_0000 && |template| < 0x1_0000 && |token| < 0x1_0000
  {
    Be16(|endpoint|) + Be16(|template|) + Be16(|token|) + endpoint + template + token
  }

  function Header(op: Operation, length: nat, crc: u32): Text {
    PROTOCOL + [SPACE] + Name(op) + [SPACE] + Decimal(length) + [SPACE] + Hex(crc, 8)
  }

  function Frame(op: Operation, payload: Text): Text {
    Header(op, |payload|, if payload == [] then 0 else Crc32(payload)) + [NEWLINE] + payload
  }

  // ---------------------------------------------------------------- the header line

  function FindSpace(h: Text, from: nat): (at: nat)
    requires from <= |h|
    ensures from <= at <= |h| && (forall i :: from <= i < at ==> h[i] != SPACE) && (at < |h| ==> h[at] == SPACE)
    decreases |h| - from
  {
    if from == |h| || h[from] == SPACE then from else FindSpace(h, from + 1)
  }

  datatype Token = Token(text: Text, cursor: nat)

  /** The token at the cursor, and the cursor behind its separator; an empty one is refused. */
  function SplitToken(h: Text, cursor: nat): Option<Token> {
    if cursor >= |h| then None
    else
      var end := FindSpace(h, cursor);
      if end == cursor then None else Some(Token(h[cursor..end], if end == |h| then |h| else end + 1))
  }

  datatype Line = Parsed(operation: Operation, length: nat, crc: nat) | Malformed | TooLong

  function ParseOperation(t: Text): Option<Operation> {
    if t == Name(Set) then Some(Set)
    else if t == Name(Status) then Some(Status)
    else if t == Name(Clear) then Some(Clear)
    else None
  }

  /** The four tokens of a header line, when nothing else follows them. */
  function Tokens(h: Text): Option<seq<Text>> {
    match SplitToken(h, 0) case None => None case Some(a) =>
    match SplitToken(h, a.cursor) case None => None case Some(b) =>
    match SplitToken(h, b.cursor) case None => None case Some(c) =>
    match SplitToken(h, c.cursor) case None => None case Some(d) =>
    if d.cursor == |h| then Some([a.text, b.text, c.text, d.text]) else None
  }

  function ParseTokens(operation: Option<Operation>, length: Option<nat>, crc: Option<nat>): Line {
    if operation == None || length == None then Malformed
    else if length.value > PAYLOAD_CAPACITY then TooLong
    else if crc == None then Malformed
    else if (if operation.value == Set then length.value < 9 else length.value != 0 || crc.value != 0) then Malformed
    else Parsed(operation.value, length.value, crc.value)
  }

  function ParseHeader(h: Text): Line {
    match Tokens(h)
    case None => Malformed
    case Some(t) =>
      if |t| != 4 || t[0] != PROTOCOL then Malformed
      else ParseTokens(ParseOperation(t[1]), ParseDecimal(t[2]), ParseCrc(t[3]))
  }

  lemma SplitAt(h: Text, cursor: nat, token: Text, rest: Text)
    requires cursor <= |h| && token != [] && SPACE !in token
    ensures h[cursor..] == token + [SPACE] + rest ==> SplitToken(h, cursor) == Some(Token(token, cursor + |token| + 1))
    ensures h[cursor..] == token ==> SplitToken(h, cursor) == Some(Token(token, |h|))
  {
    if h[cursor..] == token + [SPACE] + rest || h[cursor..] == token {
      var end := FindSpace(h, cursor);
      assert forall i :: 0 <= i < |token| ==> h[cursor + i] == h[cursor..][i] == token[i] && token[i] in token;
      if h[cursor..] == token + [SPACE] + rest {
        assert h[cursor + |token|] == h[cursor..][|token|] == SPACE;
      }
      assert end == cursor + |token|;
      assert h[cursor..end] == h[cursor..][..|token|] == token;
    }
  }

  /** Four printed words split into themselves. */
  lemma TokensOf(a: Text, b: Text, c: Text, d: Text)
    requires a != [] && b != [] && c != [] && d != []
    requires SPACE !in a && SPACE !in b && SPACE !in c && SPACE !in d
    ensures Tokens(a + [SPACE] + b + [SPACE] + c + [SPACE] + d) == Some([a, b, c, d])
  {
    hide FindSpace, SplitToken;
    var h := a + [SPACE] + b + [SPACE] + c + [SPACE] + d;
    var x, y, z := |a| + 1, |a| + |b| + 2, |a| + |b| + |c| + 3;
    assert h[0..] == a + [SPACE] + (b + [SPACE] + c + [SPACE] + d);
    SplitAt(h, 0, a, b + [SPACE] + c + [SPACE] + d);
    assert h[x..] == b + [SPACE] + (c + [SPACE] + d);
    SplitAt(h, x, b, c + [SPACE] + d);
    assert h[y..] == c + [SPACE] + d;
    SplitAt(h, y, c, d);
    assert h[z..] == d;
    SplitAt(h, z, d, []);
  }

  lemma Words(op: Operation)
    ensures Name(op) != [] && SPACE !in Name(op) && ParseOperation(Name(op)) == Some(op)
    ensures PROTOCOL != [] && SPACE !in PROTOCOL && |PROTOCOL| == 14 && |Name(op)| <= 6
    ensures NEWLINE !in Name(op) && NEWLINE !in PROTOCOL && RETURN !in Name(op) && RETURN !in PROTOCOL
  {
    ThreeNames();
    assert PROTOCOL == [70, 85, 77, 85, 82, 73, 45, 66, 76, 89, 78, 75, 47, 49];
  }

  lemma ThreeNames()
    ensures Name(Set) == [83, 69, 84] && Name(Status) == [83, 84, 65, 84, 85, 83] && Name(Clear) == [67, 76, 69, 65, 82]
  {
  }

  lemma HeaderParses(op: Operation, length: nat, crc: u32)
    requires length <= PAYLOAD_CAPACITY && (if op == Set then length >= 9 else length == 0 && crc == 0)
    ensures ParseHeader(Header(op, length, crc)) == Parsed(op, length, crc)
    ensures NEWLINE !in Header(op, length, crc) && RETURN !in Header(op, length, crc)
    ensures |Header(op, length, crc)| <= HEADER_CAPACITY
  {
    hide Tokens, Decimal, Hex, Name, Ascii, DecimalValue;
    Words(op);
    var d, x := Decimal(length), Hex(crc, 8);
    DecimalReads(length);
    DecimalShort(length);
    Eight(crc);
    HexReads(crc, 8);
    assert SPACE !in d && NEWLINE !in d && RETURN !in d;
    assert SPACE !in x && NEWLINE !in x && RETURN !in x;
    TokensOf(PROTOCOL, Name(op), d, x);
  }

  lemma DecimalShort(n: nat)
    requires n < 1000
    ensures |Decimal(n)| <= 3
  {
    assert n / 10 / 10 < 10 && |Decimal(n / 10 / 10)| == 1;
    assert |Decimal(n / 10)| <= 2;
  }

  // ---------------------------------------------------------------- the parser, byte by byte

  datatype ParseError = NoError | MalformedHeader | Oversized | Corrupt | InvalidConfiguration

  datatype Request = Request(operation: Operation, configuration: Configuration)

  function EmptyConfiguration(): Configuration {
    Configuration(Padded([], ENDPOINT_CAPACITY), Padded([], TEMPLATE_CAPACITY), Padded([], TOKEN_CAPACITY))
  }

  /** All that a parser remembers between two bytes. */
  datatype Parser = Parser(
    header: Text,
    payload: Text,
    expectedLength: nat,
    expectedCrc: nat,
    operation: Operation,
    error: ParseError,
    readingPayload: bool)

  predicate ParserSound(s: Parser) {
    |s.header| <= HEADER_CAPACITY
    && (s.readingPayload ==> 9 <= s.expectedLength <= PAYLOAD_CAPACITY && |s.payload| < s.expectedLength)
  }

  /** Between frames: the next byte starts a header line. */
  predicate Boundary(s: Parser) {
    !s.readingPayload && s.header == []
  }

  function Failed(s: Parser, e: ParseError): Parser {
    s.(error := e, header := [], payload := [], expectedLength := 0, readingPayload := false)
  }

  function WasReset(s: Parser): Parser {
    s.(header := [], payload := [], expectedLength := 0, expectedCrc := 0, readingPayload := false)
  }

  /** The configuration a complete payload describes, if its lengths add up and its texts are valid. */
  function ReadPayload(p: Text): Option<Configuration> {
    if |p| < 6 || !LengthsFit(p, GetBe16(p, 0), GetBe16(p, 2), GetBe16(p, 4)) then None
    else Checked(Cut(p, GetBe16(p, 0), GetBe16(p, 2), GetBe16(p, 4)))
  }

  predicate LengthsFit(p: Text, e: nat, t: nat, k: nat) {
    e < ENDPOINT_CAPACITY && t < TEMPLATE_CAPACITY && k < TOKEN_CAPACITY && 6 + e + t + k == |p|
  }

  function Cut(p: Text, e: nat, t: nat, k: nat): (c: Configuration)
    requires LengthsFit(p, e, t, k)
    ensures Sized(c)
  {
    Configuration(Padded(p[6..6 + e], ENDPOINT_CAPACITY), Padded(p[6 + e..6 + e + t], TEMPLATE_CAPACITY),
                  Padded(p[6 + e + t..], TOKEN_CAPACITY))
  }

  function Checked(c: Configuration): Option<Configuration>
    requires Sized(c)
  {
    if ValidConfiguration(c) then Some(c) else None
  }

  /** The state after a complete payload. */
  function AfterPayload(s: Parser): Parser {
    if Crc32(s.payload) != s.expectedCrc then Failed(s, Corrupt)
    else if ReadPayload(s.payload) == None then Failed(s, InvalidConfiguration)
    else WasReset(s)
  }

  function PayloadRequest(s: Parser): Option<Request> {
    if Crc32(s.payload) != s.expectedCrc || ReadPayload(s.payload) == None then None
    else Some(Request(Set, ReadPayload(s.payload).value))
  }

  /** The state after the newline of a header line. */
  function AfterLine(s: Parser): Parser {
    match ParseHeader(s.header)
    case TooLong => Failed(Noted(s, LineOperation(s)), Oversized)
    case Malformed =>
      if s.error == NoError then Failed(Noted(s, LineOperation(s)), MalformedHeader) else Noted(s, LineOperation(s))
    case Parsed(op, length, crc) =>
      if length == 0 then WasReset(Noted(s, op)) else Parser([], [], length, crc, op, s.error, true)
  }

  function Noted(s: Parser, op: Operation): Parser {
    s.(operation := op)
  }

  function WithByte(s: Parser, b: byte): Parser {
    s.(payload := s.payload + [b])
  }

  function LineOperation(s: Parser): Operation {
    NotedOperation(s.header, s.operation)
  }

  /** The operation is stored as soon as it was recognized, even when the rest of the line is refused. */
  function NotedOperation(line: Text, before: Operation): Operation {
    match Tokens(line)
    case None => before
    case Some(t) =>
      if |t| != 4 || t[0] != PROTOCOL || ParseOperation(t[1]) == None then before else ParseOperation(t[1]).value
  }

  function AfterByte(s: Parser, b: byte): Parser {
    if s.readingPayload then
      if |s.payload| + 1 == s.expectedLength then AfterPayload(WithByte(s, b)) else WithByte(s, b)
    else if b == RETURN then s
    else if b == NEWLINE then AfterLine(s)
    else if |s.header| == HEADER_CAPACITY then Failed(s, Oversized)
    else s.(header := s.header + [b])
  }

  function Answer(s: Parser, b: byte): Option<Request> {
    if s.readingPayload then
      if |s.payload| + 1 == s.expectedLength then PayloadRequest(WithByte(s, b)) else None
    else if b != NEWLINE then None
    else match ParseHeader(s.header)
      case Parsed(op, length, _) => if length == 0 then Some(Request(op, EmptyConfiguration())) else None
      case _ => None
  }

  function Feed(s: Parser, bytes: Text): Parser
    decreases |bytes|
  {
    if bytes == [] then s else Feed(AfterByte(s, bytes[0]), bytes[1..])
  }

  function Answers(s: Parser, bytes: Text): (rs: seq<Option<Request>>)
    ensures |rs| == |bytes|
    decreases |bytes|
  {
    if bytes == [] then [] else [Answer(s, bytes[0])] + Answers(AfterByte(s, bytes[0]), bytes[1..])
  }

  lemma {:induction false} FeedConcat(s: Parser, a: Text, b: Text)
    ensures Feed(s, a + b) == Feed(Feed(s, a), b)
    ensures Answers(s, a + b) == Answers(s, a) + Answers(Feed(s, a), b)
    decreases |a|
  {
    if a == [] {
      assert a + b == b;
    } else {
      assert (a + b)[1..] == a[1..] + b;
      FeedConcat(AfterByte(s, a[0]), a[1..], b);
    }
  }

  predicate Silent(rs: seq<Option<Request>>) {
    forall k :: 0 <= k < |rs| ==> rs[k] == None
  }

  /** Header bytes accumulate silently. */
  lemma {:induction false} FeedHeader(s: Parser, line: Text)
    requires !s.readingPayload && NEWLINE !in line && RETURN !in line && |s.header| + |line| <= HEADER_CAPACITY
    ensures Feed(s, line) == s.(header := s.header + line) && Silent(Answers(s, line))
    decreases |line|
  {
    if line == [] {
      assert s.header + line == s.header;
    } else {
      assert line[0] in line;
      FeedHeader(AfterByte(s, line[0]), line[1..]);
      assert s.header + line == (s.header + [line[0]]) + line[1..];
    }
  }

  /** Payload bytes accumulate silently until the expected length is reached. */
  lemma {:induction false} FeedPayload(s: Parser, bytes: Text)
    requires s.readingPayload && |s.payload| + |bytes| < s.expectedLength
    ensures Feed(s, bytes) == s.(payload := s.payload + bytes) && Silent(Answers(s, bytes))
    decreases |bytes|
  {
    if bytes == [] {
      assert s.payload + bytes == s.payload;
    } else {
      FeedPayload(AfterByte(s, bytes[0]), bytes[1..]);
      assert s.payload + bytes == (s.payload + [bytes[0]]) + bytes[1..];
    }
  }

  lemma PayloadReads(endpoint: Text, template: Text, token: Text)
    requires ValidTexts(endpoint, template, token)
    ensures ReadPayload(SetPayload(endpoint, template, token))
         == Some(Configuration(Padded(endpoint, ENDPOINT_CAPACITY), Padded(template, TEMPLATE_CAPACITY),
                               Padded(token, TOKEN_CAPACITY)))
  {
    hide RegionalEndpoint, SafeIdentifier, SafeToken, TextLength;
    var p := SetPayload(endpoint, template, token);
    var e, t, k := |endpoint|, |template|, |token|;
    assert p[0..2] == Be16(e) && p[2..4] == Be16(t) && p[4..6] == Be16(k);
    Be16Read(p, 0, e);
    Be16Read(p, 2, t);
    Be16Read(p, 4, k);
    assert p[6..6 + e] == endpoint && p[6 + e..6 + e + t] == template && p[6 + e + t..] == token;
    NoZeros(endpoint, template, token);
    TextLengthIs(Padded(endpoint, ENDPOINT_CAPACITY), e);
    TextLengthIs(Padded(template, TEMPLATE_CAPACITY), t);
    TextLengthIs(Padded(token, TOKEN_CAPACITY), k);
  }

  lemma NoZeros(endpoint: Text, template: Text, token: Text)
    requires ValidTexts(endpoint, template, token)
    ensures 0 !in endpoint && 0 !in template && 0 !in token
  {
    if 0 in endpoint {
      var i :| 0 <= i < |endpoint| && endpoint[i] == 0;
      if i >= |endpoint| - |SUFFIX| {
        var j := i - (|endpoint| - |SUFFIX|);
        assert endpoint[|endpoint| - |SUFFIX|..][j] == SUFFIX[j];
        SuffixLetters();
      }
    }
  }

  lemma SuffixLetters()
    ensures |SUFFIX| == 12 && 0 !in SUFFIX
  {
    assert SUFFIX == [46, 98, 108, 121, 110, 107, 46, 99, 108, 111, 117, 100];
  }

  /** Feeding a printed SET frame at a frame boundary yields its configuration, exactly at its last byte. */
  lemma SetFrameParses(s: Parser, endpoint: Text, template: Text, token: Text)
    requires Boundary(s) && ValidTexts(endpoint, template, token)
    ensures var payload := SetPayload(endpoint, template, token);
            var frame := Frame(Set, payload);
            var last := |frame| - 1;
            Boundary(Feed(s, frame)) && Feed(s, frame).error == s.error && Silent(Answers(s, frame)[..last])
            && Answers(s, frame)[last]
               == Some(Request(Set, Configuration(Padded(endpoint, ENDPOINT_CAPACITY),
                                                  Padded(template, TEMPLATE_CAPACITY), Padded(token, TOKEN_CAPACITY))))
  {
    hide ValidTexts, ParseHeader, Header, ReadPayload, Crc32, Padded, SetPayload, Feed, Answers;
    PayloadSize(endpoint, template, token);
    PayloadReads(endpoint, template, token);
    var payload := SetPayload(endpoint, template, token);
    var crc := Crc32(payload);
    var line := Header(Set, |payload|, crc);
    HeaderParses(Set, |payload|, crc);
    FeedLine(s, line, Set, |payload|, crc);
    var b := Feed(s, line + [NEWLINE]);
    FeedWhole(b, payload);
    FeedConcat(s, line + [NEWLINE], payload);
    assert Frame(Set, payload) == (line + [NEWLINE]) + payload;
  }

  /** An accepted line that announces a payload. */
  lemma FeedLine(s: Parser, line: Text, op: Operation, length: nat, crc: nat)
    requires Boundary(s) && NEWLINE !in line && RETURN !in line && |line| <= HEADER_CAPACITY
    requires ParseHeader(line) == Parsed(op, length, crc) && length > 0
    ensures Feed(s, line + [NEWLINE]) == Parser([], [], length, crc, op, s.error, true)
    ensures Silent(Answers(s, line + [NEWLINE]))
  {
    hide ParseHeader;
    FeedHeader(s, line);
    assert s.header + line == line;
    FeedOne(Feed(s, line), NEWLINE);
    FeedConcat(s, line, [NEWLINE]);
  }

  /** A complete payload that passes its checks. */
  lemma FeedWhole(b: Parser, payload: Text)
    requires b.readingPayload && b.payload == [] && 0 < |payload| == b.expectedLength
    requires Crc32(payload) == b.expectedCrc && ReadPayload(payload).Some?
    ensures Boundary(Feed(b, payload)) && Feed(b, payload).error == b.error
    ensures Silent(Answers(b, payload)[..|payload| - 1])
    ensures Answers(b, payload)[|payload| - 1] == Some(Request(Set, ReadPayload(payload).value))
  {
    hide ReadPayload, Crc32;
    var n := |payload| - 1;
    FeedPayload(b, payload[..n]);
    var c := Feed(b, payload[..n]);
    FeedOne(c, payload[n]);
    FeedConcat(b, payload[..n], [payload[n]]);
    assert payload[..n] + [payload[n]] == payload && b.payload + payload[..n] == payload[..n];
  }

  lemma FeedOne(s: Parser, b: byte)
    ensures Feed(s, [b]) == AfterByte(s, b) && Answers(s, [b]) == [Answer(s, b)]
  {
    assert [b][1..] == [];
  }

  lemma PayloadSize(endpoint: Text, template: Text, token: Text)
    requires ValidTexts(endpoint, template, token)
    ensures |endpoint| < 0x1_0000 && |template| < 0x1_0000 && |token| < 0x1_0000
    ensures 9 <= |SetPayload(endpoint, template, token)| <= PAYLOAD_CAPACITY
  {
  }

  /** The same for the two operations without a payload. */
  lemma PlainFrameParses(s: Parser, op: Operation)
    requires Boundary(s) && op != Set
    ensures var frame := Frame(op, []);
            var last := |frame| - 1;
            Boundary(Feed(s, frame)) && Feed(s, frame).error == s.error && Silent(Answers(s, frame)[..last])
            && Answers(s, frame)[last] == Some(Request(op, EmptyConfiguration()))
  {
    hide ParseHeader, Header;
    var line := Header(op, 0, 0);
    HeaderParses(op, 0, 0);
    var frame := Frame(op, []);
    assert frame == line + [NEWLINE];
    FeedHeader(s, line);
    assert s.header + line == line;
    FeedOne(Feed(s, line), NEWLINE);
    FeedConcat(s, line, [NEWLINE]);
  }

  // ---------------------------------------------------------------- recovering from refused input

  const FRESH_PARSER := Parser([], [], 0, 0, Status, NoError, false)

  /** The service takes the error after every byte. */
  function Taken(s: Parser): Parser {
    s.(error := NoError)
  }

  /** The parser as the service feeds it. */
  function Serviced(s: Parser, bytes: Text): Parser
    decreases |bytes|
  {
    if bytes == [] then s else Serviced(Taken(AfterByte(s, bytes[0])), bytes[1..])
  }

  function ServicedAnswers(s: Parser, bytes: Text): (rs: seq<Option<Request>>)
    ensures |rs| == |bytes|
    decreases |bytes|
  {
    if bytes == [] then []
    else [Answer(s, bytes[0])] + ServicedAnswers(Taken(AfterByte(s, bytes[0])), bytes[1..])
  }

  lemma {:induction false} ServicedConcat(s: Parser, a: Text, b: Text)
    ensures Serviced(s, a + b) == Serviced(Serviced(s, a), b)
    ensures ServicedAnswers(s, a + b) == ServicedAnswers(s, a) + ServicedAnswers(Serviced(s, a), b)
    decreases |a|
  {
    if a == [] {
      assert a + b == b;
    } else {
      assert (a + b)[1..] == a[1..] + b;
      ServicedConcat(Taken(AfterByte(s, a[0])), a[1..], b);
    }
  }

  /** The service never leaves an error waiting. */
  lemma {:induction false} NoErrorWaits(s: Parser, bytes: Text)
    requires s.error == NoError
    ensures Serviced(s, bytes).error == NoError
    decreases |bytes|
  {
    if bytes != [] {
      NoErrorWaits(Taken(AfterByte(s, bytes[0])), bytes[1..]);
    }
  }

  /** Once raised, an error stays until it is taken. */
  lemma {:induction false} ErrorStays(s: Parser, bytes: Text)
    requires s.error != NoError
    ensures Feed(s, bytes).error != NoError
    decreases |bytes|
  {
    hide ParseHeader, ReadPayload, Crc32, Tokens;
    if bytes != [] {
      ErrorStays(AfterByte(s, bytes[0]), bytes[1..]);
    }
  }

  /** Input without errors is parsed the same whether or not errors are taken. */
  lemma {:induction false} ServicedIsFeed(s: Parser, bytes: Text)
    requires s.error == NoError && Feed(s, bytes).error == NoError
    ensures Serviced(s, bytes) == Feed(s, bytes) && ServicedAnswers(s, bytes) == Answers(s, bytes)
    decreases |bytes|
  {
    hide AfterByte, Answer;
    if bytes != [] {
      var t := AfterByte(s, bytes[0]);
      if t.error != NoError {
        ErrorStays(t, bytes[1..]);
      }
      assert Taken(t) == t;
      ServicedIsFeed(t, bytes[1..]);
    }
  }

  /** Whatever bytes came before, a newline outside a payload ends the line: it opens a payload, or a frame may follow. */
  lemma ServiceRecovers(bytes: Text)
    requires !Serviced(FRESH_PARSER, bytes).readingPayload
    ensures var s := Serviced(FRESH_PARSER, bytes + [NEWLINE]);
            s.error == NoError && (s.readingPayload || Boundary(s))
  {
    hide ParseHeader, Tokens;
    var s := Serviced(FRESH_PARSER, bytes);
    NoErrorWaits(FRESH_PARSER, bytes);
    ServicedConcat(FRESH_PARSER, bytes, [NEWLINE]);
    ServicedOne(s, NEWLINE);
  }

  lemma ServicedOne(s: Parser, b: byte)
    ensures Serviced(s, [b]) == Taken(AfterByte(s, b)) && ServicedAnswers(s, [b]) == [Answer(s, b)]
  {
    assert Serviced(Taken(AfterByte(s, b)), []) == Taken(AfterByte(s, b));
    assert [b][1..] == [];
  }

  /**
   * After any bytes at all, a newline that opens no payload is enough for the next printed frame to be
   * understood: its configuration comes out exactly at its last byte.
   */
  lemma FrameAfterAnything(bytes: Text, endpoint: Text, template: Text, token: Text)
    requires !Serviced(FRESH_PARSER, bytes).readingPayload && ValidTexts(endpoint, template, token)
    requires !Serviced(FRESH_PARSER, bytes + [NEWLINE]).readingPayload
    ensures var frame := Frame(Set, SetPayload(endpoint, template, token));
            var answers := ServicedAnswers(Serviced(FRESH_PARSER, bytes + [NEWLINE]), frame);
            Boundary(Serviced(FRESH_PARSER, bytes + [NEWLINE] + frame))
            && Silent(answers[..|frame| - 1])
            && answers[|frame| - 1]
               == Some(Request(Set, Configuration(Padded(endpoint, ENDPOINT_CAPACITY),
                                                  Padded(template, TEMPLATE_CAPACITY), Padded(token, TOKEN_CAPACITY))))
  {
    hide ValidTexts, Serviced, ServicedAnswers, Feed, Answers, Frame, SetPayload, Padded, Boundary;
    PayloadSize(endpoint, template, token);
    var frame := Frame(Set, SetPayload(endpoint, template, token));
    var s := Serviced(FRESH_PARSER, bytes + [NEWLINE]);
    ServiceRecovers(bytes);
    SetFrameParses(s, endpoint, template, token);
    ServicedIsFeed(s, frame);
    ServicedConcat(FRESH_PARSER, bytes + [NEWLINE], frame);
  }

  /**
   * For a caller that leaves errors waiting, a refused header line ends between frames exactly when no
   * earlier error waits, or the line was empty, or it announced an oversized payload.
   */
  lemma RefusedLineRecovers(s: Parser)
    requires !s.readingPayload && !ParseHeader(s.header).Parsed?
    ensures Boundary(AfterByte(s, NEWLINE)) <==>
              s.error == NoError || s.header == [] || ParseHeader(s.header) == TooLong
    ensures Answer(s, NEWLINE) == None && AfterByte(s, NEWLINE).error != NoError
  {
  }

  /** Two refused lines without taking the error in between leave the second one in the header buffer. */
  lemma WaitingErrorSticks()
    ensures var s := Feed(FRESH_PARSER, [88, NEWLINE, 88, NEWLINE]);
            !s.readingPayload && s.header == [88] && !Boundary(s)
    ensures Boundary(Serviced(FRESH_PARSER, [88, NEWLINE, 88, NEWLINE]))
  {
    var line: Text := [88];
    assert SplitToken(line, 0) == Some(Token(line, 1)) by {
      SplitAt(line, 0, line, []);
    }
    assert SplitToken(line, 1) == None && ParseHeader(line) == Malformed;
    var a := AfterByte(FRESH_PARSER, 88);
    var b := AfterByte(a, NEWLINE);
    var c := AfterByte(b, 88);
    var d := AfterByte(c, NEWLINE);
    assert a.header == line && b.header == [] && b.error == MalformedHeader && c.header == line && d.header == line;
    FeedFour(FRESH_PARSER, 88, NEWLINE, 88, NEWLINE);
  }

  lemma FeedFour(s: Parser, w: byte, x: byte, y: byte, z: byte)
    ensures Feed(s, [w, x, y, z]) == AfterByte(AfterByte(AfterByte(AfterByte(s, w), x), y), z)
    ensures Serviced(s, [w, x, y, z])
         == Taken(AfterByte(Taken(AfterByte(Taken(AfterByte(Taken(AfterByte(s, w)), x)), y)), z))
  {
    hide AfterByte, Taken;
    assert [w, x, y, z] == [w, x] + [y, z] && [w, x] == [w] + [x] && [y, z] == [y] + [z];
    FeedConcat(s, [w, x], [y, z]);
    FeedConcat(s, [w], [x]);
    FeedOne(s, w);
    FeedOne(AfterByte(s, w), x);
    var t := AfterByte(AfterByte(s, w), x);
    FeedConcat(t, [y], [z]);
    FeedOne(t, y);
    FeedOne(AfterByte(t, y), z);
    ServicedConcat(s, [w, x], [y, z]);
    ServicedConcat(s, [w], [x]);
    ServicedOne(s, w);
    ServicedOne(Taken(AfterByte(s, w)), x);
    var u := Taken(AfterByte(Taken(AfterByte(s, w)), x));
    ServicedConcat(u, [y], [z]);
    ServicedOne(u, y);
    ServicedOne(Taken(AfterByte(u, y)), z);
  }

  class BlynkProvisioningParser {
    const header: array<byte>
    var headerLength: nat
    const payload: array<byte>
    var payloadLength: nat
    var expectedPayloadLength: nat
    var expectedCrc: nat
    var operation: Operation
    var error: ParseError
    var readingPayload: bool

    ghost predicate Valid()
      reads this, header, payload
    {
      header.Length == HEADER_CAPACITY && payload.Length == PAYLOAD_CAPACITY && header != payload
      && headerLength <= HEADER_CAPACITY && payloadLength <= PAYLOAD_CAPACITY && ParserSound(Model())
    }

    ghost function Model(): Parser
      requires headerLength <= header.Length && payloadLength <= payload.Length
      reads this, header, payload
    {
      Parser(header[..headerLength], payload[..payloadLength], expectedPayloadLength, expectedCrc, operation, error,
             readingPayload)
    }

    constructor ()
      ensures Valid() && Boundary(Model()) && error == NoError && fresh(header) && fresh(payload)
    {
      header, payload := new byte[HEADER_CAPACITY](_ => 0), new byte[PAYLOAD_CAPACITY](_ => 0);
      headerLength, payloadLength, expectedPayloadLength, expectedCrc := 0, 0, 0, 0;
      operation, error, readingPayload := Status, NoError, false;
    }

    method Fail(e: ParseError)
      requires Valid()
      modifies this
      ensures Valid() && Model() == Failed(old(Model()), e)
    {
      error := e;
      headerLength, payloadLength, expectedPayloadLength, readingPayload := 0, 0, 0, false;
    }

    method Reset()
      requires Valid()
      modifies this
      ensures Valid() && Model() == WasReset(old(Model()))
    {
      headerLength, payloadLength, expectedPayloadLength, expectedCrc, readingPayload := 0, 0, 0, 0, false;
    }

    method TakeError() returns (result: ParseError)
      requires Valid()
      modifies this`error
      ensures Valid() && result == old(error) && Model() == old(Model()).(error := NoError)
    {
      result := error;
      error := NoError;
    }

    /** One byte: the state moves and answers as the step functions say. */
    method Consume(b: byte) returns (request: Option<Request>)
      requires Valid()
      modifies this, header, payload
      ensures Valid() && Model() == AfterByte(old(Model()), b) && request == Answer(old(Model()), b)
    {
      hide ParseHeader, ReadPayload, Tokens, Crc32, ParseOperation, EmptyConfiguration;
      if !readingPayload {
        if b == RETURN { return None; }
        if b != NEWLINE {
          if headerLength == HEADER_CAPACITY {
            Fail(Oversized);
            return None;
          }
          header[headerLength] := b;
          headerLength := headerLength + 1;
          assert header[..headerLength] == old(header[..headerLength]) + [b];
          return None;
        }
        request := FinishLine();
        return;
      }
      payload[payloadLength] := b;
      payloadLength := payloadLength + 1;
      assert payload[..payloadLength] == old(payload[..payloadLength]) + [b];
      request := None;
      if payloadLength == expectedPayloadLength {
        request := FinishPayload();
      }
    }

    method FinishLine() returns (request: Option<Request>)
      requires Valid() && !readingPayload
      modifies this
      ensures Valid() && Model() == AfterLine(old(Model())) && request == Answer(old(Model()), NEWLINE)
    {
      hide ParseHeader, Tokens, ParseOperation, EmptyConfiguration;
      var line := header[..headerLength];
      var result := ParseHeader(line);
      request := None;
      match result
      case TooLong =>
        operation := NotedOperation(line, operation);
        Fail(Oversized);
      case Malformed =>
        operation := NotedOperation(line, operation);
        if error == NoError {
          Fail(MalformedHeader);
        }
      case Parsed(op, length, crc) =>
        ParsedLengths(line);
        operation, expectedPayloadLength, expectedCrc, payloadLength := op, length, crc, 0;
        headerLength := 0;
        if expectedPayloadLength == 0 {
          Reset();
          request := Some(Request(op, EmptyConfiguration()));
        } else {
          readingPayload := true;
        }
    }

    method FinishPayload() returns (request: Option<Request>)
      requires header.Length == HEADER_CAPACITY && payload.Length == PAYLOAD_CAPACITY && header != payload
      requires headerLength <= HEADER_CAPACITY && payloadLength <= PAYLOAD_CAPACITY
      modifies this
      ensures Valid() && Model() == AfterPayload(old(Model())) && request == PayloadRequest(old(Model()))
    {
      hide ReadPayload, Crc32;
      if Crc32(payload[..payloadLength]) != expectedCrc {
        error := Corrupt;
        headerLength, payloadLength, expectedPayloadLength, readingPayload := 0, 0, 0, false;
        return None;
      }
      var configuration := ReadPayload(payload[..payloadLength]);
      if configuration == None {
        error := InvalidConfiguration;
        headerLength, payloadLength, expectedPayloadLength, readingPayload := 0, 0, 0, false;
        return None;
      }
      headerLength, payloadLength, expectedPayloadLength, expectedCrc, readingPayload := 0, 0, 0, 0, false;
      request := Some(Request(Set, configuration.value));
    }
  }

  /** The service's loop over received bytes: every error is taken and reported at once. */
  method ServiceUart(parser: BlynkProvisioningParser, bytes: Text) returns (requests: seq<Option<Request>>)
    requires parser.Valid()
    modifies parser, parser.header, parser.payload
    ensures parser.Valid() && parser.Model() == Serviced(old(parser.Model()), bytes)
    ensures requests == ServicedAnswers(old(parser.Model()), bytes)
  {
    hide AfterByte, Answer;
    requests := [];
    ghost var start := parser.Model();
    for index := 0 to |bytes|
      invariant parser.Valid() && parser.Model() == Serviced(start, bytes[..index])
      invariant requests == ServicedAnswers(start, bytes[..index])
    {
      ghost var s := parser.Model();
      var request := parser.Consume(bytes[index]);
      var error := parser.TakeError();
      assert bytes[..index + 1] == bytes[..index] + [bytes[index]];
      ServicedConcat(start, bytes[..index], [bytes[index]]);
      ServicedOne(s, bytes[index]);
      requests := requests + [request];
    }
    assert bytes[..|bytes|] == bytes;
  }

  /** A header line is accepted only with a length that fits, and a SET only with room for its length words. */
  lemma ParsedLengths(h: Text)
    ensures match ParseHeader(h)
            case Parsed(op, length, crc) => length <= PAYLOAD_CAPACITY && (length == 0 || length >= 9)
            case _ => true
  {
  }

  // ---------------------------------------------------------------- the persisted blob

  const MAGIC: Text := Ascii("FBLK")

  function BlobBody(c: Configuration): (b: Text)
    requires Sized(c)
    ensures |b| == BLOB_SIZE - 4
  {
    MAGIC + Be16(1) + Be16(TextLength(c.endpoint)) + Be16(TextLength(c.template)) + Be16(TextLength(c.token))
    + c.endpoint + c.template + c.token
  }

  function Encode(c: Configuration): (b: Text)
    requires Sized(c)
    ensures |b| == BLOB_SIZE
  {
    BlobBody(c) + Be32(Crc32(BlobBody(c)))
  }

  /** A text array with its terminator put where the stored length says. */
  function Terminated(a: Text, length: nat): (t: Text)
    requires length < |a|
    ensures |t| == |a|
  {
    a[length := 0]
  }

  function Decode(b: Text): Option<Configuration> {
    if |b| != BLOB_SIZE || b[..4] != MAGIC || GetBe16(b, 4) != 1 then None
    else DecodeTexts(b, GetBe16(b, 6), GetBe16(b, 8), GetBe16(b, 10))
  }

  function DecodeTexts(b: Text, e: nat, t: nat, k: nat): Option<Configuration>
    requires |b| == BLOB_SIZE
  {
    if e >= ENDPOINT_CAPACITY || t >= TEMPLATE_CAPACITY || k >= TOKEN_CAPACITY
       || Crc32(b[..BLOB_SIZE - 4]) != GetBe32(b, BLOB_SIZE - 4) then None
    else Accepted(Configuration(Terminated(b[12..108], e), Terminated(b[108..172], t), Terminated(b[172..364], k)), e, t, k)
  }

  function Accepted(c: Configuration, e: nat, t: nat, k: nat): Option<Configuration>
    requires Sized(c)
  {
    if TextLength(c.endpoint) == e && TextLength(c.template) == t && TextLength(c.token) == k && ValidConfiguration(c)
    then Some(c) else None
  }

  lemma TerminatedAgain(a: Text)
    requires TextLength(a) < |a|
    ensures Terminated(a, TextLength(a)) == a
  {
  }

  /** What was persisted is read back byte for byte; an invalid configuration is not read back at all. */
  lemma BlobRoundTrip(c: Configuration)
    requires Sized(c)
    ensures Decode(Encode(c)) == if ValidConfiguration(c) then Some(c) else None
  {
    hide TextLength, Crc32, RegionalEndpoint, SafeIdentifier, SafeToken, Terminated;
    var b, body := Encode(c), BlobBody(c);
    var e, t, k := TextLength(c.endpoint), TextLength(c.template), TextLength(c.token);
    MagicFour();
    BodyParts(c);
    assert b[..BLOB_SIZE - 4] == body && b[BLOB_SIZE - 4..BLOB_SIZE] == Be32(Crc32(body));
    assert b[..4] == body[..4] && b[12..108] == body[12..108] && b[108..172] == body[108..172] && b[172..364] == body[172..364];
    assert b[4..6] == body[4..6] && b[6..8] == body[6..8] && b[8..10] == body[8..10] && b[10..12] == body[10..12];
    Be16Read(b, 4, 1);
    Be16Read(b, 6, e);
    Be16Read(b, 8, t);
    Be16Read(b, 10, k);
    Be32Read(b, BLOB_SIZE - 4, Crc32(body));
    if e < ENDPOINT_CAPACITY && t < TEMPLATE_CAPACITY && k < TOKEN_CAPACITY {
      TerminatedAgain(c.endpoint);
      TerminatedAgain(c.template);
      TerminatedAgain(c.token);
    }
  }

  lemma MagicFour()
    ensures |MAGIC| == 4
  {
  }

  lemma BodyParts(c: Configuration)
    requires Sized(c)
    ensures var b := BlobBody(c);
            |MAGIC| == 4 && b[..4] == MAGIC && b[4..6] == Be16(1) && b[6..8] == Be16(TextLength(c.endpoint))
            && b[8..10] == Be16(TextLength(c.template)) && b[10..12] == Be16(TextLength(c.token))
            && b[12..108] == c.endpoint && b[108..172] == c.template && b[172..364] == c.token
  {
    hide TextLength, Be16;
  }
}
