/** Frames of the JSON-RPC stream: the writer's form and the reader's decision. */
module Frames {
  import opened Basics
  import opened Text

  type byte = x: int | 0 <= x < 256

  const MAX_HEADER_BYTES: nat := 16 * 1024
  const MAX_MESSAGE_BYTES: nat := 16 * 1024 * 1024
  const USIZE_LIMIT: nat := 0x1_0000_0000_0000_0000
  const NEWLINE: byte := 10

  // ----- Text of headers -----

  predicate IsAscii(s: string) {
    forall i | 0 <= i < |s| :: s[i] as int < 128
  }

  function Bytes(s: string): seq<byte>
    requires IsAscii(s)
  {
    seq(|s|, i requires 0 <= i < |s| => s[i] as int)
  }

  /** UTF-8 decoding; all that matters of it is that it keeps ASCII text. */
  type Decoder = seq<byte> -> Option<string>

  ghost predicate KeepsAscii(decode: Decoder) {
    forall s | IsAscii(s) :: decode(Bytes(s)) == Some(s)
  }

  predicate EqIgnoreCase(a: string, b: string) {
    |a| == |b| && forall i | 0 <= i < |a| :: LowerChar(a[i]) == LowerChar(b[i])
  }

  // ----- Decimal numbers -----

  function DigitChar(d: nat): char
    requires d < 10
  {
    ('0' as int + d) as char
  }

  function Decimal(n: nat): (s: string)
    ensures |s| >= 1 && forall i | 0 <= i < |s| :: '0' <= s[i] <= '9'
  {
    if n < 10 then [DigitChar(n)] else Decimal(n / 10) + [DigitChar(n % 10)]
  }

  function DigitsValue(s: string): Option<nat> {
    if s == [] then Some(0)
    else
      var c := s[|s| - 1];
      var rest := DigitsValue(s[..|s| - 1]);
      if rest.None? || !('0' <= c <= '9') then None
      else Some(rest.value * 10 + (c as int - '0' as int))
  }

  /** Parsing of `usize`: an optional plus sign and at least one digit. */
  function ParseUsize(s: string): Option<nat> {
    var digits := if |s| > 1 && s[0] == '+' then s[1..] else s;
    var value := DigitsValue(digits);
    if digits == [] || value.None? || value.value >= USIZE_LIMIT then None else value
  }

  lemma {:induction false} DigitsOfDecimal(n: nat)
    ensures DigitsValue(Decimal(n)) == Some(n)
  {
    if n < 10 {
      assert Decimal(n)[..0] == [];
    } else {
      DigitsOfDecimal(n / 10);
      var s := Decimal(n);
      assert s[..|s| - 1] == Decimal(n / 10);
      assert n / 10 * 10 + n % 10 == n;
    }
  }

  /** Bounds the digits of a number, so that frames have bounded headers. */
  lemma {:induction false} DecimalLength(n: nat, k: nat)
    requires n < Power10(k) && k >= 1
    ensures |Decimal(n)| <= k
  {
    if n >= 10 {
      DecimalLength(n / 10, k - 1);
    }
  }

  function Power10(k: nat): nat {
    if k == 0 then 1 else 10 * Power10(k - 1)
  }

  // ----- The writer -----

  const LENGTH_NAME := "Content-Length"
  const TYPE_TEXT := "Content-Type" + ": application/" + "vscode-jsonrpc" + "; charset=utf-8"
  const CRLF := "\r\n"

  function LengthText(n: nat): string {
    LENGTH_NAME + ": " + Decimal(n)
  }

  /** ASCII text within one line. */
  predicate IsPlain(s: string) {
    forall i | 0 <= i < |s| :: s[i] as int < 128 && s[i] != '\n'
  }

  function Line(text: string): seq<byte>
    requires IsPlain(text)
  {
    Bytes(text + CRLF)
  }

  lemma PlainAppend(a: string, b: string)
    requires IsPlain(a) && IsPlain(b)
    ensures IsPlain(a + b)
  {
  }

  lemma TextsPlain(n: nat)
    ensures IsPlain(LengthText(n)) && IsPlain(TYPE_TEXT)
  {
    PlainAppend(LENGTH_NAME, ": ");
    PlainAppend(LENGTH_NAME + ": ", Decimal(n));
    PlainAppend("Content-Type", ": application/");
    PlainAppend("Content-Type" + ": application/", "vscode-jsonrpc");
    PlainAppend("Content-Type" + ": application/" + "vscode-jsonrpc", "; charset=utf-8");
  }

  /** The header `write_message` puts before a body of `n` bytes. */
  function HeaderBytes(n: nat): seq<byte> {
    TextsPlain(n);
    Line(LengthText(n)) + (Line(TYPE_TEXT) + Line(""))
  }

  function Frame(body: seq<byte>): seq<byte> {
    HeaderBytes(|body|) + body
  }

  // ----- The reader's decision -----

  datatype FrameError = UnexpectedEof | Invalid(reason: string)

  datatype Header = NoHeader | Complete(length: nat, consumed: nat) | Bad(error: FrameError)

  datatype Outcome = EndOfInput | Message(body: seq<byte>, consumed: nat) | Failed(error: FrameError)

  /** How many bytes a line takes: to the newline included, the limit, or the end. */
  function LineLength(s: seq<byte>, limit: nat): (n: nat)
    ensures n <= |s| && n <= limit && (n == 0 <==> s == [] || limit == 0)
  {
    if s == [] || limit == 0 then 0
    else if s[0] == NEWLINE then 1
    else 1 + LineLength(s[1..], limit - 1)
  }

  /** The first `n` bytes end with the first newline, or at the limit, or all of them. */
  predicate EndsLine(s: seq<byte>, limit: nat, n: nat)
    requires n <= |s|
  {
    && (forall i | 0 <= i < n - 1 :: s[i] != NEWLINE)
    && (n == limit || n == |s| || (n > 0 && s[n - 1] == NEWLINE))
  }

  lemma {:induction false} LineEndsExactly(s: seq<byte>, limit: nat, n: nat)
    ensures n <= |s| && n <= limit && EndsLine(s, limit, n) <==> n == LineLength(s, limit)
  {
    if s != [] && limit != 0 && s[0] != NEWLINE && n > 0 {
      LineEndsExactly(s[1..], limit - 1, n - 1);
      if n <= |s| {
        assert (forall i | 0 <= i < n - 1 :: s[i] != NEWLINE) <==>
               (forall i | 0 <= i < n - 2 :: s[1..][i] != NEWLINE) by {
          assert forall i | 0 < i < n - 1 :: s[i] == s[1..][i - 1];
        }
      }
    }
  }

  /** What one header line does to the length found so far. */
  datatype LineResult = Blank | Keep(length: Option<nat>) | Reject(reason: string)

  function HeaderLine(text: Option<string>, length: Option<nat>): LineResult {
    if text.None? then Reject("Header is not UTF-8")
    else
      var line := Trim(text.value);
      var colon := Find(line, ':');
      if line == [] then Blank
      else if colon.None? then Reject("Malformed header")
      else if !EqIgnoreCase(line[..colon.value], LENGTH_NAME) then Keep(length)
      else if length.Some? then Reject("Duplicate Content-Length")
      else
        var parsed := ParseUsize(Trim(line[colon.value + 1..]));
        if parsed.None? then Reject("Invalid Content-Length")
        else if parsed.value > MAX_MESSAGE_BYTES then Reject("Message exceeds size limit")
        else Keep(parsed)
  }

  datatype HeaderStep = Stop(header: Header) | Next(read: nat, length: Option<nat>)

  /** One turn of the header loop. */
  function StepHeader(decode: Decoder, s: seq<byte>, headerBytes: nat, length: Option<nat>): (step: HeaderStep)
    requires headerBytes <= MAX_HEADER_BYTES
    ensures step.Next? ==> 0 < step.read <= |s| && headerBytes + step.read <= MAX_HEADER_BYTES
  {
    var read := LineLength(s, MAX_HEADER_BYTES - headerBytes + 1);
    var after := headerBytes + read;
    if read == 0 then Stop(if headerBytes == 0 then NoHeader else Bad(UnexpectedEof))
    else if after > MAX_HEADER_BYTES then Stop(Bad(Invalid("Header exceeds size limit")))
    else
      match HeaderLine(decode(s[..read]), length)
      case Reject(reason) => Stop(Bad(Invalid(reason)))
      case Blank => Stop(if length.None? then Bad(Invalid("Missing Content-Length")) else Complete(length.value, after))
      case Keep(found) => Next(read, found)
  }

  function ReadHeader(decode: Decoder, s: seq<byte>, headerBytes: nat, length: Option<nat>): (h: Header)
    requires headerBytes <= MAX_HEADER_BYTES
    ensures h.Complete? ==> headerBytes < h.consumed <= MAX_HEADER_BYTES && h.consumed - headerBytes <= |s|
    ensures h.NoHeader? ==> headerBytes == 0 && s == []
    decreases |s|
  {
    match StepHeader(decode, s, headerBytes, length)
    case Stop(header) => header
    case Next(read, found) => ReadHeader(decode, s[read..], headerBytes + read, found)
  }

  function ReadMessage(decode: Decoder, s: seq<byte>): Outcome {
    match ReadHeader(decode, s, 0, None)
    case NoHeader => EndOfInput
    case Bad(error) => Failed(error)
    case Complete(length, consumed) =>
      if consumed + length <= |s| then Message(s[consumed..consumed + length], consumed + length)
      else Failed(UnexpectedEof)
  }

  /** The bodies the server dispatches, and whether the input ended cleanly. */
  function Served(decode: Decoder, s: seq<byte>): (seq<seq<byte>>, bool)
    decreases |s|
  {
    match ReadMessage(decode, s)
    case EndOfInput => ([], true)
    case Failed(_) => ([], false)
    case Message(body, consumed) =>
      var (bodies, clean) := Served(decode, s[consumed..]);
      ([body] + bodies, clean)
  }

  // ----- The reader -----

  /** A buffered input. */
  class Input {
    const data: seq<byte>
    var pos: nat

    ghost predicate Valid()
      reads this
    {
      pos <= |data|
    }

    ghost function Rest(): seq<byte>
      reads this
      requires Valid()
    {
      data[pos..]
    }

    constructor (data: seq<byte>)
      ensures Valid() && this.data == data && pos == 0
    {
      this.data := data;
      pos := 0;
    }

    /** `take(limit).read_until(newline)`. */
    method ReadLine(limit: nat) returns (line: seq<byte>)
      requires Valid()
      modifies this
      ensures Valid() && pos == old(pos) + |line|
      ensures line == old(Rest())[..LineLength(old(Rest()), limit)]
      ensures Rest() == old(Rest())[|line|..]
    {
      line := [];
      var start := pos;
      ghost var all := data[start..];
      while pos < |data| && |line| < limit
        invariant start <= pos <= |data| && pos == start + |line|
        invariant line == all[..|line|] && |line| <= limit
        invariant LineLength(all, limit) == |line| + LineLength(all[|line|..], limit - |line|)
      {
        var b := data[pos];
        assert all[|line|..][0] == b && all[|line|..][1..] == all[|line| + 1..];
        line := line + [b];
        pos := pos + 1;
        if b == NEWLINE {
          return;
        }
      }
    }

    /** `read_exact`; `None` when the input ends before. */
    method ReadExact(n: nat) returns (body: Option<seq<byte>>)
      requires Valid()
      modifies this
      ensures Valid()
      ensures body == if n <= |old(Rest())| then Some(old(Rest())[..n]) else None
      ensures body.Some? ==> pos == old(pos) + n
    {
      assert pos + n <= |data| ==> data[pos..][..n] == data[pos..pos + n];
      if pos + n <= |data| {
        body := Some(data[pos..pos + n]);
        pos := pos + n;
      } else {
        body := None;
        pos := |data|;
      }
    }
  }

  datatype HeaderEnd = Ended | Length(length: nat) | HeaderError(error: FrameError)

  /** The header loop: the subtraction in the limit stays natural, and no more than
      one byte beyond the limit is ever read. */
  method ReadHeaderLines(input: Input, decode: Decoder) returns (r: HeaderEnd)
    requires input.Valid()
    modifies input
    ensures input.Valid() && old(input.pos) <= input.pos <= old(input.pos) + 16 * 1024 + 1
    ensures match ReadHeader(decode, old(input.Rest()), 0, None)
            case NoHeader => r == Ended && input.pos == old(input.pos)
            case Bad(error) => r == HeaderError(error)
            case Complete(length, consumed) => r == Length(length) && input.pos == old(input.pos) + consumed
  {
    hide HeaderLine, LineLength;
    var headerBytes := 0;
    var contentLength: Option<nat> := None;
    ghost var start := input.pos;
    ghost var goal := ReadHeader(decode, input.Rest(), 0, None);
    while true
      invariant input.Valid() && headerBytes <= MAX_HEADER_BYTES && input.pos == start + headerBytes
      invariant goal == ReadHeader(decode, input.Rest(), headerBytes, contentLength)
      decreases |input.data| - input.pos
    {
      ghost var rest := input.Rest();
      var bytes := input.ReadLine(MAX_HEADER_BYTES - headerBytes + 1);
      var read := |bytes|;
      ghost var step := StepHeader(decode, rest, headerBytes, contentLength);
      assert bytes == rest[..read] && input.Rest() == rest[read..];
      if read == 0 {
        return if headerBytes == 0 then Ended else HeaderError(UnexpectedEof);
      }
      headerBytes := headerBytes + read;
      if headerBytes > MAX_HEADER_BYTES { return HeaderError(Invalid("Header exceeds size limit")); }
      var line := HeaderLine(decode(bytes), contentLength);
      match line {
        case Reject(reason) => return HeaderError(Invalid(reason));
        case Blank =>
          return
            if contentLength.None? then HeaderError(Invalid("Missing Content-Length")) else Length(contentLength.value);
        case Keep(found) => contentLength := found;
      }
    }
  }

  method ReadMessageFrom(input: Input, decode: Decoder) returns (r: Outcome)
    requires input.Valid()
    modifies input
    ensures input.Valid() && r == ReadMessage(decode, old(input.Rest()))
    ensures r.Message? ==> input.pos == old(input.pos) + r.consumed
  {
    ghost var rest := input.Rest();
    var start := input.pos;
    var header := ReadHeaderLines(input, decode);
    match header {
      case Ended => return EndOfInput;
      case HeaderError(error) => return Failed(error);
      case Length(length) =>
        ghost var consumed := input.pos - start;
        assert input.Rest() == rest[consumed..];
        var body := input.ReadExact(length);
        if body.None? { return Failed(UnexpectedEof); }
        assert rest[consumed..][..length] == rest[consumed..consumed + length];
        return Message(body.value, input.pos - start);
    }
  }

  /** The server's loop: every complete frame is dispatched in order until the
      input ends or framing is invalid. */
  method Serve(input: Input, decode: Decoder) returns (bodies: seq<seq<byte>>, clean: bool)
    requires input.Valid()
    modifies input
    ensures (bodies, clean) == Served(decode, old(input.Rest()))
  {
    hide ReadMessage;
    bodies := [];
    ghost var goal := Served(decode, input.Rest());
    while true
      invariant input.Valid()
      invariant goal.0 == bodies + Served(decode, input.Rest()).0 && goal.1 == Served(decode, input.Rest()).1
      decreases |input.data| - input.pos
    {
      ghost var rest := input.Rest();
      var message := ReadMessageFrom(input, decode);
      assert bodies + [] == bodies;
      match message {
        case EndOfInput => return bodies, true;
        case Failed(_) => return bodies, false;
        case Message(body, consumed) =>
          assert input.Rest() == rest[consumed..];
          bodies := bodies + [body];
      }
    }
  }
}
