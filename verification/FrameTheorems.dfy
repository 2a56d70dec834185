/** What one side writes, the other side reads. */
module FrameTheorems {
  import opened Basics
  import opened Text
  import opened Frames

  // ----- Lines -----

  lemma {:induction false} NoNewline(s: seq<byte>, limit: nat)
    requires NEWLINE !in s
    ensures LineLength(s, limit) == if |s| <= limit then |s| else limit
  {
    if s != [] && limit > 0 {
      NoNewline(s[1..], limit - 1);
    }
  }

  lemma {:induction false} UpToNewline(s: seq<byte>, k: nat, limit: nat)
    requires k < |s| && k < limit && NEWLINE !in s[..k] && s[k] == NEWLINE
    ensures LineLength(s, limit) == k + 1
  {
    if k > 0 {
      assert s[..k][0] == s[0];
      assert s[1..][..k - 1] == s[..k][1..];
      UpToNewline(s[1..], k - 1, limit - 1);
    }
  }

  lemma PlainBytes(text: string, k: nat)
    requires IsPlain(text) && k <= |text| + 1
    ensures NEWLINE !in Line(text)[..k] && IsAscii((text + CRLF)[..k]) && Line(text)[..k] == Bytes((text + CRLF)[..k])
    ensures |Line(text)| == |text| + 2 && Line(text)[|text| + 1] == NEWLINE
  {
  }

  lemma TrimLine(t: string)
    requires t != [] && !IsWhite(t[0]) && !IsWhite(t[|t| - 1])
    ensures Trim(t + CRLF) == t
  {
    TrimStartKeeps(t + CRLF);
    TrimEndStep(t + "\r", '\n');
    TrimEndStep(t, '\r');
    assert t + "\r" + ['\n'] == t + CRLF;
  }

  /** Text that starts with a visible character is never a blank line. */
  lemma NotBlank(text: string, length: Option<nat>)
    requires text != [] && !IsWhite(text[0])
    ensures !HeaderLine(Some(text), length).Blank?
  {
    TrimStartKeeps(text);
    TrimEndKeepsFirst(text);
  }

  // ----- The two header lines -----

  lemma LengthLineRead(n: nat)
    requires n <= MAX_MESSAGE_BYTES
    ensures HeaderLine(Some(LengthText(n) + CRLF), None) == Keep(Some(n))
  {
    var t := LengthText(n);
    var digits := Decimal(n);
    TrimLine(t);
    LengthTextSplit(n);
    TrimSpace(digits);
    DigitsOfDecimal(n);
  }

  lemma LengthTextSplit(n: nat)
    ensures var t := LengthText(n);
            Find(t, ':') == Some(14) && t[..14] == LENGTH_NAME && t[15..] == " " + Decimal(n)
  {
    var digits := Decimal(n);
    assert LengthText(n) == LENGTH_NAME + [':'] + (" " + digits);
    FindAfter(LENGTH_NAME, " " + digits, ':');
  }

  lemma TrimSpace(digits: string)
    requires digits != [] && !IsWhite(digits[0]) && !IsWhite(digits[|digits| - 1])
    ensures Trim(" " + digits) == digits
  {
    assert (" " + digits)[1..] == digits;
    TrimStartKeeps(digits);
  }

  lemma TypeLineRead(length: Option<nat>)
    ensures HeaderLine(Some(TYPE_TEXT + CRLF), length) == Keep(length)
  {
    TrimLine(TYPE_TEXT);
    var tail := " application/" + "vscode-jsonrpc" + "; charset=utf-8";
    assert TYPE_TEXT == "Content-Type" + [':'] + tail;
    FindAfter("Content-Type", tail, ':');
    assert |TYPE_TEXT[..12]| == 12;
  }

  lemma BlankLineRead(length: Option<nat>)
    ensures HeaderLine(Some("\r\n"), length) == Blank
    ensures HeaderLine(Some("\r"), length) == Blank
  {
    assert "\r\n"[1..] == "\n" && "\n"[1..] == [];
    assert "\r"[1..] == [];
  }

  // ----- Reading lines of a stream -----

  lemma WholeLine(decode: Decoder, text: string, rest: seq<byte>, headerBytes: nat, length: Option<nat>)
    requires KeepsAscii(decode) && IsPlain(text)
    requires headerBytes + |text| + 2 <= MAX_HEADER_BYTES
    ensures var s := Line(text) + rest; var read := LineLength(s, MAX_HEADER_BYTES - headerBytes + 1);
            read == |text| + 2 && decode(s[..read]) == Some(text + CRLF) && s[read..] == rest
  {
    var s := Line(text) + rest;
    PlainBytes(text, |text| + 1);
    assert s[..|text| + 1] == Line(text)[..|text| + 1];
    UpToNewline(s, |text| + 1, MAX_HEADER_BYTES - headerBytes + 1);
    assert s[..|text| + 2] == Bytes(text + CRLF);
  }

  lemma KeepLine(decode: Decoder, text: string, rest: seq<byte>, headerBytes: nat, length: Option<nat>)
    requires KeepsAscii(decode) && IsPlain(text)
    requires headerBytes + |text| + 2 <= MAX_HEADER_BYTES
    requires HeaderLine(Some(text + CRLF), length).Keep?
    ensures ReadHeader(decode, Line(text) + rest, headerBytes, length)
         == ReadHeader(decode, rest, headerBytes + |text| + 2, HeaderLine(Some(text + CRLF), length).length)
  {
    WholeLine(decode, text, rest, headerBytes, length);
  }

  /** A stream that stops within a line, before its newline. */
  lemma CutLine(decode: Decoder, text: string, k: nat, headerBytes: nat, length: Option<nat>)
    requires KeepsAscii(decode) && IsPlain(text) && k <= |text| + 1
    requires headerBytes + k <= MAX_HEADER_BYTES && headerBytes + k > 0
    requires text != [] && !IsWhite(text[0])
    ensures ReadHeader(decode, Line(text)[..k], headerBytes, length).Bad?
  {
    var s := Line(text)[..k];
    var part := (text + CRLF)[..k];
    PlainBytes(text, k);
    NoNewline(s, MAX_HEADER_BYTES - headerBytes + 1);
    if k > 0 {
      assert s[..k] == s && s[k..] == [];
      NotBlank(part, length);
      assert decode(s[..k]) == Some(part);
      var step := StepHeader(decode, s, headerBytes, length);
      if step.Next? {
        assert s[step.read..] == [];
        assert ReadHeader(decode, [], headerBytes + k, step.length).Bad?;
      }
    }
  }

  lemma HeaderSizes(n: nat)
    requires n <= MAX_MESSAGE_BYTES
    ensures 17 <= |LengthText(n)| <= 24 && |TYPE_TEXT| == 55
  {
    assert Power10(8) == 100000000 by {
      assert Power10(4) == 10000;
    }
    DecimalLength(n, 8);
  }

  // ----- The header of a frame -----

  /** What is left to read once both header lines are whole. */
  lemma TwoLines(decode: Decoder, n: nat, rest: seq<byte>)
    requires KeepsAscii(decode) && n <= MAX_MESSAGE_BYTES && IsPlain(LengthText(n)) && IsPlain(TYPE_TEXT)
    ensures var first, second := Line(LengthText(n)), Line(TYPE_TEXT);
            && |first| + |second| + 2 == |HeaderBytes(n)| <= 85
            && ReadHeader(decode, first + (second + rest), 0, None)
            == ReadHeader(decode, rest, |first| + |second|, Some(n))
  {
    hide HeaderLine, ReadHeader;
    HeaderSizes(n);
    var first, second := Line(LengthText(n)), Line(TYPE_TEXT);
    LengthLineRead(n);
    KeepLine(decode, LengthText(n), second + rest, 0, None);
    TypeLineRead(Some(n));
    KeepLine(decode, TYPE_TEXT, rest, |first|, Some(n));
  }

  lemma LastLine(decode: Decoder, n: nat, rest: seq<byte>, headerBytes: nat)
    requires KeepsAscii(decode) && headerBytes + 2 <= MAX_HEADER_BYTES
    ensures ReadHeader(decode, Line("") + rest, headerBytes, Some(n)) == Complete(n, headerBytes + 2)
  {
    WholeLine(decode, "", rest, headerBytes, Some(n));
    BlankLineRead(Some(n));
    assert "" + CRLF == "\r\n";
  }

  /** The carriage return alone is already a blank line. */
  lemma LoneReturn(decode: Decoder, n: nat, headerBytes: nat)
    requires KeepsAscii(decode) && headerBytes + 2 <= MAX_HEADER_BYTES
    ensures ReadHeader(decode, Line("")[..1], headerBytes, Some(n)) == Complete(n, headerBytes + 1)
  {
    var s := Bytes("\r");
    assert Line("")[..1] == s == [13];
    assert s[..1] == s;
    BlankLineRead(Some(n));
    LoneReturnLength(MAX_HEADER_BYTES - headerBytes + 1);
    assert decode(s) == Some("\r") by {
      assert IsAscii("\r");
    }
  }

  lemma LoneReturnLength(limit: nat)
    requires limit >= 1
    ensures LineLength([13], limit) == 1
  {
    NoNewline([13], limit);
  }

  lemma HeaderRead(decode: Decoder, n: nat, rest: seq<byte>)
    requires KeepsAscii(decode) && n <= MAX_MESSAGE_BYTES
    ensures ReadHeader(decode, HeaderBytes(n) + rest, 0, None) == Complete(n, |HeaderBytes(n)|)
  {
    hide ReadHeader;
    TextsPlain(n);
    var first, second := Line(LengthText(n)), Line(TYPE_TEXT);
    assert HeaderBytes(n) + rest == first + (second + (Line("") + rest));
    TwoLines(decode, n, Line("") + rest);
    LastLine(decode, n, rest, |first| + |second|);
  }

  /** Reading a frame gives back the body that was written, and nothing past it is consumed. */
  lemma FrameRoundTrip(decode: Decoder, body: seq<byte>, rest: seq<byte>)
    requires KeepsAscii(decode) && |body| <= MAX_MESSAGE_BYTES
    ensures ReadMessage(decode, Frame(body) + rest) == Message(body, |Frame(body)|)
  {
    hide ReadHeader;
    var header := HeaderBytes(|body|);
    var s := Frame(body) + rest;
    assert s == header + (body + rest);
    HeaderRead(decode, |body|, body + rest);
    assert s[|header|..|header| + |body|] == body;
  }

  function Stream(bodies: seq<seq<byte>>): seq<byte> {
    if bodies == [] then [] else Frame(bodies[0]) + Stream(bodies[1..])
  }

  /** Any list of messages written one after the other is read back as that list. */
  lemma {:induction false} StreamRoundTrip(decode: Decoder, bodies: seq<seq<byte>>)
    requires KeepsAscii(decode) && forall i | 0 <= i < |bodies| :: |bodies[i]| <= MAX_MESSAGE_BYTES
    ensures Served(decode, Stream(bodies)) == (bodies, true)
  {
    if bodies != [] {
      var frame, rest := Frame(bodies[0]), Stream(bodies[1..]);
      FrameRoundTrip(decode, bodies[0], rest);
      assert (frame + rest)[|frame|..] == rest;
      StreamRoundTrip(decode, bodies[1..]);
      assert [bodies[0]] + bodies[1..] == bodies;
    }
  }

  // ----- Frames cut short -----

  lemma CutHeader(decode: Decoder, n: nat, k: nat)
    requires KeepsAscii(decode) && n <= MAX_MESSAGE_BYTES && 0 < k < |HeaderBytes(n)| - 1
    ensures ReadHeader(decode, HeaderBytes(n)[..k], 0, None).Bad?
  {
    HeaderSizes(n);
    TextsPlain(n);
    var first, second := Line(LengthText(n)), Line(TYPE_TEXT);
    var s := HeaderBytes(n)[..k];
    if k < |first| {
      assert s == first[..k];
      CutLine(decode, LengthText(n), k, 0, None);
    } else {
      CutAfterFirst(decode, n, k - |first|);
      assert s == first + second[..k - |first|];
    }
  }

  lemma CutAfterFirst(decode: Decoder, n: nat, m: nat)
    requires KeepsAscii(decode) && n <= MAX_MESSAGE_BYTES
    requires IsPlain(LengthText(n)) && IsPlain(TYPE_TEXT) && m <= |Line(TYPE_TEXT)|
    ensures ReadHeader(decode, Line(LengthText(n)) + Line(TYPE_TEXT)[..m], 0, None).Bad?
  {
    hide HeaderLine, ReadHeader;
    HeaderSizes(n);
    var first, second := Line(LengthText(n)), Line(TYPE_TEXT);
    if m < |second| {
      LengthLineRead(n);
      KeepLine(decode, LengthText(n), second[..m], 0, None);
      CutLine(decode, TYPE_TEXT, m, |first|, Some(n));
    } else {
      TwoLines(decode, n, []);
      NothingLeft(decode, |first| + |second|, Some(n));
      assert first + second[..m] == first + (second + []);
    }
  }

  lemma NothingLeft(decode: Decoder, headerBytes: nat, length: Option<nat>)
    requires 0 < headerBytes <= MAX_HEADER_BYTES
    ensures ReadHeader(decode, [], headerBytes, length).Bad?
  {
  }

  /** Without its last byte, a header still ends. */
  lemma HeaderWithoutLastByte(decode: Decoder, n: nat)
    requires KeepsAscii(decode) && n <= MAX_MESSAGE_BYTES
    ensures var k := |HeaderBytes(n)| - 1; ReadHeader(decode, HeaderBytes(n)[..k], 0, None) == Complete(n, k)
  {
    hide ReadHeader;
    TextsPlain(n);
    var first, second := Line(LengthText(n)), Line(TYPE_TEXT);
    var third := Line("")[..1];
    var k := |first| + |second| + 1;
    assert HeaderBytes(n)[..k] == first + (second + third);
    TwoLines(decode, n, third);
    LoneReturn(decode, n, |first| + |second|);
  }

  lemma CutAtReturn(decode: Decoder, body: seq<byte>)
    requires KeepsAscii(decode) && |body| <= MAX_MESSAGE_BYTES
    ensures var k := |HeaderBytes(|body|)| - 1;
            ReadMessage(decode, HeaderBytes(|body|)[..k])
            == if body == [] then Message([], k) else Failed(UnexpectedEof)
  {
    HeaderWithoutLastByte(decode, |body|);
  }

  lemma CutBody(decode: Decoder, body: seq<byte>, m: nat)
    requires KeepsAscii(decode) && m < |body| <= MAX_MESSAGE_BYTES
    ensures ReadMessage(decode, HeaderBytes(|body|) + body[..m]).Failed?
  {
    HeaderRead(decode, |body|, body[..m]);
  }

  /** A frame cut short is never taken for a message, with one exception: a frame of
      an empty body that misses only its final newline is read as that empty body. */
  lemma CutFrameAcceptedExactlyWhen(decode: Decoder, body: seq<byte>, k: nat)
    requires KeepsAscii(decode) && |body| <= MAX_MESSAGE_BYTES && 0 < k < |Frame(body)|
    ensures var r := ReadMessage(decode, Frame(body)[..k]);
            && (r.Failed? || r == Message([], k))
            && (r.Message? <==> body == [] && k == |Frame(body)| - 1)
  {
    hide ReadMessage, HeaderBytes;
    var header := HeaderBytes(|body|);
    if k < |header| - 1 {
      CutHeaderFails(decode, |body|, k);
      assert Frame(body)[..k] == header[..k];
    } else if k == |header| - 1 {
      CutAtReturn(decode, body);
      assert Frame(body)[..k] == header[..k];
    } else {
      CutBody(decode, body, k - |header|);
      assert Frame(body)[..k] == header + body[..k - |header|];
    }
  }

  lemma CutHeaderFails(decode: Decoder, n: nat, k: nat)
    requires KeepsAscii(decode) && n <= MAX_MESSAGE_BYTES && 0 < k < |HeaderBytes(n)| - 1
    ensures ReadMessage(decode, HeaderBytes(n)[..k]).Failed?
  {
    hide ReadHeader;
    CutHeader(decode, n, k);
  }

  // ----- Which headers are accepted -----

  /** The lines before the first blank one, and the bytes up to its end; `None`
      when the input, the limit or the encoding ends them before. */
  function HeaderText(decode: Decoder, s: seq<byte>, headerBytes: nat): Option<(seq<string>, nat)>
    requires headerBytes <= MAX_HEADER_BYTES
    decreases |s|
  {
    var read := LineLength(s, 16 * 1024 - headerBytes + 1);
    if read == 0 || headerBytes + read > 16 * 1024 then None
    else
      var text := decode(s[..read]);
      if text.None? then None
      else if Trim(text.value) == [] then Some(([], headerBytes + read))
      else
        var rest := HeaderText(decode, s[read..], headerBytes + read);
        if rest.None? then None else Some(([Trim(text.value)] + rest.value.0, rest.value.1))
  }

  predicate IsField(line: string) {
    ':' in line
  }

  /** The name is Content-Length, in any case of its letters. */
  predicate NamesLength(line: string) {
    IsField(line) && Spells(line[..Find(line, ':').value], "content-length")
  }

  lemma SpellsLength(name: string)
    ensures EqIgnoreCase(name, LENGTH_NAME) <==> Spells(name, "content-length")
  {
    var lower := "content-length";
    assert forall i | 0 <= i < |lower| :: LowerChar(LENGTH_NAME[i]) == lower[i];
    if |name| == |lower| {
      forall i | 0 <= i < |name| ensures LowerChar(name[i]) == lower[i] <==> SameLetter(name[i], lower[i]) {
        LowerCharLetter(name[i], lower[i]);
      }
    }
  }

  function FieldValue(line: string): string
    requires IsField(line)
  {
    Trim(line[Find(line, ':').value + 1..])
  }

  /** The values of all Content-Length fields. */
  function Lengths(lines: seq<string>): seq<string> {
    if lines == [] then []
    else (if NamesLength(lines[0]) then [FieldValue(lines[0])] else []) + Lengths(lines[1..])
  }

  function Zeros(k: nat): string {
    seq(k, i => '0')
  }

  /** The number in decimal, after an optional plus sign and any zeros. */
  ghost predicate IsNumeral(s: string, n: nat) {
    exists k: nat :: s == Zeros(k) + Decimal(n) || s == "+" + Zeros(k) + Decimal(n)
  }

  lemma {:induction false} ZerosValue(k: nat, s: string)
    ensures DigitsValue(Zeros(k) + s) == DigitsValue(s)
    decreases k + |s|
  {
    if s != [] {
      var all := Zeros(k) + s;
      assert all[..|all| - 1] == Zeros(k) + s[..|s| - 1];
      ZerosValue(k, s[..|s| - 1]);
    } else if k > 0 {
      var all := Zeros(k) + s;
      assert all[..|all| - 1] == Zeros(k - 1) + [];
      ZerosValue(k - 1, []);
    }
  }

  /** Digits with a value are that number behind zeros. */
  lemma {:induction false} DigitsAre(s: string) returns (k: nat)
    requires s != [] && DigitsValue(s).Some?
    ensures s == Zeros(k) + Decimal(DigitsValue(s).value)
  {
    var (init, c) := (s[..|s| - 1], s[|s| - 1]);
    var n := DigitsValue(s).value;
    assert s == init + [c];
    if init == [] {
      k := 0;
      assert s == Zeros(0) + Decimal(n);
    } else {
      var m := DigitsValue(init).value;
      var j := DigitsAre(init);
      if m == 0 {
        k := j + 1;
        assert Decimal(0) == "0";
        assert Zeros(j + 1) == Zeros(j) + "0";
      } else {
        k := j;
        assert n / 10 == m && n % 10 == c as int - '0' as int;
        assert Decimal(n) == Decimal(m) + [c];
        assert s == Zeros(j) + (Decimal(m) + [c]);
      }
    }
  }

  lemma DigitsExactly(s: string, n: nat)
    ensures s != [] && DigitsValue(s) == Some(n) <==> exists k: nat :: s == Zeros(k) + Decimal(n)
  {
    if s != [] && DigitsValue(s) == Some(n) {
      var k := DigitsAre(s);
    }
    if k: nat :| s == Zeros(k) + Decimal(n) {
      ZerosValue(k, Decimal(n));
      DigitsOfDecimal(n);
    }
  }

  /** The parser accepts exactly the numerals of numbers below 2^64. */
  lemma ParseUsizeExactly(s: string, n: nat)
    ensures ParseUsize(s) == Some(n) <==> IsNumeral(s, n) && n < 0x1_0000_0000_0000_0000
  {
    DigitsExactly(s, n);
    if s != [] && s[0] == '+' {
      SignIsNoDigit(s);
      DigitsExactly(s[1..], n);
      assert s == "+" + s[1..];
      forall k: nat ensures s == "+" + Zeros(k) + Decimal(n) <==> s[1..] == Zeros(k) + Decimal(n) {
        assert "+" + Zeros(k) + Decimal(n) == "+" + (Zeros(k) + Decimal(n));
      }
    } else {
      forall k: nat ensures s != "+" + Zeros(k) + Decimal(n) {
        assert ("+" + Zeros(k) + Decimal(n))[0] == '+';
      }
    }
  }

  lemma {:induction false} SignIsNoDigit(s: string)
    requires s != [] && s[0] == '+'
    ensures DigitsValue(s) == None
  {
    if |s| > 1 { SignIsNoDigit(s[..|s| - 1]); }
  }

  /** What the header means, given the lengths its lines must supply. */
  ghost predicate Says(lines: seq<string>, length: Option<nat>, n: nat) {
    && (forall line | line in lines :: IsField(line))
    && match length
       case None => |Lengths(lines)| == 1 && IsNumeral(Lengths(lines)[0], n) && n <= 16 * 1024 * 1024
       case Some(found) => Lengths(lines) == [] && n == found
  }

  /** What a line that is not blank does to the length found so far. */
  lemma LengthLineSays(text: string, length: Option<nat>, n: nat)
    requires Trim(text) != []
    ensures var (line, r) := (Trim(text), HeaderLine(Some(text), length));
            && (!IsField(line) ==> r.Reject?)
            && (IsField(line) && !NamesLength(line) ==> r == Keep(length))
            && (NamesLength(line) && length.Some? ==> r.Reject?)
            && (NamesLength(line) && length.None? ==>
                  && (r.Reject? || (r.Keep? && r.length.Some?))
                  && (r == Keep(Some(n)) <==> IsNumeral(FieldValue(line), n) && n <= 16 * 1024 * 1024))
  {
    var line := Trim(text);
    if IsField(line) {
      SpellsLength(line[..Find(line, ':').value]);
      ParseUsizeExactly(FieldValue(line), n);
    }
    hide IsNumeral, ParseUsize, Spells, EqIgnoreCase, Trim, LENGTH_NAME;
  }

  lemma SaysMore(text: string, lines: seq<string>, length: Option<nat>, n: nat)
    requires Trim(text) != []
    ensures Says([Trim(text)] + lines, length, n) <==>
              var r := HeaderLine(Some(text), length);
              r.Keep? && Says(lines, r.length, n)
  {
    var line := Trim(text);
    LengthLineSays(text, length, n);
    assert ([line] + lines)[1..] == lines;
    assert (forall l | l in [line] + lines :: IsField(l)) <==> IsField(line) && forall l | l in lines :: IsField(l);
    hide HeaderLine, IsNumeral, NamesLength, IsField, Trim;
  }

  ghost predicate Accepts(decode: Decoder, s: seq<byte>, headerBytes: nat, length: Option<nat>, n: nat, consumed: nat)
    requires headerBytes <= MAX_HEADER_BYTES
  {
    var text := HeaderText(decode, s, headerBytes);
    text.Some? && text.value.1 == consumed && Says(text.value.0, length, n)
  }

  /** One more line. */
  lemma AcceptsMore(decode: Decoder, s: seq<byte>, headerBytes: nat, length: Option<nat>, n: nat, consumed: nat)
    requires headerBytes <= MAX_HEADER_BYTES
    ensures var step := StepHeader(decode, s, headerBytes, length);
            Accepts(decode, s, headerBytes, length, n, consumed) <==>
              match step
              case Stop(header) => header == Complete(n, consumed)
              case Next(read, found) => Accepts(decode, s[read..], headerBytes + read, found, n, consumed)
  {
    hide HeaderLine, Says, Trim, LineLength;
    var read := LineLength(s, MAX_HEADER_BYTES - headerBytes + 1);
    if read != 0 && headerBytes + read <= MAX_HEADER_BYTES {
      var text := decode(s[..read]);
      BlankText(text, length);
      SaysNothing(length, n);
      if text.Some? && Trim(text.value) != [] {
        var rest := HeaderText(decode, s[read..], headerBytes + read);
        if rest.Some? { SaysMore(text.value, rest.value.0, length, n); }
      }
    }
  }

  lemma BlankText(text: Option<string>, length: Option<nat>)
    ensures text.None? ==> HeaderLine(text, length).Reject?
    ensures text.Some? ==> (HeaderLine(text, length).Blank? <==> Trim(text.value) == [])
  {
  }

  lemma SaysNothing(length: Option<nat>, n: nat)
    ensures Says([], length, n) <==> length == Some(n)
  {
  }

  /** The header loop accepts exactly the headers that end in time, consist of
      fields, and give one Content-Length, valid and within the limit. */
  lemma {:induction false} HeaderAcceptedExactlyWhen(decode: Decoder, s: seq<byte>, headerBytes: nat,
                                                     length: Option<nat>,
                                                     n: nat, consumed: nat)
    requires headerBytes <= MAX_HEADER_BYTES
    ensures ReadHeader(decode, s, headerBytes, length) == Complete(n, consumed)
            <==> Accepts(decode, s, headerBytes, length, n, consumed)
    decreases |s|
  {
    hide StepHeader, Accepts;
    AcceptsMore(decode, s, headerBytes, length, n, consumed);
    var step := StepHeader(decode, s, headerBytes, length);
    if step.Next? {
      HeaderAcceptedExactlyWhen(decode, s[step.read..], headerBytes + step.read, step.length, n, consumed);
    }
  }

  /** A message is accepted exactly when its header is and its body is complete. */
  lemma MessageAcceptedExactlyWhen(decode: Decoder, s: seq<byte>, body: seq<byte>, consumed: nat)
    ensures ReadMessage(decode, s) == Message(body, consumed) <==>
              var text := HeaderText(decode, s, 0);
              text.Some? && Says(text.value.0, None, |body|) && consumed == text.value.1 + |body| <= |s|
              && s[text.value.1..consumed] == body
  {
    hide ReadHeader, HeaderText, Says;
    if consumed >= |body| { HeaderAcceptedExactlyWhen(decode, s, 0, None, |body|, consumed - |body|); }
    if ReadHeader(decode, s, 0, None).Complete? {
      var h := ReadHeader(decode, s, 0, None);
      HeaderAcceptedExactlyWhen(decode, s, 0, None, h.length, h.consumed);
    }
  }

  // ----- The frame as text -----

  /** The two lines of the writer's header, spelled out. */
  lemma HeaderSpelled(n: nat)
    ensures LengthText(n) == "Content-Length: " + Decimal(n)
    ensures TYPE_TEXT == "Content-Type: application/vscode-jsonrpc; charset=utf-8"
  {
    assert LENGTH_NAME + ": " == "Content-Length: ";
    assert "Content-Type" + ": application/" == "Content-Type: application/";
    assert "Content-Type: application/" + "vscode-jsonrpc" == "Content-Type: application/vscode-jsonrpc";
  }

  // ----- What is served -----

  predicate MessageAt(decode: Decoder, s: seq<byte>, from: nat, to: nat, body: seq<byte>) {
    from < to <= |s| && ReadMessage(decode, s[from..]) == Message(body, to - from)
  }

  /** Where the message of this number begins. */
  function StartOf(ends: seq<nat>, i: nat): nat
    requires i <= |ends|
  {
    if i == 0 then 0 else ends[i - 1]
  }

  /** These messages stand one behind the other, and the last ends there. */
  ghost predicate Consecutive(decode: Decoder, s: seq<byte>, bodies: seq<seq<byte>>, ends: seq<nat>) {
    && |ends| == |bodies|
    && forall i | 0 <= i < |ends| :: MessageAt(decode, s, StartOf(ends, i), ends[i], bodies[i])
  }

  lemma MessageShifted(decode: Decoder, s: seq<byte>, k: nat, from: nat, to: nat, body: seq<byte>)
    requires k <= |s| && MessageAt(decode, s[k..], from, to, body)
    ensures MessageAt(decode, s, k + from, k + to, body)
  {
    hide ReadMessage;
    assert s[k..][from..] == s[k + from..];
  }

  lemma ConsecutiveMore(decode: Decoder, s: seq<byte>, body: seq<byte>, consumed: nat, bodies: seq<seq<byte>>,
                        ends: seq<nat>)
    returns (all: seq<nat>)
    requires consumed <= |s| && MessageAt(decode, s, 0, consumed, body)
    requires Consecutive(decode, s[consumed..], bodies, ends)
    ensures Consecutive(decode, s, [body] + bodies, all)
    ensures StartOf(all, |all|) == consumed + StartOf(ends, |ends|)
  {
    hide MessageAt;
    var shifted := seq(|ends|, i requires 0 <= i < |ends| => consumed + ends[i]);
    all := [consumed] + shifted;
    forall i | 0 <= i < |all| ensures MessageAt(decode, s, StartOf(all, i), all[i], ([body] + bodies)[i]) {
      if i > 0 {
        var j := i - 1;
        assert all[i] == shifted[j] && ([body] + bodies)[i] == bodies[j];
        assert StartOf(all, i) == consumed + StartOf(ends, j) by {
          if j > 0 { assert all[j] == shifted[j - 1]; }
        }
        MessageShifted(decode, s, consumed, StartOf(ends, j), ends[j], bodies[j]);
      }
    }
  }

  /** The bodies are those of the messages that stand one behind the other from the
      start of the input. A clean end is the end of the input; otherwise what comes next
      is no message. */
  lemma {:induction false} ServedAlong(decode: Decoder, s: seq<byte>) returns (ends: seq<nat>, last: nat)
    ensures Consecutive(decode, s, Served(decode, s).0, ends) && last == StartOf(ends, |ends|)
    ensures last <= |s| && if Served(decode, s).1 then last == |s| else ReadMessage(decode, s[last..]).Failed?
    decreases |s|
  {
    hide ReadMessage;
    var r := ReadMessage(decode, s);
    assert s[0..] == s;
    if r.Message? {
      ConsumedWithin(decode, s);
      var more, end := ServedAlong(decode, s[r.consumed..]);
      ends := ConsecutiveMore(decode, s, r.body, r.consumed, Served(decode, s[r.consumed..]).0, more);
      last := r.consumed + end;
      assert s[r.consumed..][end..] == s[last..];
    } else {
      ends, last := [], 0;
      EndIsEmpty(decode, s);
    }
  }

  lemma ConsumedWithin(decode: Decoder, s: seq<byte>)
    ensures ReadMessage(decode, s).Message? ==> 0 < ReadMessage(decode, s).consumed <= |s|
  {
  }

  lemma EndIsEmpty(decode: Decoder, s: seq<byte>)
    ensures ReadMessage(decode, s).EndOfInput? ==> s == []
  {
  }
}
