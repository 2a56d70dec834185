/** Token recognition of the POSIX Shell Command Language (POSIX.1-2017, volume XCU,
    sections 2.2 and 2.3) for text without expansions. */
module ShellWords {
  import opened Basics

  datatype Token = Word(text: string) | Operator(symbol: string)

  datatype Mode =
    | Unquoted
    | Escape              // after a backslash outside quotes
    | Single              // within single quotes
    | Double              // within double quotes
    | DoubleEscape        // after a backslash within double quotes
    | InOperator(symbol: string)
    | Comment
    | Closed              // past the parenthesis that ends the text
    | Stuck               // an expansion, or a character no shell accepts

  /** `word` is the current word with its quotes removed; `depth` counts open
      parentheses and `consumed` the characters up to the closing one. */
  datatype Scanner = Scanner(mode: Mode, word: Option<string>, tokens: seq<Token>, depth: nat, consumed: nat)

  const START := Scanner(Unquoted, None, [], 0, 0)

  /** Expansions of section 2.6 and the patterns of section 2.13. */
  predicate Expands(c: char) {
    c == '$' || c == '`' || c == '*' || c == '?' || c == '[' || c == '~'
  }

  predicate IsBlank(c: char) {
    c == ' ' || c == '\t'
  }

  predicate StartsOperator(c: char) {
    c == '&' || c == '|' || c == ';' || c == '<' || c == '>' || c == '(' || c == ')' || c == '\n'
  }

  predicate ExtendsOperator(op: string, c: char) {
    if |op| == 1 then
      match op[0]
      case '&' => c == '&'
      case '|' => c == '|'
      case ';' => c == ';'
      case '<' => c == '<' || c == '&' || c == '>'
      case '>' => c == '>' || c == '&' || c == '|'
      case _ => false
    else
      |op| == 2 && op[0] == op[1] == '<' && c == '-'
  }

  function TextOf(word: Option<string>): string {
    if word.Some? then word.value else ""
  }

  function Appended(st: Scanner, c: char): Scanner {
    st.(word := Some(TextOf(st.word) + [c]))
  }

  /** Quotes make a word even when nothing is between them. */
  function Opened(st: Scanner, mode: Mode): Scanner {
    st.(mode := mode, word := Some(TextOf(st.word)))
  }

  function Delimited(st: Scanner): Scanner {
    if st.word.Some? then st.(word := None, tokens := st.tokens + [Word(st.word.value)]) else st
  }

  function StepUnquoted(st: Scanner, c: char): Scanner {
    if Expands(c) then st.(mode := Stuck)
    else if c == '\\' then st.(mode := Escape)
    else if c == '\'' then Opened(st, Single)
    else if c == '"' then Opened(st, Double)
    else if c == ')' && st.depth == 0 then Delimited(st).(mode := Closed)
    else if c == '(' then Delimited(st).(tokens := Delimited(st).tokens + [Operator("(")], depth := st.depth + 1)
    else if c == ')' then Delimited(st).(tokens := Delimited(st).tokens + [Operator(")")], depth := st.depth - 1)
    else if StartsOperator(c) then Delimited(st).(mode := InOperator([c]))
    else if IsBlank(c) then Delimited(st)
    else if c == '#' && st.word.None? then st.(mode := Comment)
    else Appended(st, c)
  }

  function AfterOperator(st: Scanner): Scanner {
    if st.mode.InOperator? then st.(mode := Unquoted, tokens := st.tokens + [Operator(st.mode.symbol)]) else st
  }

  function StepMode(st: Scanner, c: char): Scanner {
    match st.mode
    case Unquoted => StepUnquoted(st, c)
    case Escape => if c == '\n' then st.(mode := Unquoted) else Appended(st.(mode := Unquoted), c)
    case Single => if c == '\'' then st.(mode := Unquoted) else Appended(st, c)
    case Double =>
      if c == '"' then st.(mode := Unquoted)
      else if c == '$' || c == '`' then st.(mode := Stuck)
      else if c == '\\' then st.(mode := DoubleEscape)
      else Appended(st, c)
    case DoubleEscape =>
      var inside := st.(mode := Double);
      if c == '\n' then inside
      else if c == '$' || c == '`' || c == '"' || c == '\\' then Appended(inside, c)
      else Appended(Appended(inside, '\\'), c)
    case InOperator(op) =>
      if ExtendsOperator(op, c) then st.(mode := InOperator(op + [c]))
      else StepUnquoted(AfterOperator(st), c)
    case Comment => if c == '\n' then st.(mode := InOperator("\n")) else st
    case Closed => st
    case Stuck => st
  }

  const NUL: char := '\0'

  function Step(st: Scanner, c: char): Scanner {
    if st.mode.Closed? then st
    else if c == NUL then st.(mode := Stuck)
    else StepMode(st, c).(consumed := st.consumed + 1)
  }

  function Scan(st: Scanner, s: string): Scanner
    decreases |s|
  {
    if s == [] then st else Scan(Step(st, s[0]), s[1..])
  }

  /** The tokens of a whole text, when it has no expansion and its quotes are closed. */
  function Tokens(s: string): Option<seq<Token>> {
    var st := AfterOperator(Scan(START, s));
    match st.mode
    case Unquoted => Some(Delimited(st).tokens)
    case Comment => Some(st.tokens)
    case _ => None
  }

  /** The tokens up to the parenthesis that closes a command substitution whose
      body the text starts with, and how many characters that takes. */
  function Substitution(s: string): Option<(seq<Token>, nat)> {
    var st := Scan(START, s);
    if st.mode.Closed? then Some((st.tokens, st.consumed)) else None
  }

  lemma {:induction false} ScanAppend(st: Scanner, a: string, b: string)
    ensures Scan(st, a + b) == Scan(Scan(st, a), b)
    decreases |a|
  {
    if a == [] {
      assert a + b == b;
    } else {
      assert (a + b)[1..] == a[1..] + b;
      ScanAppend(Step(st, a[0]), a[1..], b);
    }
  }

  lemma {:induction false} StuckForever(st: Scanner, s: string)
    requires st.mode.Stuck?
    ensures Scan(st, s).mode.Stuck?
    decreases |s|
  {
    if s != [] { StuckForever(Step(st, s[0]), s[1..]); }
  }

  lemma {:induction false} ClosedForever(st: Scanner, s: string)
    requires st.mode.Closed?
    ensures Scan(st, s) == st
  {
    if s != [] { ClosedForever(st, s[1..]); }
  }

  lemma ScanFirst(st: Scanner, c: char, s: string)
    ensures Scan(st, [c] + s) == Scan(Step(st, c), s)
  {
    assert ([c] + s)[1..] == s;
  }

  lemma ScanOne(st: Scanner, c: char)
    ensures Scan(st, [c]) == Step(st, c)
  {
    assert [c][1..] == [];
  }
}
