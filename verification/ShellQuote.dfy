/** Quoting of arguments for a POSIX shell, undone by the shell's tokenizer. */
module ShellQuote {
  import opened Basics
  import opened ShellWords
  import Text

  predicate IsSafe(c: char) {
    'a' <= c <= 'z' || 'A' <= c <= 'Z' || '0' <= c <= '9' || c == '_' || c == '@' || c == '%' || c == '+'
    || c == '=' || c == ':' || c == ',' || c == '.' || c == '/' || c == '-'
  }

  predicate AllSafe(s: string) {
    forall c | c in s :: IsSafe(c)
  }

  const QUOTED_QUOTE := "'\"'\"'"

  /** `replace` of each single quote. */
  function Replaced(s: string): string {
    if s == [] then [] else (if s[0] == '\'' then QUOTED_QUOTE else [s[0]]) + Replaced(s[1..])
  }

  function QuoteShellArgument(argument: string): (quoted: string)
    ensures quoted != [] && quoted[0] != NUL
  {
    if argument != [] && AllSafe(argument) then
      assert IsSafe(argument[0]);
      argument
    else "'" + Replaced(argument) + "'"
  }

  predicate NulFree(s: string) {
    NUL !in s
  }

  /** The scanner after a word's text was read in place. */
  function Read(st: Scanner, s: string, length: nat): Scanner {
    st.(word := Some(TextOf(st.word) + s), consumed := st.consumed + length)
  }

  lemma SafeStep(st: Scanner, c: char)
    requires IsSafe(c) && st.mode.Unquoted?
    ensures Step(st, c) == Read(st, [c], 1)
  {
  }

  lemma {:induction false} SafeRead(st: Scanner, s: string)
    requires st.mode.Unquoted? && s != [] && AllSafe(s)
    ensures Scan(st, s) == Read(st, s, |s|)
    decreases |s|
  {
    SafeStep(st, s[0]);
    if |s| > 1 {
      SafeRead(Step(st, s[0]), s[1..]);
      assert TextOf(st.word) + [s[0]] + s[1..] == TextOf(st.word) + s;
    } else {
      assert [s[0]] == s && s[1..] == [];
    }
  }

  lemma QuotedQuoteRead(st: Scanner)
    requires st.mode.Single? && st.word.Some?
    ensures Scan(st, QUOTED_QUOTE) == Read(st, "'", 5)
  {
    hide Scan;
    var s1 := Step(st, '\'');
    var s2 := Step(s1, '"');
    var s3 := Step(s2, '\'');
    var s4 := Step(s3, '"');
    assert Step(s4, '\'') == Read(st, "'", 5);
    assert QUOTED_QUOTE == "'" + ("\"" + ("'" + ("\"" + "'")));
    ScanFirst(st, '\'', "\"" + ("'" + ("\"" + "'")));
    ScanFirst(s1, '"', "'" + ("\"" + "'"));
    ScanFirst(s2, '\'', "\"" + "'");
    ScanFirst(s3, '"', "'");
    ScanOne(s4, '\'');
  }

  lemma {:induction false} ReplacedRead(st: Scanner, s: string)
    requires st.mode.Single? && st.word.Some? && NulFree(s)
    ensures Scan(st, Replaced(s)) == Read(st, s, |Replaced(s)|)
    decreases |s|
  {
    if s == [] {
      assert TextOf(st.word) + s == TextOf(st.word);
    } else {
      var head := if s[0] == '\'' then QUOTED_QUOTE else [s[0]];
      ScanAppend(st, head, Replaced(s[1..]));
      if s[0] == '\'' { QuotedQuoteRead(st); } else { assert [s[0]][1..] == []; }
      var next := Read(st, [s[0]], |head|);
      assert Scan(st, head) == next;
      ReplacedRead(next, s[1..]);
      assert TextOf(st.word) + [s[0]] + s[1..] == TextOf(st.word) + s;
    }
  }

  /** Wherever a word may stand or go on outside quotes, the quoted argument adds
      exactly the argument's characters to it. */
  lemma QuoteRead(st: Scanner, s: string)
    requires st.mode.Unquoted? && NulFree(s)
    ensures Scan(st, QuoteShellArgument(s)) == Read(st, s, |QuoteShellArgument(s)|)
  {
    if s != [] && AllSafe(s) {
      SafeRead(st, s);
    } else {
      var inQuotes := Step(st, '\'');
      ScanAppend(st, "'" + Replaced(s), "'");
      ScanAppend(st, "'", Replaced(s));
      assert "'"[1..] == [] && Scan(st, "'") == inQuotes;
      ReplacedRead(inQuotes, s);
      var inside := Read(inQuotes, s, |Replaced(s)|);
      assert Scan(inside, "'") == Step(inside, '\'');
    }
  }

  lemma {:induction false} ReplacedAppend(a: string, b: string)
    ensures Replaced(a + b) == Replaced(a) + Replaced(b)
  {
    if a == [] {
      assert a + b == b;
    } else {
      assert (a + b)[1..] == a[1..] + b;
      ReplacedAppend(a[1..], b);
    }
  }

  lemma NulSticks(st: Scanner, s: string)
    requires st.mode.Single? && st.word.Some? && NUL in s
    ensures Scan(st, Replaced(s)).mode.Stuck?
  {
    var k := Text.Find(s, NUL).value;
    assert s == s[..k] + ([NUL] + s[k + 1..]);
    ReplacedAppend(s[..k], [NUL] + s[k + 1..]);
    ScanAppend(st, Replaced(s[..k]), Replaced([NUL] + s[k + 1..]));
    ReplacedRead(st, s[..k]);
    StuckAfterNul(Scan(st, Replaced(s[..k])), s[k + 1..]);
  }

  lemma StuckAfterNul(st: Scanner, rest: string)
    requires st.mode.Single?
    ensures Scan(st, Replaced([NUL] + rest)).mode.Stuck?
  {
    assert ([NUL] + rest)[1..] == rest;
    assert ([NUL] + Replaced(rest))[1..] == Replaced(rest);
    StuckForever(Step(st, NUL), Replaced(rest));
  }

  /** As a whole command line, the quoted argument is one word, the argument itself,
      exactly when a shell argument can be that text at all. */
  lemma QuoteIsOneWord(s: string)
    ensures Tokens(QuoteShellArgument(s)) == Some([Word(s)]) <==> NulFree(s)
    ensures !NulFree(s) ==> Tokens(QuoteShellArgument(s)) == None
  {
    if NulFree(s) {
      QuoteRead(START, s);
      assert "" + s == s;
      assert [] + [Word(s)] == [Word(s)];
    } else {
      var inQuotes := Step(START, '\'');
      ScanAppend(START, "'" + Replaced(s), "'");
      ScanAppend(START, "'", Replaced(s));
      ScanOne(START, '\'');
      NulSticks(inQuotes, s);
      StuckForever(Scan(inQuotes, Replaced(s)), "'");
    }
  }

  /** Different arguments are never quoted alike. */
  lemma QuoteInjective(s: string, t: string)
    requires NulFree(s) && NulFree(t) && QuoteShellArgument(s) == QuoteShellArgument(t)
    ensures s == t
  {
    QuoteIsOneWord(s);
    QuoteIsOneWord(t);
  }

  lemma DelimiterStep(st: Scanner, w: string, c: char)
    requires st.mode.Unquoted? && st.word.None? && (IsBlank(c) || StartsOperator(c))
    ensures Step(st.(word := Some(w)), c) == Step(st.(tokens := st.tokens + [Word(w)]), c)
  {
  }

  /** A word may begin with this character here: after a blank, at the start of a line
      or after an operator that the character does not continue. */
  predicate BetweenWords(st: Scanner, c: char) {
    st.word.None? && (st.mode.Unquoted? || (st.mode.InOperator? && !ExtendsOperator(st.mode.symbol, c)))
  }

  /** A word ends before this text. */
  predicate EndsWord(after: string) {
    after == [] || IsBlank(after[0]) || StartsOperator(after[0])
  }

  /** Digits directly before a redirection number a file descriptor (section 2.10.1). */
  predicate IsIoNumber(s: string, after: string) {
    (forall c | c in s :: '0' <= c <= '9') && after != [] && (after[0] == '<' || after[0] == '>')
  }

  /** After an operator that is complete, the scanner is between words. */
  lemma OperatorCompleted(st: Scanner, s: string)
    requires s != [] && s[0] != NUL && st.mode.InOperator? && !ExtendsOperator(st.mode.symbol, s[0])
    ensures Scan(st, s) == Scan(AfterOperator(st), s)
  {
    SameStep(st, AfterOperator(st), s);
  }

  lemma QuoteBetweenWords(st: Scanner, s: string)
    requires NulFree(s) && BetweenWords(st, QuoteShellArgument(s)[0])
    ensures var quoted := QuoteShellArgument(s);
            Scan(st, quoted) == AfterOperator(st).(word := Some(s), consumed := st.consumed + |quoted|)
  {
    hide Step, Scan;
    if st.mode.InOperator? { OperatorCompleted(st, QuoteShellArgument(s)); }
    QuoteRead(AfterOperator(st), s);
    assert "" + s == s;
  }

  /** In any command line, where a word may begin and up to where it ends, the quoted
      argument is one token more, and the text around it is read as if it were not
      there; at the end of the line it is the last token. */
  lemma QuoteInContext(before: string, s: string, after: string)
    requires NulFree(s) && BetweenWords(Scan(START, before), QuoteShellArgument(s)[0])
    requires EndsWord(after) && !IsIoNumber(s, after)
    ensures var st := AfterOperator(Scan(START, before));
            var line := before + QuoteShellArgument(s) + after;
            var tokens := st.tokens + [Word(s)];
            && (after == [] ==> Tokens(line) == Some(tokens))
            && (after != [] ==>
                  Scan(START, line)
                  == Scan(st.(tokens := tokens, consumed := st.consumed + |QuoteShellArgument(s)|), after))
  {
    hide Step, Scan;
    var st := Scan(START, before);
    var quoted := QuoteShellArgument(s);
    ScanAppend(START, before + quoted, after);
    ScanAppend(START, before, quoted);
    QuoteBetweenWords(st, s);
    if after == [] {
      assert before + quoted + after == before + quoted;
    } else {
      var read := AfterOperator(st).(consumed := st.consumed + |quoted|);
      DelimiterStep(read, s, after[0]);
      SameStep(read.(word := Some(s)), read.(tokens := read.tokens + [Word(s)]), after);
    }
  }

  lemma SameStep(a: Scanner, b: Scanner, s: string)
    requires s != [] && Step(a, s[0]) == Step(b, s[0])
    ensures Scan(a, s) == Scan(b, s)
  {
  }

  // ----- Startup commands -----

  const SCRIPT_PREFIX := ". "

  /** The command that sources a startup script. */
  function ScriptCommand(script: string): string {
    SCRIPT_PREFIX + QuoteShellArgument(script)
  }

  lemma ScriptCommandWords(script: string)
    requires NulFree(script)
    ensures Tokens(ScriptCommand(script)) == Some([Word("."), Word(script)])
  {
    var between := START.(tokens := [Word(".")], consumed := 2);
    ScriptPrefixRead();
    ScanAppend(START, SCRIPT_PREFIX, QuoteShellArgument(script));
    QuoteRead(between, script);
    assert "" + script == script;
    assert [Word(".")] + [Word(script)] == [Word("."), Word(script)];
  }

  lemma ScriptPrefixRead()
    ensures Scan(START, SCRIPT_PREFIX) == START.(tokens := [Word(".")], consumed := 2)
  {
    SafeStep(START, '.');
    ScanOne(START, '.');
    ScanAppend(START, ".", " ");
    var dot := START.(word := Some("."), consumed := 1);
    assert "" + "." == "." && Step(START, '.') == dot;
    BlankStep(dot);
    assert [] + [Word(".")] == [Word(".")];
    ScanOne(dot, ' ');
  }

  lemma BlankStep(st: Scanner)
    requires st.mode.Unquoted? && st.word.Some?
    ensures Step(st, ' ') == st.(word := None, tokens := st.tokens + [Word(st.word.value)], consumed := st.consumed + 1)
  {
  }

  const ASSIGNMENT := "_ret_module_code=\"$("
  const LOAD := " sh load "
  const EVALUATION := ")\" && eval \"$_ret_module_code\""

  function ModuleSubstitution(modulecmd: string, moduleName: string): string {
    QuoteShellArgument(modulecmd) + LOAD + QuoteShellArgument(moduleName)
  }

  function ModuleStartupCommand(modulecmd: string, moduleName: string): string {
    ASSIGNMENT + ModuleSubstitution(modulecmd, moduleName) + EVALUATION
  }

  lemma LoadRead(st: Scanner)
    requires st.mode.Unquoted? && st.word.Some?
    ensures Scan(st, LOAD)
         == st.(word := None, tokens := st.tokens + [Word(st.word.value), Word("sh"), Word("load")],
               consumed := st.consumed + 9)
  {
    hide Step, Scan;
    var a := st.(word := None, tokens := st.tokens + [Word(st.word.value)], consumed := st.consumed + 1);
    var b := a.(tokens := a.tokens + [Word("sh")], consumed := a.consumed + 3);
    BlankStep(st);
    ScanOne(st, ' ');
    WordRead(a, "sh");
    WordRead(b, "load");
    ScanThree(st, " ", a, "sh" + " ", b, "load" + " ");
    assert LOAD == " " + ("sh" + " ") + ("load" + " ");
  }

  lemma ScanThree(st: Scanner, x: string, a: Scanner, y: string, b: Scanner, z: string)
    requires Scan(st, x) == a && Scan(a, y) == b
    ensures Scan(st, x + y + z) == Scan(b, z)
  {
    hide Step, Scan;
    ScanAppend(st, x + y, z);
    ScanAppend(st, x, y);
  }

  /** A safe word and the blank after it. */
  lemma WordRead(st: Scanner, w: string)
    requires st.mode.Unquoted? && st.word.None? && w != [] && AllSafe(w)
    ensures Scan(st, w + " ") == st.(tokens := st.tokens + [Word(w)], consumed := st.consumed + |w| + 1)
  {
    hide Step, Scan, AllSafe;
    var read := st.(word := Some(w), consumed := st.consumed + |w|);
    FreshWordRead(st, w);
    ScanAppend(st, w, " ");
    ScanOne(read, ' ');
    BlankStep(read);
  }

  lemma FreshWordRead(st: Scanner, w: string)
    requires st.mode.Unquoted? && st.word.None? && w != [] && AllSafe(w)
    ensures Scan(st, w) == st.(word := Some(w), consumed := st.consumed + |w|)
  {
    hide Step, Scan, AllSafe;
    SafeRead(st, w);
    assert "" + w == w;
  }

  /** The shell reads the command substitution of the template as four words, and
      the parenthesis that ends it is the template's own. */
  lemma ModuleSubstitutionWords(modulecmd: string, moduleName: string)
    requires NulFree(modulecmd) && NulFree(moduleName)
    ensures var body := ModuleSubstitution(modulecmd, moduleName);
            Substitution(ModuleStartupCommand(modulecmd, moduleName)[|ASSIGNMENT|..])
            == Some(([Word(modulecmd), Word("sh"), Word("load"), Word(moduleName)], |body| + 1))
  {
    hide Step, Scan;
    var first, second := QuoteShellArgument(modulecmd), QuoteShellArgument(moduleName);
    var text := first + LOAD + second + EVALUATION;
    assert ModuleStartupCommand(modulecmd, moduleName)[|ASSIGNMENT|..] == text;
    ScanAppend(START, first + LOAD + second, EVALUATION);
    ModuleWordsRead(modulecmd, moduleName);
    EvaluationRead(Scan(START, first + LOAD + second));
    assert [Word(modulecmd), Word("sh"), Word("load")] + [Word(moduleName)]
        == [Word(modulecmd), Word("sh"), Word("load"), Word(moduleName)];
  }

  lemma ModuleWordsRead(modulecmd: string, moduleName: string)
    requires NulFree(modulecmd) && NulFree(moduleName)
    ensures var body := ModuleSubstitution(modulecmd, moduleName);
            Scan(START, body) == START.(word := Some(moduleName), tokens := [Word(modulecmd), Word("sh"), Word("load")],
                                        consumed := |body|)
  {
    hide Step, Scan;
    var first, second := QuoteShellArgument(modulecmd), QuoteShellArgument(moduleName);
    ScanAppend(START, first + LOAD, second);
    ScanAppend(START, first, LOAD);
    QuoteRead(START, modulecmd);
    assert "" + modulecmd == modulecmd && "" + moduleName == moduleName;
    var command := START.(word := Some(modulecmd), consumed := |first|);
    LoadRead(command);
    assert [] + [Word(modulecmd), Word("sh"), Word("load")] == [Word(modulecmd), Word("sh"), Word("load")];
    var loading := START.(tokens := [Word(modulecmd), Word("sh"), Word("load")], consumed := |first| + 9);
    assert Scan(command, LOAD) == loading;
    QuoteRead(loading, moduleName);
  }

  lemma ClosingStep(st: Scanner)
    requires st.mode.Unquoted? && st.depth == 0 && st.word.Some?
    ensures Step(st, ')')
         == st.(mode := Closed, word := None, tokens := st.tokens + [Word(st.word.value)], consumed := st.consumed + 1)
  {
  }

  lemma EvaluationRead(st: Scanner)
    requires st.mode.Unquoted? && st.depth == 0 && st.word.Some?
    ensures Scan(st, EVALUATION)
         == st.(mode := Closed, word := None, tokens := st.tokens + [Word(st.word.value)], consumed := st.consumed + 1)
  {
    hide Step, Scan;
    var rest := "\" && eval \"$_ret_module_code\"";
    assert EVALUATION == ")" + rest;
    ScanAppend(st, ")", rest);
    ScanOne(st, ')');
    ClosingStep(st);
    ClosedForever(Step(st, ')'), rest);
  }
}
