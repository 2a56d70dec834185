/** The parser of `r-versions` files: blocks of fields, ended by blank lines. */
module RVersions {
  import opened Basics
  import opened Text

  datatype Entry = Entry(path: Option<string>, labelText: Option<string>, module_: Option<string>,
                         script: Option<string>, repo: Option<string>, library: Option<string>)

  const EMPTY := Entry(None, None, None, None, None, None)

  predicate HasAnyFields(e: Entry) {
    e.path.Some? || e.labelText.Some? || e.module_.Some? || e.script.Some? || e.repo.Some? || e.library.Some?
  }

  predicate Usable(e: Entry) {
    e.path.Some? || e.module_.Some?
  }

  /** The entry being read, and those finished. */
  datatype Parser = Parser(current: Entry, entries: seq<Entry>)

  const START := Parser(EMPTY, [])

  function Finished(p: Parser): Parser {
    if Usable(p.current) then Parser(EMPTY, p.entries + [p.current])
    else if HasAnyFields(p.current) then Parser(EMPTY, p.entries)
    else p
  }

  function Lowered(s: string): string {
    seq(|s|, i requires 0 <= i < |s| => LowerChar(s[i]))
  }

  function WithField(e: Entry, key: string, value: string): Entry {
    match key
    case "path" => e.(path := Some(value))
    case "label" => e.(labelText := Some(value))
    case "module" => e.(module_ := Some(value))
    case "script" => e.(script := Some(value))
    case "repo" => e.(repo := Some(value))
    case "library" => e.(library := Some(value))
    case _ => e
  }

  function ReadLine(p: Parser, line: string): Parser {
    var trimmed := Trim(line);
    if trimmed == [] then Finished(p)
    else if trimmed[0] == '#' then p
    else
      var colon := Find(trimmed, ':');
      if colon.None? then
        var done := Finished(p);
        done.(entries := done.entries + [EMPTY.(path := Some(trimmed))])
      else
        var key := Lowered(Trim(trimmed[..colon.value]));
        p.(current := WithField(p.current, key, Trim(trimmed[colon.value + 1..])))
  }

  function ReadLines(p: Parser, lines: seq<string>): Parser
    decreases |lines|
  {
    if lines == [] then p else ReadLines(ReadLine(p, lines[0]), lines[1..])
  }

  /** `str::lines`; a carriage return it would strip is trimmed anyway. */
  function Lines(content: string): seq<string> {
    var pieces := Split(content, '\n');
    if pieces[|pieces| - 1] == [] then pieces[..|pieces| - 1] else pieces
  }

  function Parse(content: string): seq<Entry> {
    ReadLines(START, Lines(content) + [""]).entries
  }

  // ----- The parser -----

  method FinishEntry(current: Entry, entries: seq<Entry>) returns (next: Entry, done: seq<Entry>)
    ensures Parser(next, done) == Finished(Parser(current, entries))
    // Afterwards nothing is being read, and only a usable entry was added.
    ensures next == EMPTY && done == if Usable(current) then entries + [current] else entries
  {
    next, done := current, entries;
    if current.path.Some? || current.module_.Some? {
      done := entries + [current];
      next := EMPTY;
    } else if HasAnyFields(current) {
      next := EMPTY;
    }
  }

  method ParseRVersionsFile(content: string) returns (entries: seq<Entry>)
    ensures entries == Parse(content)
    ensures forall e | e in entries :: Usable(e)
  {
    entries := [];
    var current := EMPTY;
    var lines := Lines(content) + [""];
    for i := 0 to |lines|
      invariant ReadLines(START, lines) == ReadLines(Parser(current, entries), lines[i..])
      invariant forall e | e in entries :: Usable(e)
    {
      ghost var before := Parser(current, entries);
      assert lines[i..][1..] == lines[i + 1..];
      var trimmed := Trim(lines[i]);
      if trimmed == [] {
        current, entries := FinishEntry(current, entries);
      } else if trimmed[0] != '#' {
        var colon := Find(trimmed, ':');
        if colon.None? {
          current, entries := FinishEntry(current, entries);
          entries := entries + [EMPTY.(path := Some(trimmed))];
        } else {
          current := WithField(current, Lowered(Trim(trimmed[..colon.value])), Trim(trimmed[colon.value + 1..]));
        }
      }
      assert Parser(current, entries) == ReadLine(before, lines[i]);
    }
  }

  // ----- Blocks -----

  lemma {:induction false} ReadAppend(p: Parser, a: seq<string>, b: seq<string>)
    ensures ReadLines(p, a + b) == ReadLines(ReadLines(p, a), b)
    decreases |a|
  {
    if a == [] {
      assert a + b == b;
    } else {
      assert (a + b)[1..] == a[1..] + b;
      ReadAppend(ReadLine(p, a[0]), a[1..], b);
    }
  }

  lemma ReadOne(p: Parser, line: string)
    ensures ReadLines(p, [line]) == ReadLine(p, line)
  {
    assert [line][1..] == [];
  }

  /** Entries finished earlier do not influence what is read. */
  lemma {:induction false} EarlierEntries(current: Entry, earlier: seq<Entry>, entries: seq<Entry>, lines: seq<string>)
    ensures var r := ReadLines(Parser(current, entries), lines);
            ReadLines(Parser(current, earlier + entries), lines) == Parser(r.current, earlier + r.entries)
    decreases |lines|
  {
    if lines != [] {
      var p := ReadLine(Parser(current, entries), lines[0]);
      EarlierEntriesOneLine(current, earlier, entries, lines[0]);
      EarlierEntries(p.current, earlier, p.entries, lines[1..]);
    }
  }

  lemma EarlierEntriesOneLine(current: Entry, earlier: seq<Entry>, entries: seq<Entry>, line: string)
    ensures var r := ReadLine(Parser(current, entries), line);
            ReadLine(Parser(current, earlier + entries), line) == Parser(r.current, earlier + r.entries)
  {
    var p, q := Parser(current, entries), Parser(current, earlier + entries);
    assert Finished(q) == Parser(Finished(p).current, earlier + Finished(p).entries) by {
      assert earlier + entries + [current] == earlier + (entries + [current]);
    }
    var shorthand := EMPTY.(path := Some(Trim(line)));
    assert Finished(q).entries + [shorthand] == earlier + (Finished(p).entries + [shorthand]);
  }

  lemma BlankLineResets(p: Parser, line: string)
    requires Trim(line) == []
    ensures ReadLine(p, line) == Parser(EMPTY, ReadLine(p, line).entries)
    ensures ReadLine(ReadLine(p, line), line) == ReadLine(p, line)
  {
  }

  /** A blank line between two lists of lines separates what they mean. */
  lemma BlankSeparatesLines(a: seq<string>, blank: string, b: seq<string>)
    requires Trim(blank) == []
    ensures ReadLines(START, a + [blank] + b + [""]).entries
         == ReadLines(START, a + [""]).entries + ReadLines(START, b + [""]).entries
  {
    var middle := ReadLines(START, a + [blank]);
    ReadAppend(START, a, [blank]);
    ReadAppend(START, a, [""]);
    ReadOne(ReadLines(START, a), blank);
    ReadOne(ReadLines(START, a), "");
    assert middle == Parser(EMPTY, middle.entries) && ReadLines(START, a + [""]) == middle;
    assert a + [blank] + b + [""] == (a + [blank]) + (b + [""]);
    ReadAppend(START, a + [blank], b + [""]);
    EarlierEntries(EMPTY, middle.entries, [], b + [""]);
    assert middle.entries + [] == middle.entries;
  }

  lemma Regroup(x: string, y: string, z: string, c: char)
    ensures x + [c] + y + [c] + z == x + [c] + (y + [c] + z)
  {
  }

  lemma SplitAroundLine(a: string, line: string, b: string)
    requires '\n' !in line
    ensures Split(a + "\n" + line + "\n" + b, '\n') == Split(a, '\n') + [line] + Split(b, '\n')
  {
    hide Split, Join, Find;
    Regroup(a, line, b, '\n');
    SplitConcat(a, line + ['\n'] + b, '\n');
    SplitConcat(line, b, '\n');
    SplitLine(line, '\n');
  }

  lemma SplitLine(line: string, c: char)
    requires c !in line
    ensures Split(line, c) == [line]
  {
  }

  lemma {:induction false} SplitConcat(a: string, b: string, c: char)
    ensures Split(a + [c] + b, c) == Split(a, c) + Split(b, c)
    decreases |a|
  {
    var s := a + [c] + b;
    var i := Find(a, c);
    if i.None? {
      FindAfter(a, b, c);
      assert s[..|a|] == a && s[|a| + 1..] == b;
    } else {
      var head, tail := a[..i.value], a[i.value + 1..];
      Regroup(head, tail, b, c);
      var rest := tail + [c] + b;
      assert a == head + [c] + tail;
      FindAfter(head, rest, c);
      assert s[..|head|] == head && s[|head| + 1..] == rest;
      SplitConcat(tail, b, c);
    }
  }

  /** An empty last line is one blank line more, which changes nothing. */
  lemma ParseOfPieces(content: string)
    ensures Parse(content) == ReadLines(START, Split(content, '\n') + [""]).entries
  {
    var pieces := Split(content, '\n');
    var n := |pieces| - 1;
    if pieces[n] == [] {
      assert pieces == pieces[..n] + [""];
      var p := ReadLines(START, pieces[..n] + [""]);
      ReadAppend(START, pieces[..n], [""]);
      ReadOne(ReadLines(START, pieces[..n]), "");
      ReadAppend(START, pieces, [""]);
      ReadOne(p, "");
      BlankLineResets(ReadLines(START, pieces[..n]), "");
    }
  }

  /** Parsing is compositional: two texts joined by a blank line mean the entries
      of the first followed by those of the second. */
  lemma BlankLineSeparates(a: string, blank: string, b: string)
    requires Trim(blank) == [] && '\n' !in blank
    ensures Parse(a + "\n" + blank + "\n" + b) == Parse(a) + Parse(b)
  {
    SplitAroundLine(a, blank, b);
    BlankSeparatesLines(Split(a, '\n'), blank, Split(b, '\n'));
    ParseOfPieces(a + "\n" + blank + "\n" + b);
    ParseOfPieces(a);
    ParseOfPieces(b);
  }

  // ----- Other lines -----

  /** A line that is neither blank, nor a comment, nor a field. */
  predicate IsBarePath(line: string) {
    Trim(line) != [] && Trim(line)[0] != '#' && ':' !in Trim(line)
  }

  /** The line gives the field of this key, in any case of its letters. */
  predicate Names(line: string, key: string) {
    var t := Trim(line);
    t != [] && t[0] != '#' && ':' in t && Spells(Trim(t[..Find(t, ':').value]), key)
  }

  function ValueIn(line: string): string
    requires ':' in Trim(line)
  {
    Trim(Trim(line)[Find(Trim(line), ':').value + 1..])
  }

  predicate IsKey(key: string) {
    key in {"path", "label", "module", "script", "repo", "library"}
  }

  /** A comment, or a field with some other key. */
  predicate IsIgnored(line: string) {
    && Trim(line) != []
    && (Trim(line)[0] == '#'
        || (':' in Trim(line) && !Names(line, "path") && !Names(line, "label") && !Names(line, "module")
            && !Names(line, "script") && !Names(line, "repo") && !Names(line, "library")))
  }

  lemma LoweredSpells(name: string, key: string)
    requires forall i | 0 <= i < |key| :: !('A' <= key[i] <= 'Z')
    ensures Lowered(name) == key <==> Spells(name, key)
  {
    var l := Lowered(name);
    if |name| == |key| {
      forall i | 0 <= i < |key| ensures l[i] == key[i] <==> SameLetter(name[i], key[i]) {
        LowerCharLetter(name[i], key[i]);
      }
      if l == key {
        forall i | 0 <= i < |name| ensures SameLetter(name[i], key[i]) {}
      }
    }
  }

  lemma KeyRead(p: Parser, line: string, key: string)
    requires IsKey(key) && Names(line, key)
    ensures ReadLine(p, line) == p.(current := WithField(p.current, key, ValueIn(line)))
  {
    LoweredSpells(Trim(Trim(line)[..Find(Trim(line), ':').value]), key);
  }

  lemma IgnoredLineKeeps(p: Parser, line: string)
    requires IsIgnored(line)
    ensures ReadLine(p, line) == p
  {
    var t := Trim(line);
    if t[0] != '#' {
      var name := Trim(t[..Find(t, ':').value]);
      LoweredSpells(name, "path");
      LoweredSpells(name, "label");
      LoweredSpells(name, "module");
      LoweredSpells(name, "script");
      LoweredSpells(name, "repo");
      LoweredSpells(name, "library");
    }
    hide Lowered, Trim, Spells;
  }

  lemma IgnoredInLines(a: seq<string>, line: string, b: seq<string>)
    requires IsIgnored(line)
    ensures ReadLines(START, a + [line] + b) == ReadLines(START, a + b)
  {
    var p := ReadLines(START, a);
    IgnoredLineKeeps(p, line);
    ReadOne(p, line);
    ReadAppend(START, a, [line]);
    ReadAppend(START, a + [line], b);
    ReadAppend(START, a, b);
    hide ReadLine, ReadLines;
  }

  lemma Reassociate<T>(x: seq<T>, y: seq<T>, z: seq<T>)
    ensures x + y + z == x + (y + z)
  {
  }

  lemma SplitNewline(a: string, b: string)
    ensures Split(a + "\n" + b, '\n') == Split(a, '\n') + Split(b, '\n')
  {
    hide Split;
    SplitConcat(a, b, '\n');
  }

  /** A comment or a field of another key changes nothing, wherever it stands. */
  lemma IgnoredLine(a: string, line: string, b: string)
    requires IsIgnored(line) && '\n' !in line
    ensures Parse(a + "\n" + line + "\n" + b) == Parse(a + "\n" + b)
  {
    hide *;
    SplitAroundLine(a, line, b);
    SplitNewline(a, b);
    ParseOfPieces(a + "\n" + line + "\n" + b);
    ParseOfPieces(a + "\n" + b);
    var (first, rest) := (Split(a, '\n'), Split(b, '\n'));
    IgnoredInLines(first, line, rest + [""]);
    Reassociate(first + [line], rest, [""]);
    Reassociate(first, rest, [""]);
  }

  lemma BarePathRead(p: Parser, line: string)
    requires IsBarePath(line)
    ensures ReadLine(p, line)
         == Parser(EMPTY, ReadLine(p, "").entries + [Entry(Some(Trim(line)), None, None, None, None, None)])
  {
  }

  lemma BarePathInLines(a: seq<string>, line: string, b: seq<string>)
    requires IsBarePath(line)
    ensures ReadLines(START, a + [line] + b).entries
         == ReadLines(START, a + [""]).entries + [Entry(Some(Trim(line)), None, None, None, None, None)]
            + ReadLines(START, b).entries
  {
    var p := ReadLines(START, a);
    var middle := ReadLine(p, line);
    BarePathRead(p, line);
    ReadOne(p, line);
    ReadOne(p, "");
    ReadAppend(START, a, [""]);
    ReadAppend(START, a, [line]);
    ReadAppend(START, a + [line], b);
    EarlierEntries(EMPTY, middle.entries, [], b);
    hide ReadLine, ReadLines;
    assert middle.entries + [] == middle.entries;
  }

  /** A bare path ends the entry before it and is an entry of its own. */
  lemma BarePathSeparates(a: string, line: string, b: string)
    requires IsBarePath(line) && '\n' !in line
    ensures Parse(a + "\n" + line + "\n" + b)
         == Parse(a) + [Entry(Some(Trim(line)), None, None, None, None, None)] + Parse(b)
  {
    hide *;
    SplitAroundLine(a, line, b);
    ParseOfPieces(a + "\n" + line + "\n" + b);
    ParseOfPieces(a);
    ParseOfPieces(b);
    BarePathInLines(Split(a, '\n'), line, Split(b, '\n') + [""]);
    Reassociate(Split(a, '\n') + [line], Split(b, '\n'), [""]);
  }

  lemma AgainInLines(a: seq<string>, line: string, again: string, b: seq<string>, key: string)
    requires IsKey(key) && Names(line, key) && Names(again, key)
    ensures ReadLines(START, a + [line] + ([again] + b)) == ReadLines(START, a + [again] + b)
  {
    var p := ReadLines(START, a);
    KeyRead(p, line, key);
    KeyRead(ReadLine(p, line), again, key);
    KeyRead(p, again, key);
    ReadOne(p, line);
    ReadOne(ReadLine(p, line), again);
    ReadOne(p, again);
    ReadAppend(START, a, [line]);
    ReadAppend(START, a + [line], [again] + b);
    ReadAppend(ReadLine(p, line), [again], b);
    ReadAppend(START, a, [again]);
    ReadAppend(START, a + [again], b);
    hide ReadLine, ReadLines, Names;
  }

  /** Of two lines for one key in a row the second counts. */
  lemma LastValueWins(a: string, line: string, again: string, b: string, key: string)
    requires '\n' !in line && '\n' !in again && IsKey(key) && Names(line, key) && Names(again, key)
    ensures Parse(a + "\n" + line + "\n" + (again + "\n" + b)) == Parse(a + "\n" + again + "\n" + b)
  {
    hide *;
    var text := again + "\n" + b;
    SplitAroundLine(a, line, text);
    SplitNewline(again, b);
    SplitLine(again, '\n');
    SplitAroundLine(a, again, b);
    ParseOfPieces(a + "\n" + line + "\n" + text);
    ParseOfPieces(a + "\n" + again + "\n" + b);
    var (first, rest) := (Split(a, '\n'), Split(b, '\n'));
    AgainInLines(first, line, again, rest + [""], key);
    Reassociate([again], rest, [""]);
    Reassociate(first + [line], [again] + rest, [""]);
    Reassociate(first + [again], rest, [""]);
  }

  // ----- Written entries -----

  /** A value that fills the rest of its line. */
  predicate Writable(v: string) {
    v != [] && !IsWhite(v[0]) && !IsWhite(v[|v| - 1]) && '\n' !in v
  }

  predicate FieldWritable(field: Option<string>) {
    field.Some? ==> Writable(field.value)
  }

  predicate EntryWritable(e: Entry) {
    && Usable(e)
    && FieldWritable(e.path) && FieldWritable(e.labelText) && FieldWritable(e.module_)
    && FieldWritable(e.script) && FieldWritable(e.repo) && FieldWritable(e.library)
  }

  function FieldLine(key: string, field: Option<string>): seq<string> {
    if field.None? then [] else [key + ": " + field.value]
  }

  const KEYS := ["Path", "Label", "Module", "Script", "Repo", "Library"]

  function FieldOf(e: Entry, i: nat): Option<string>
    requires i < 6
  {
    match i
    case 0 => e.path
    case 1 => e.labelText
    case 2 => e.module_
    case 3 => e.script
    case 4 => e.repo
    case _ => e.library
  }

  /** The fields from number `i` on, one line each. */
  function FieldLines(e: Entry, i: nat): seq<string>
    requires i <= 6
    decreases 6 - i
  {
    if i == 6 then [] else FieldLine(KEYS[i], FieldOf(e, i)) + FieldLines(e, i + 1)
  }

  /** The entry with its fields from number `i` on left out. */
  function Upto(e: Entry, i: nat): Entry
    requires i <= 6
  {
    Entry(if i > 0 then e.path else None, if i > 1 then e.labelText else None, if i > 2 then e.module_ else None,
          if i > 3 then e.script else None, if i > 4 then e.repo else None, if i > 5 then e.library else None)
  }

  lemma KeyFacts(i: nat)
    requires i < 6
    ensures var key := KEYS[i];
            && key != [] && key[0] != '#' && !IsWhite(key[0]) && !IsWhite(key[|key| - 1]) && ':' !in key && '\n' !in key
            && Lowered(key) == ["path", "label", "module", "script", "repo", "library"][i]
  {
    assert Lowered("Path") == "path" && Lowered("Label") == "label" && Lowered("Module") == "module";
    assert Lowered("Script") == "script" && Lowered("Repo") == "repo" && Lowered("Library") == "library";
  }

  lemma TrimKeeps(s: string)
    requires s != [] && !IsWhite(s[0]) && !IsWhite(s[|s| - 1])
    ensures Trim(s) == s
  {
    TrimStartKeeps(s);
  }

  lemma FieldLineRead(p: Parser, key: string, value: string)
    requires Writable(value) && ':' !in key
    requires key != [] && key[0] != '#' && !IsWhite(key[0]) && !IsWhite(key[|key| - 1])
    ensures ReadLine(p, key + ": " + value) == p.(current := WithField(p.current, Lowered(key), value))
  {
    var line := key + ": " + value;
    TrimKeeps(line);
    assert line == key + [':'] + (" " + value);
    FindAfter(key, " " + value, ':');
    assert line[..|key|] == key && line[|key| + 1..] == " " + value;
    TrimKeeps(key);
    assert (" " + value)[1..] == value;
    TrimStartKeeps(value);
  }

  lemma OneFieldRead(e: Entry, i: nat, entries: seq<Entry>)
    requires i < 6 && EntryWritable(e)
    ensures ReadLines(Parser(Upto(e, i), entries), FieldLine(KEYS[i], FieldOf(e, i))) == Parser(Upto(e, i + 1), entries)
  {
    hide ReadLine, Lowered;
    var p := Parser(Upto(e, i), entries);
    var field := FieldOf(e, i);
    if field.Some? {
      KeyFacts(i);
      FieldLineRead(p, KEYS[i], field.value);
      ReadOne(p, KEYS[i] + ": " + field.value);
      assert WithField(p.current, Lowered(KEYS[i]), field.value) == Upto(e, i + 1);
    }
  }

  lemma {:induction false} FieldLinesRead(e: Entry, i: nat, entries: seq<Entry>)
    requires i <= 6 && EntryWritable(e)
    ensures ReadLines(Parser(Upto(e, i), entries), FieldLines(e, i)) == Parser(e, entries)
    decreases 6 - i
  {
    if i < 6 {
      var p := Parser(Upto(e, i), entries);
      ReadAppend(p, FieldLine(KEYS[i], FieldOf(e, i)), FieldLines(e, i + 1));
      OneFieldRead(e, i, entries);
      FieldLinesRead(e, i + 1, entries);
    }
  }

  lemma {:induction false} LinesWithin(e: Entry, i: nat)
    requires i <= 6 && EntryWritable(e)
    ensures forall line | line in FieldLines(e, i) :: '\n' !in line
    decreases 6 - i
  {
    if i < 6 {
      KeyFacts(i);
      LinesWithin(e, i + 1);
    }
  }

  function Block(e: Entry): string
    requires EntryWritable(e)
  {
    UsableHasLines(e);
    Join(FieldLines(e, 0), '\n')
  }

  lemma UsableHasLines(e: Entry)
    requires Usable(e)
    ensures FieldLines(e, 0) != []
  {
    assert FieldLines(e, 0) == FieldLine("Path", e.path) + FieldLines(e, 1);
    assert FieldLines(e, 1) == FieldLine("Label", e.labelText) + FieldLines(e, 2);
    assert FieldLines(e, 2) == FieldLine("Module", e.module_) + FieldLines(e, 3);
  }

  /** One block is read as its entry. */
  lemma BlockRoundTrip(e: Entry)
    requires EntryWritable(e)
    ensures Parse(Block(e)) == [e]
  {
    var lines := FieldLines(e, 0);
    UsableHasLines(e);
    LinesWithin(e, 0);
    SplitJoin(lines, '\n');
    ParseOfPieces(Block(e));
    FieldLinesRead(e, 0, []);
    ReadAppend(START, lines, [""]);
    ReadOne(Parser(e, []), "");
    assert [] + [e] == [e];
  }

  /** The file with these entries, separated by blank lines. */
  function File(entries: seq<Entry>): string
    requires forall e | e in entries :: EntryWritable(e)
  {
    if entries == [] then [] else Block(entries[0]) + "\n" + "" + "\n" + File(entries[1..])
  }

  lemma EmptyFile()
    ensures Parse("") == []
  {
    hide ReadLines;
    assert Split("", '\n') == [""];
    assert Lines("") + [""] == [""];
    ReadOne(START, "");
    assert Finished(START) == START;
  }

  /** Reading a written file gives its entries back, every field in its place. */
  lemma {:induction false} FileRoundTrip(entries: seq<Entry>)
    requires forall e | e in entries :: EntryWritable(e)
    ensures Parse(File(entries)) == entries
  {
    hide Parse, Block;
    if entries == [] {
      EmptyFile();
    } else {
      BlockRoundTrip(entries[0]);
      FileRoundTrip(entries[1..]);
      BlankLineSeparates(Block(entries[0]), "", File(entries[1..]));
    }
  }
}
