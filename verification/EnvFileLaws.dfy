/** Round trips of the environment file (src/contract_evidence_os/console/service.py). */
module EnvFileLaws {
  import opened Prelude
  import opened EnvFile

  // ------------------------------------------------------------------------ normal entries

  predicate NoBreaks(s: string) {
    forall i :: 0 <= i < |s| ==> !IsBreak(s[i])
  }

  /** An entry that a line of the file can hold: trimmed, on one line, its key without an equals
      sign and not starting with a number sign. */
  predicate Normal(key: string, value: string) {
    Stripped(key) && Stripped(value) && NoBreaks(key) && NoBreaks(value)
    && '=' !in key && (key == "" || key[0] != '#')
  }

  ghost predicate AllNormal(values: Values) {
    forall k :: k in values ==> Normal(k, values[k])
  }

  // ------------------------------------------------------------------------ stripping

  lemma {:induction false} StripKeeps(s: string)
    requires Stripped(s)
    ensures Strip(s) == s
  {
  }

  lemma {:induction false} StripLeftShape(s: string)
    ensures |StripLeft(s)| <= |s| && StripLeft(s) == s[|s| - |StripLeft(s)|..]
    ensures StripLeft(s) == "" || !IsSpace(StripLeft(s)[0])
  {
    if s != "" && IsSpace(s[0]) {
      StripLeftShape(s[1..]);
    }
  }

  lemma {:induction false} StripRightShape(s: string)
    ensures |StripRight(s)| <= |s| && StripRight(s) == s[..|StripRight(s)|]
    ensures StripRight(s) == "" || !IsSpace(StripRight(s)[|StripRight(s)| - 1])
  {
    if s != "" && IsSpace(s[|s| - 1]) {
      StripRightShape(s[..|s| - 1]);
    }
  }

  /** Stripping cuts a middle piece out of a string, with no space at either end. */
  lemma {:induction false} StripShape(s: string)
    ensures Stripped(Strip(s)) && forall c :: c in Strip(s) ==> c in s
  {
    var l := StripLeft(s);
    StripLeftShape(s);
    StripRightShape(l);
    hide StripLeft, StripRight, IsSpace;
    assert forall i :: 0 <= i < |l| ==> l[i] == s[|s| - |l| + i];
    var r := StripRight(l);
    assert forall i :: 0 <= i < |r| ==> r[i] == l[i];
  }

  lemma {:induction false} StripNoBreaks(s: string)
    requires NoBreaks(s)
    ensures NoBreaks(Strip(s))
  {
    StripShape(s);
    hide Strip, IsBreak;
    var r := Strip(s);
    forall i | 0 <= i < |r|
      ensures !IsBreak(r[i])
    {
      assert r[i] in s;
    }
  }

  /** Stripping keeps a front that starts with no space. */
  lemma {:induction false} StripFront(s: string)
    requires s != "" && !IsSpace(s[0])
    ensures Strip(s) != "" && Strip(s)[0] == s[0]
  {
    assert StripLeft(s) == s;
    StripRightKeepsFirst(s);
    StripRightShape(s);
  }

  lemma {:induction false} StripRightKeepsFirst(s: string)
    requires s != "" && !IsSpace(s[0])
    ensures StripRight(s) != ""
  {
    if IsSpace(s[|s| - 1]) {
      StripRightKeepsFirst(s[..|s| - 1]);
    }
  }

  // ------------------------------------------------------------------- parsing one line

  lemma {:induction false} PartNormal(s: string)
    requires NoBreaks(s)
    ensures Stripped(Strip(s)) && NoBreaks(Strip(s))
  {
    StripShape(s);
    StripNoBreaks(s);
  }

  lemma {:induction false} EqualsAtShape(s: string)
    ensures forall i :: 0 <= i < EqualsAt(s) ==> s[i] != '='
    ensures EqualsAt(s) < |s| ==> s[EqualsAt(s)] == '='
  {
    if s != "" && s[0] != '=' {
      EqualsAtShape(s[1..]);
    }
  }

  lemma {:induction false} KeyNormal(line: string)
    requires line != "" && !IsSpace(line[0]) && line[0] != '#' && EqualsAt(line) < |line|
    ensures var key := Strip(line[..EqualsAt(line)]); '=' !in key && (key == "" || key[0] != '#')
  {
    var n := EqualsAt(line);
    EqualsAtShape(line);
    StripShape(line[..n]);
    if n > 0 {
      StripFront(line[..n]);
    }
    hide IsSpace, Strip, EqualsAt;
  }

  /** How a stripped line that is no comment and holds an equals sign parses. */
  lemma {:induction false} ParseAt(line: string)
    requires line != "" && Stripped(line) && line[0] != '#' && EqualsAt(line) < |line|
    ensures var n := EqualsAt(line); ParseLine(line) == Some((Strip(line[..n]), Strip(line[n + 1..])))
  {
    hide EqualsAt, IsSpace;
    StripKeeps(line);
  }

  /** The line behind an assignment. */
  lemma {:induction false} AssignedLine(raw: string)
    requires ParseLine(raw).Some?
    ensures var line := Strip(raw);
      var n := EqualsAt(line);
      line != "" && line[0] != '#' && n < |line| && ParseLine(raw).value == (Strip(line[..n]), Strip(line[n + 1..]))
  {
    hide Strip, EqualsAt;
  }

  /** What a line without breaks assigns is normal. */
  lemma {:induction false} ParsedLineNormal(raw: string)
    requires NoBreaks(raw) && ParseLine(raw).Some?
    ensures Normal(ParseLine(raw).value.0, ParseLine(raw).value.1)
  {
    hide ParseLine, Strip, EqualsAt, Normal, NoBreaks, Stripped;
    AssignedLine(raw);
    PartNormal(raw);
    AssignmentNormal(Strip(raw));
  }

  lemma {:induction false} AssignmentNormal(line: string)
    requires line != "" && Stripped(line) && NoBreaks(line) && line[0] != '#' && EqualsAt(line) < |line|
    ensures var n := EqualsAt(line); Normal(Strip(line[..n]), Strip(line[n + 1..]))
  {
    hide Strip, EqualsAt, IsSpace, IsBreak;
    var n := EqualsAt(line);
    KeyNormal(line);
    PartNormal(line[..n]);
    PartNormal(line[n + 1..]);
  }

  lemma {:induction false} EqualsAtFirst(s: string, m: nat)
    requires m < |s| && s[m] == '=' && forall i :: 0 <= i < m ==> s[i] != '='
    ensures EqualsAt(s) == m
  {
    EqualsAtShape(s);
  }

  lemma {:induction false} EqualsAfterKey(key: string, value: string)
    requires '=' !in key
    ensures EqualsAt(key + "=" + value) == |key|
  {
    EqualsAtFirst(key + "=" + value, |key|);
  }

  lemma {:induction false} LineStripped(key: string, value: string)
    requires Normal(key, value)
    ensures Stripped(key + "=" + value)
  {
    var line := key + "=" + value;
    assert line[0] == if key == "" then '=' else key[0];
    assert line[|line| - 1] == if value == "" then '=' else value[|value| - 1];
  }

  lemma {:induction false} ParseParts(line: string, key: string, value: string)
    requires |line| > |key| && Stripped(line) && line[0] != '#' && EqualsAt(line) == |key|
    requires line[..|key|] == key && line[|key| + 1..] == value && Stripped(key) && Stripped(value)
    ensures ParseLine(line) == Some((key, value))
  {
    hide ParseLine, Strip, Stripped, EqualsAt, IsSpace;
    ParseAt(line);
    StripKeeps(key);
    StripKeeps(value);
  }

  /** A normal entry survives being printed and parsed. */
  lemma {:induction false} PrintedLineParses(key: string, value: string)
    requires Normal(key, value)
    ensures ParseLine(key + "=" + value) == Some((key, value))
  {
    hide ParseLine, Strip, EqualsAt, IsSpace;
    LineStripped(key, value);
    EqualsAfterKey(key, value);
    ParseParts(key + "=" + value, key, value);
  }

  // ---------------------------------------------------------------------- splitting lines

  lemma {:induction false} LineEndShape(s: string)
    ensures NoBreaks(s[..LineEnd(s)])
    ensures LineEnd(s) < |s| ==> IsBreak(s[LineEnd(s)])
  {
    if s != "" && !IsBreak(s[0]) {
      LineEndShape(s[1..]);
      assert s[..LineEnd(s)] == [s[0]] + s[1..][..LineEnd(s[1..])];
    }
  }

  lemma {:induction false} SplitNoBreaks(s: string)
    ensures forall i :: 0 <= i < |SplitLines(s)| ==> NoBreaks(SplitLines(s)[i])
    decreases |s|
  {
    if s != "" {
      var n := LineEnd(s);
      LineEndShape(s);
      assert n == |s| ==> s[..n] == s;
      if n < |s| {
        SplitNoBreaks(s[n + BreakLength(s[n..])..]);
      }
    }
  }

  lemma {:induction false} LineEndFirst(s: string, m: nat)
    requires m < |s| && IsBreak(s[m]) && forall i :: 0 <= i < m ==> !IsBreak(s[i])
    ensures LineEnd(s) == m
  {
    LineEndShape(s);
  }

  /** A line ends at its break: one character, or a carriage return with a line feed. */
  lemma {:induction false} SplitAtBreak(line: string, c: char, rest: string)
    requires NoBreaks(line) && IsBreak(c) && !(c == '\r' && rest != "" && rest[0] == '\n')
    ensures SplitLines(line + [c] + rest) == [line] + SplitLines(rest)
  {
    var s := line + [c] + rest;
    LineEndFirst(s, |line|);
    assert s[..|line|] == line;
    assert s[|line|..] == [c] + rest;
    assert s[|line| + 1..] == rest;
  }

  /** A carriage return with a line feed is one break: no empty line stands between them. */
  lemma {:induction false} SplitAtBoth(line: string, rest: string)
    requires NoBreaks(line)
    ensures SplitLines(line + "\r\n" + rest) == [line] + SplitLines(rest)
  {
    var s := line + "\r\n" + rest;
    assert s[|line|] == '\r';
    LineEndFirst(s, |line|);
    assert s[..|line|] == line;
    assert s[|line|..] == "\r\n" + rest;
    assert s[|line| + 2..] == rest;
  }

  lemma {:induction false} SplitFirst(line: string, rest: string)
    requires NoBreaks(line)
    ensures SplitLines(line + "\n" + rest) == [line] + SplitLines(rest)
  {
    SplitAtBreak(line, '\n', rest);
  }

  lemma {:induction false} SplitLast(line: string)
    requires NoBreaks(line) && line != ""
    ensures SplitLines(line) == [line]
  {
    LineEndShape(line);
  }

  /** Splitting the printed text gives the printed lines. */
  lemma {:induction false} SplitJoined(lines: seq<string>)
    requires lines != [] && forall i :: 0 <= i < |lines| ==> NoBreaks(lines[i])
    ensures SplitLines(Join(lines) + "\n") == lines
  {
    if |lines| == 1 {
      assert lines[0] + "\n" + "" == lines[0] + "\n";
      SplitFirst(lines[0], "");
    } else {
      assert Join(lines) + "\n" == lines[0] + "\n" + (Join(lines[1..]) + "\n");
      SplitFirst(lines[0], Join(lines[1..]) + "\n");
      SplitJoined(lines[1..]);
      assert lines == [lines[0]] + lines[1..];
    }
  }

  // ------------------------------------------------------------------------ round trips

  lemma {:induction false} LinesNormal(lines: seq<string>)
    requires forall i :: 0 <= i < |lines| ==> NoBreaks(lines[i])
    ensures AllNormal(ParseLines(lines))
  {
    hide ParseLine, NoBreaks;
    if lines != [] {
      LinesNormal(lines[..|lines| - 1]);
      if ParseLine(lines[|lines| - 1]).Some? {
        ParsedLineNormal(lines[|lines| - 1]);
      }
    }
  }

  /** Whatever the text, its parsed entries are normal. */
  lemma {:induction false} ParsedNormal(text: string)
    ensures AllNormal(Parse(text))
  {
    SplitNoBreaks(text);
    LinesNormal(SplitLines(text));
  }

  function Restrict(values: Values, keys: seq<string>): Values {
    map k | k in keys && k in values :: values[k]
  }

  lemma {:induction false} AssignPrinted(before: Values, values: Values, k: string)
    requires k in values && Normal(k, values[k])
    ensures Assign(before, LineOf(values, k)) == before[k := values[k]]
  {
    PrintedLineParses(k, values[k]);
  }

  lemma {:induction false} RestrictStep(values: Values, keys: seq<string>, n: nat)
    requires n < |keys| && keys[n] in values
    ensures Restrict(values, keys[..n + 1]) == Restrict(values, keys[..n])[keys[n] := values[keys[n]]]
  {
    assert keys[..n + 1] == keys[..n] + [keys[n]];
  }

  lemma {:induction false} ParsePrintedLines(values: Values, keys: seq<string>, n: nat)
    requires AllNormal(values) && (forall k :: k in keys ==> k in values) && n <= |keys|
    ensures ParseLines(LinesOf(values, keys)[..n]) == Restrict(values, keys[..n])
  {
    if n > 0 {
      var lines := LinesOf(values, keys);
      ParsePrintedLines(values, keys, n - 1);
      assert lines[..n][..n - 1] == lines[..n - 1];
      AssignPrinted(Restrict(values, keys[..n - 1]), values, keys[n - 1]);
      RestrictStep(values, keys, n - 1);
    }
  }

  lemma {:induction false} PrintedLinesParse(values: Values)
    requires AllNormal(values)
    ensures ParseLines(LinesOf(values, SortedKeys(values.Keys))) == values
  {
    hide ParseLines, LinesOf, Normal, SortedKeys;
    var keys := SortedKeys(values.Keys);
    var lines := LinesOf(values, keys);
    ParsePrintedLines(values, keys, |keys|);
    assert keys[..|keys|] == keys && lines[..|keys|] == lines;
    assert Restrict(values, keys) == values;
  }

  lemma {:induction false} PrintedSplits(values: Values)
    requires AllNormal(values)
    ensures SplitLines(Print(values)) == LinesOf(values, SortedKeys(values.Keys))
  {
    var keys := SortedKeys(values.Keys);
    var lines := LinesOf(values, keys);
    forall i | 0 <= i < |lines|
      ensures NoBreaks(lines[i])
    {
    }
    if lines != [] {
      SplitJoined(lines);
    }
  }

  lemma {:induction false} NormalRoundTrip(values: Values)
    requires AllNormal(values)
    ensures Parse(Print(values)) == values
  {
    PrintedSplits(values);
    PrintedLinesParse(values);
  }

  /** Printed values parse back to themselves exactly when every entry is normal. */
  lemma {:induction false} PrintRoundTripsIff(values: Values)
    ensures Parse(Print(values)) == values <==> AllNormal(values)
  {
    if AllNormal(values) {
      NormalRoundTrip(values);
    } else {
      ParsedNormal(Print(values));
    }
  }

  /** For every text, printing what it parses to and parsing again changes nothing. */
  lemma {:induction false} ParsePrintParse(text: string)
    ensures Parse(Print(Parse(text))) == Parse(text)
  {
    ParsedNormal(text);
    NormalRoundTrip(Parse(text));
  }

  // ---------------------------------------------------------------------- updates

  /** The last update of a key, if there is one. */
  function LastUpdate(updates: seq<(string, string)>, key: string): Option<string> {
    if updates == [] then None
    else if updates[|updates| - 1].0 == key then Some(updates[|updates| - 1].1)
    else LastUpdate(updates[..|updates| - 1], key)
  }

  /** Merging removes the keys updated to the empty string and overrides the other updated keys. */
  lemma {:induction false} MergeLooksUp(values: Values, updates: seq<(string, string)>, key: string)
    ensures var m := Merge(values, updates);
      match LastUpdate(updates, key)
      case None => (key in m <==> key in values) && (key in m ==> m[key] == values[key])
      case Some(v) => (key in m <==> v != "") && (key in m ==> m[key] == v)
  {
    if updates != [] {
      MergeLooksUp(values, updates[..|updates| - 1], key);
    }
  }

  /** Every update that stays is a normal entry. */
  ghost predicate NormalUpdates(updates: seq<(string, string)>) {
    forall key :: Keeps(updates, key) ==> Normal(key, LastUpdate(updates, key).value)
  }

  predicate Keeps(updates: seq<(string, string)>, key: string) {
    LastUpdate(updates, key).Some? && LastUpdate(updates, key).value != ""
  }

  lemma {:induction false} MergedNormalIff(text: string, updates: seq<(string, string)>)
    ensures AllNormal(Merge(Parse(text), updates)) <==> NormalUpdates(updates)
  {
    ParsedNormal(text);
    var m := Merge(Parse(text), updates);
    if AllNormal(m) {
      forall key | Keeps(updates, key)
        ensures Normal(key, LastUpdate(updates, key).value)
      {
        MergeLooksUp(Parse(text), updates, key);
      }
    }
    if NormalUpdates(updates) {
      forall key | key in m
        ensures Normal(key, m[key])
      {
        MergeLooksUp(Parse(text), updates, key);
        assert LastUpdate(updates, key).Some? ==> Keeps(updates, key);
      }
    }
  }

  /** Parsing the file after a write gives the old values with the empty updates removed and the
      others overriding, exactly when every update that stays is a normal entry. */
  lemma {:induction false} WriteThenParseIff(text: string, updates: seq<(string, string)>)
    ensures Parse(Print(Merge(Parse(text), updates))) == Merge(Parse(text), updates) <==> NormalUpdates(updates)
  {
    MergedNormalIff(text, updates);
    PrintRoundTripsIff(Merge(Parse(text), updates));
  }

  /** A value with surrounding space does not survive. */
  lemma {:induction false} PaddedValueLost(text: string)
    ensures var m := Merge(Parse(text), [("KEY", " x")]); Parse(Print(m)) != m
  {
    var updates := [("KEY", " x")];
    assert LastUpdate(updates, "KEY") == Some(" x");
    assert Keeps(updates, "KEY") && !Normal("KEY", " x");
    WriteThenParseIff(text, updates);
  }

  // ------------------------------------------------------------- what separates and what surrounds

  lemma {:induction false} EntryNoBreaks(key: string, value: string)
    requires NoBreaks(key) && NoBreaks(value)
    ensures NoBreaks(key + "=" + value) && key + "=" + value != ""
  {
    var line := key + "=" + value;
    assert forall i :: 0 <= i < |line| ==>
      line[i] == if i < |key| then key[i] else if i == |key| then '=' else value[i - |key| - 1];
  }

  /** Every character at which Python breaks lines separates two assignments. */
  lemma {:induction false} BreaksSeparate(c: char, k1: string, v1: string, k2: string, v2: string)
    requires c as int in {0x0A, 0x0B, 0x0C, 0x0D, 0x1C, 0x1D, 0x1E, 0x85, 0x2028, 0x2029}
    requires Normal(k1, v1) && Normal(k2, v2)
    ensures Parse((k1 + "=" + v1) + [c] + (k2 + "=" + v2)) == map[k1 := v1][k2 := v2]
  {
    assert IsBreak(c);
    hide IsBreak, ParseLine, SplitLines, Stripped;
    var a, b := k1 + "=" + v1, k2 + "=" + v2;
    EntryNoBreaks(k1, v1);
    EntryNoBreaks(k2, v2);
    assert b[0] != '\n' by { LineFeedBreaks(); }
    SplitAtBreak(a, c, b);
    SplitLast(b);
    PrintedLineParses(k1, v1);
    PrintedLineParses(k2, v2);
    ParseTwo(a, b);
    assert [a] + [b] == [a, b];
  }

  lemma {:induction false} LineFeedBreaks()
    ensures IsBreak('\n')
  {
  }

  lemma {:induction false} ParseTwo(a: string, b: string)
    ensures ParseLines([a, b]) == Assign(Assign(map[], a), b)
  {
    hide Assign;
    assert [a, b][..1] == [a] && [a][..0] == [];
    assert ParseLines([a]) == Assign(map[], a);
  }

  lemma {:induction false} StripAround(b: char, s: string)
    requires IsSpace(b) && Stripped(s)
    ensures Strip([b] + s + [b]) == s
  {
    var t := s + [b];
    assert ([b] + s + [b])[1..] == t;
    assert StripLeft([b] + s + [b]) == StripLeft(t);
    if s == "" {
      assert t[1..] == "";
      assert StripLeft(t) == StripLeft("") == "";
    } else {
      assert StripLeft(t) == t;
      assert t[..|t| - 1] == s;
      assert StripRight(t) == StripRight(s) == s;
    }
  }

  /** Every blank that Python strips may stand around an assignment. */
  lemma {:induction false} BlanksSurround(b: char, key: string, value: string)
    requires b as int in {0x09, 0x20, 0x1F, 0xA0, 0x1680, 0x202F, 0x205F, 0x3000} || 0x2000 <= b as int <= 0x200A
    requires Normal(key, value)
    ensures ParseLine([b] + (key + "=" + value) + [b]) == Some((key, value))
  {
    assert IsSpace(b);
    hide IsSpace, EqualsAt, Strip;
    var line := key + "=" + value;
    LineStripped(key, value);
    StripAround(b, line);
    StripKeeps(line);
    PrintedLineParses(key, value);
  }
}
