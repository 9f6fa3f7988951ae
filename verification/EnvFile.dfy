/** The environment file of the console: how its text is parsed into values, and how updated
    values are printed back (src/contract_evidence_os/console/service.py). */
module EnvFile {
  import opened Prelude

  type Values = map<string, string>

  // ------------------------------------------------------------------ lines and blanks

  /** The characters at which `str.splitlines` breaks. */
  predicate IsBreak(c: char) {
    c in {'\n', '\r', '\U{0B}', '\U{0C}', '\U{1C}', '\U{1D}', '\U{1E}', '\U{85}', '\U{2028}', '\U{2029}'}
  }

  /** The characters that `str.strip` removes: every line break is one of them. */
  predicate IsSpace(c: char) {
    IsBreak(c) || c in {'\t', ' ', '\U{1F}', '\U{A0}', '\U{1680}', '\U{202F}', '\U{205F}', '\U{3000}'}
    || '\U{2000}' <= c <= '\U{200A}'
  }

  /** The length of the first line, without its break. */
  function LineEnd(s: string): (n: nat)
    ensures n <= |s|
  {
    if s == "" || IsBreak(s[0]) then 0 else 1 + LineEnd(s[1..])
  }

  /** A carriage return and a line feed together are one break. */
  function BreakLength(s: string): (n: nat)
    requires s != ""
    ensures 1 <= n <= |s|
  {
    if |s| >= 2 && s[0] == '\r' && s[1] == '\n' then 2 else 1
  }

  /** `s.splitlines()` */
  function SplitLines(s: string): seq<string>
    decreases |s|
  {
    if s == "" then []
    else
      var n := LineEnd(s);
      if n == |s| then [s] else [s[..n]] + SplitLines(s[n + BreakLength(s[n..])..])
  }

  function StripLeft(s: string): string {
    if s != "" && IsSpace(s[0]) then StripLeft(s[1..]) else s
  }

  function StripRight(s: string): string {
    if s != "" && IsSpace(s[|s| - 1]) then StripRight(s[..|s| - 1]) else s
  }

  /** `s.strip()` */
  function Strip(s: string): string {
    StripRight(StripLeft(s))
  }

  predicate Stripped(s: string) {
    s == "" || (!IsSpace(s[0]) && !IsSpace(s[|s| - 1]))
  }

  // ---------------------------------------------------------------------- parsing

  /** The place of the first equals sign, or the length of the line. */
  function EqualsAt(s: string): (n: nat)
    ensures n <= |s|
  {
    if s == "" || s[0] == '=' then 0 else 1 + EqualsAt(s[1..])
  }

  /** The assignment on a raw line: blank lines, comments and lines without "=" have none. */
  function ParseLine(raw: string): Option<(string, string)> {
    var line := Strip(raw);
    if line == "" || line[0] == '#' then None
    else
      var n := EqualsAt(line);
      if n == |line| then None else Some((Strip(line[..n]), Strip(line[n + 1..])))
  }

  function Assign(values: Values, raw: string): Values {
    match ParseLine(raw)
    case None => values
    case Some((key, value)) => values[key := value]
  }

  function ParseLines(lines: seq<string>): Values {
    if lines == [] then map[] else Assign(ParseLines(lines[..|lines| - 1]), lines[|lines| - 1])
  }

  /** _env_values on the text of the file */
  function Parse(text: string): Values {
    ParseLines(SplitLines(text))
  }

  /** _env_values, line by line; no file is an empty text. */
  method EnvValues(text: string) returns (values: Values)
    ensures values == Parse(text)
  {
    hide SplitLines, ParseLine;
    values := map[];
    var lines := SplitLines(text);
    for i := 0 to |lines|
      invariant values == ParseLines(lines[..i])
    {
      assert lines[..i + 1][..i] == lines[..i];
      var parsed := ParseLine(lines[i]);
      if parsed.None? {
        continue;
      }
      values := values[parsed.value.0 := parsed.value.1];
    }
    assert lines[..|lines|] == lines;
  }

  // ---------------------------------------------------------------------- printing

  /** The keys in Python's order on strings. */
  function SortedKeys(keys: set<string>): (r: seq<string>)
    ensures forall k :: k in r <==> k in keys
    ensures forall i, j :: 0 <= i < j < |r| ==> r[i] != r[j] && StringLe(r[i], r[j])
    decreases |keys|
  {
    if keys == {} then []
    else
      LeastExists(keys);
      LeastUnique(keys);
      var least :| Least(keys, least);
      [least] + SortedKeys(keys - {least})
  }

  predicate Least(keys: set<string>, k: string) {
    k in keys && forall other :: other in keys ==> StringLe(k, other)
  }

  lemma {:induction false} LeastExists(keys: set<string>)
    requires keys != {}
    ensures exists k :: Least(keys, k)
    decreases |keys|
  {
    var k :| k in keys;
    if keys == {k} {
      StringReflexive(k);
      assert Least(keys, k);
    } else {
      LeastExists(keys - {k});
      var l :| Least(keys - {k}, l);
      if StringLe(k, l) {
        StringReflexive(k);
        forall other | other in keys
          ensures StringLe(k, other)
        {
          if other != k {
            StringTransitive(k, l, other);
          }
        }
        assert Least(keys, k);
      } else {
        StringTotal(k, l);
        assert Least(keys, l);
      }
    }
  }

  lemma {:induction false} LeastUnique(keys: set<string>)
    ensures forall a, b :: Least(keys, a) && Least(keys, b) ==> a == b
  {
    forall a, b | Least(keys, a) && Least(keys, b)
      ensures a == b
    {
      StringAntisymmetric(a, b);
    }
  }

  function LineOf(values: Values, key: string): string
    requires key in values
  {
    key + "=" + values[key]
  }

  function LinesOf(values: Values, keys: seq<string>): (r: seq<string>)
    requires forall k :: k in keys ==> k in values
    ensures |r| == |keys|
  {
    seq(|keys|, i requires 0 <= i < |keys| => LineOf(values, keys[i]))
  }

  /** `"\n".join(lines)` */
  function Join(lines: seq<string>): string {
    if lines == [] then "" else if |lines| == 1 then lines[0] else lines[0] + "\n" + Join(lines[1..])
  }

  /** The text _write_env_values writes for the merged values. */
  function Print(values: Values): string {
    var lines := LinesOf(values, SortedKeys(values.Keys));
    Join(lines) + if lines == [] then "" else "\n"
  }

  /** One update: an empty value removes the key. */
  function Update(values: Values, key: string, value: string): Values {
    if value == "" then values - {key} else values[key := value]
  }

  /** The updates in the order of their dictionary. */
  function Merge(values: Values, updates: seq<(string, string)>): Values {
    if updates == [] then values
    else
      var last := updates[|updates| - 1];
      Update(Merge(values, updates[..|updates| - 1]), last.0, last.1)
  }

  /** _write_env_values: the new text of the file. */
  method WriteEnvValues(text: string, updates: seq<(string, string)>) returns (written: string)
    ensures written == Print(Merge(Parse(text), updates))
  {
    hide Parse, SortedKeys, Join;
    var merged := EnvValues(text);
    for i := 0 to |updates|
      invariant merged == Merge(Parse(text), updates[..i])
    {
      assert updates[..i + 1][..i] == updates[..i];
      if updates[i].1 == "" {
        merged := merged - {updates[i].0};
      } else {
        merged := merged[updates[i].0 := updates[i].1];
      }
    }
    assert updates[..|updates|] == updates;
    var keys := SortedKeys(merged.Keys);
    var lines: seq<string> := [];
    for i := 0 to |keys|
      invariant lines == LinesOf(merged, keys)[..i]
    {
      lines := lines + [keys[i] + "=" + merged[keys[i]]];
    }
    assert lines == LinesOf(merged, keys);
    written := Join(lines) + if lines == [] then "" else "\n";
  }
}
