/** The environment mock of packages/runtime/src/isolate/runtime.ts
    (`mockEnvironmentVariables`): the host builds a JavaScript source text
    that, evaluated inside the sandbox, creates `global.process.env`. */
module RuntimeEnv {
  import opened Common

  /** The first line of every environment script: it (re)creates
      `global.process` with the production-mode baseline entry. */
  const BaselineLine: string := BaselineStatement + "\n"

  // Spelled in short pieces so that the verifier can look inside each literal.
  const BaselineStatement: string := "global.p" + "rocess = " + "{ env: { NODE_ENV: " + "\"production\" } }"

  const BaselineKey: string := "NODE_ENV"
  const BaselineValue: string := "production"

  /** The line written for one `[key, value]` entry: the key upper-cased,
      the value placed between double quotes exactly as it is. */
  function AssignLine(entry: (string, string)): string {
    "global.process.env." + Upper(entry.0) + " = \"" + entry.1 + "\"\n"
  }

  /** The script for the entries, in entry order; defined by appending, as
      the source's `+=` does. */
  function EnvScript(entries: seq<(string, string)>): string {
    if entries == [] then BaselineLine
    else EnvScript(entries[..|entries| - 1]) + AssignLine(entries[|entries| - 1])
  }

  /** The script's lines: the baseline, then one assignment per entry. */
  function ScriptLines(entries: seq<(string, string)>): (lines: seq<string>)
    ensures |lines| == |entries| + 1
    ensures lines[0] == BaselineLine
    ensures forall i :: 0 <= i < |entries| ==> lines[i + 1] == AssignLine(entries[i])
  {
    [BaselineLine] + seq(|entries|, i requires 0 <= i < |entries| => AssignLine(entries[i]))
  }

  /** Lines laid end to end. */
  function Concat(lines: seq<string>): string {
    if lines == [] then "" else lines[0] + Concat(lines[1..])
  }

  lemma {:induction false} ConcatSnoc(lines: seq<string>, last: string)
    ensures Concat(lines + [last]) == Concat(lines) + last
    decreases |lines|
  {
    if lines == [] {
      assert [last][1..] == [];
    } else {
      assert (lines + [last])[1..] == lines[1..] + [last];
      ConcatSnoc(lines[1..], last);
    }
  }

  /** The source's loop: start from the baseline line, append one line per entry. */
  method BuildEnvScript(entries: seq<(string, string)>) returns (script: string)
    ensures script == EnvScript(entries)
  {
    script := BaselineLine;
    for i := 0 to |entries|
      invariant script == EnvScript(entries[..i])
    {
      assert entries[..i + 1][..i] == entries[..i];
      script := script + AssignLine(entries[i]);
    }
    assert entries[..|entries|] == entries;
  }

  /** The script is exactly its lines laid end to end: the baseline line,
      then one assignment line per entry, in entry order. */
  lemma {:induction false} ScriptIsItsLines(entries: seq<(string, string)>)
    ensures EnvScript(entries) == Concat(ScriptLines(entries))
    decreases |entries|
  {
    if entries == [] {
      assert ScriptLines(entries) == [BaselineLine];
      assert ScriptLines(entries)[1..] == [];
    } else {
      var n := |entries| - 1;
      ScriptIsItsLines(entries[..n]);
      assert ScriptLines(entries) == ScriptLines(entries[..n]) + [AssignLine(entries[n])];
      ConcatSnoc(ScriptLines(entries[..n]), AssignLine(entries[n]));
    }
  }

  /** Every script begins with the baseline line. */
  lemma {:induction false} ScriptStartsWithBaseline(entries: seq<(string, string)>)
    ensures BaselineLine <= EnvScript(entries)
    ensures EnvScript(entries)[..|BaselineLine|] == BaselineLine
    decreases |entries|
  {
    if entries != [] {
      ScriptStartsWithBaseline(entries[..|entries| - 1]);
    }
  }

  // ---- reading the script back line by line ----------------------------------

  predicate NoNewline(s: string) { '\n' !in s }

  lemma UpperKeepsNoNewline(s: string)
    requires NoNewline(s)
    ensures NoNewline(Upper(s))
  {
  }

  /** A text that ends in a newline and holds no other one. */
  predicate IsLine(l: string) {
    |l| > 0 && l[|l| - 1] == '\n' && NoNewline(l[..|l| - 1])
  }

  lemma MakeLine(body: string)
    requires NoNewline(body)
    ensures IsLine(body + "\n")
  {
    assert (body + "\n")[..|body|] == body;
  }

  lemma BaselineIsLine()
    ensures IsLine(BaselineLine)
  {
    assert NoNewline("global.p");
    assert NoNewline("rocess = ");
    assert NoNewline("{ env: { NODE_ENV: ");
    assert NoNewline("\"production\" } }");
    MakeLine(BaselineStatement);
  }

  lemma AssignLineIsLine(entry: (string, string))
    requires NoNewline(entry.0) && NoNewline(entry.1)
    ensures IsLine(AssignLine(entry))
  {
    UpperKeepsNoNewline(entry.0);
    var body := "global.process.env." + Upper(entry.0) + " = \"" + entry.1 + "\"";
    assert NoNewline(body);
    assert AssignLine(entry) == body + "\n";
    MakeLine(body);
  }

  /** The first newline at or after `from`, if any. */
  function NewlineFrom(s: string, from: nat): (r: Option<nat>)
    requires from <= |s|
    ensures r.Some? ==> from <= r.value < |s| && s[r.value] == '\n'
    ensures r.Some? ==> forall j :: from <= j < r.value ==> s[j] != '\n'
    ensures r.None? ==> forall j :: from <= j < |s| ==> s[j] != '\n'
    decreases |s| - from
  {
    if from == |s| then None
    else if s[from] == '\n' then Some(from)
    else NewlineFrom(s, from + 1)
  }

  /** Cuts a text into lines, each keeping its terminating newline. */
  function SplitLines(s: string): seq<string>
    decreases |s|
  {
    match NewlineFrom(s, 0)
    case None => if s == "" then [] else [s]
    case Some(i) => [s[..i + 1]] + SplitLines(s[i + 1..])
  }

  /** A line that ends in its only newline is cut off whole. */
  lemma SplitLinesCons(line: string, rest: string)
    requires IsLine(line)
    ensures SplitLines(line + rest) == [line] + SplitLines(rest)
  {
    var s := line + rest;
    var k := |line| - 1;
    forall j | 0 <= j < k ensures s[j] != '\n' {
      assert s[j] == line[..k][j];
      assert line[..k][j] in line[..k];
    }
    assert s[k] == '\n';
    assert NewlineFrom(s, 0) == Some(k);
    assert s[..k + 1] == line;
    assert s[k + 1..] == rest;
  }

  /** Splitting lines laid end to end gives back the lines. */
  lemma {:induction false} SplitConcat(lines: seq<string>)
    requires forall i :: 0 <= i < |lines| ==> IsLine(lines[i])
    ensures SplitLines(Concat(lines)) == lines
    decreases |lines|
  {
    if lines != [] {
      SplitConcat(lines[1..]);
      SplitLinesCons(lines[0], Concat(lines[1..]));
    }
  }

  /** When no key and no value holds a line break, the script reads back as
      exactly one line per entry after the baseline line, in entry order. */
  lemma OneLinePerEntry(entries: seq<(string, string)>)
    requires forall i :: 0 <= i < |entries| ==> NoNewline(entries[i].0) && NoNewline(entries[i].1)
    ensures SplitLines(EnvScript(entries)) == ScriptLines(entries)
    ensures |SplitLines(EnvScript(entries))| == |entries| + 1
  {
    var lines := ScriptLines(entries);
    forall i | 0 <= i < |lines| ensures IsLine(lines[i]) {
      if i == 0 {
        BaselineIsLine();
      } else {
        AssignLineIsLine(entries[i - 1]);
      }
    }
    ScriptIsItsLines(entries);
    SplitConcat(lines);
  }

  /** The values are inserted without escaping: a value holding a line break
      splits its assignment over two lines of the script. */
  lemma ValueIsNotEscaped()
    ensures |SplitLines(EnvScript([("a", "x\ny")]))| == 3
  {
    var entries := [("a", "x\ny")];
    var first := "global.process.env.A = \"x";
    var second := "y\"";
    assert Upper("a") == "A";
    assert entries[..0] == [];
    assert EnvScript(entries) == BaselineLine + ((first + "\n") + (second + "\n"));
    BaselineIsLine();
    MakeLine(first);
    MakeLine(second);
    SplitLinesCons(BaselineLine, (first + "\n") + (second + "\n"));
    SplitLinesCons(first + "\n", second + "\n");
    SplitLinesCons(second + "\n", "");
    assert second + "\n" + "" == second + "\n";
    assert NewlineFrom("", 0) == None;
  }

  // ---- which entries give a line the sandbox reads as written -----------------

  /** An ASCII character JavaScript accepts inside an identifier. */
  predicate IsIdentifierChar(c: char) {
    'A' <= c <= 'Z' || 'a' <= c <= 'z' || '0' <= c <= '9' || c == '_' || c == '$'
  }

  /** A property name that may follow `env.`: not empty, identifier
      characters only, not starting with a digit. */
  predicate IsIdentifier(s: string) {
    |s| > 0 && !('0' <= s[0] <= '9') && forall i :: 0 <= i < |s| ==> IsIdentifierChar(s[i])
  }

  /** A text that, put between double quotes, is a string literal denoting
      exactly itself: no quote, no backslash, no line terminator. */
  predicate IsPlainLiteral(v: string) {
    forall i :: 0 <= i < |v| ==> v[i] != '"' && v[i] != '\\' && v[i] != '\n' && v[i] != '\r'
  }

  /** An entry whose assignment line is `env.<identifier> = "<plain literal>"`. */
  predicate WellFormedEntry(entry: (string, string)) {
    IsIdentifier(Upper(entry.0)) && IsPlainLiteral(entry.1)
  }

  predicate WellFormedEntries(entries: seq<(string, string)>) {
    forall i :: 0 <= i < |entries| ==> WellFormedEntry(entries[i])
  }

  lemma WellFormedHasNoNewline(entry: (string, string))
    requires WellFormedEntry(entry)
    ensures NoNewline(entry.0) && NoNewline(entry.1)
  {
    forall i | 0 <= i < |entry.0| ensures entry.0[i] != '\n' {
      assert IsIdentifierChar(Upper(entry.0)[i]);
    }
  }

  lemma SpliceAt(s: string, a: nat, b: nat, c: nat)
    requires a <= b <= c <= |s|
    ensures s == s[..a] + s[a..b] + s[b..c] + s[c..]
  {
  }

  /** Reads a line of the form `global.process.env.<KEY> = "<value>"` back
      into its key and value: the only assignment form the model evaluates. */
  function ReadAssignLine(line: string): Option<(string, string)> {
    var pre := "global.process.env.";
    if |line| < |pre| || line[..|pre|] != pre then None
    else
      var rest := line[|pre|..];
      match IndexOf(rest, " = \"")
      case None => None
      case Some(j) =>
        if j + 6 <= |rest| && IsIdentifier(rest[..j]) && rest[|rest| - 2..] == "\"\n"
           && IsPlainLiteral(rest[j + 4..|rest| - 2])
        then Some((rest[..j], rest[j + 4..|rest| - 2]))
        else None
  }

  /** A line that reads as an assignment is exactly
      `global.process.env.<identifier> = "<plain literal>"` and a newline. */
  lemma ReadAssignLineShape(line: string)
    ensures var r := ReadAssignLine(line);
      r.Some? ==>
        && IsIdentifier(r.value.0) && IsPlainLiteral(r.value.1)
        && line == "global.process.env." + r.value.0 + " = \"" + r.value.1 + "\"\n"
  {
    var pre := "global.process.env.";
    if |line| >= |pre| && line[..|pre|] == pre {
      var rest := line[|pre|..];
      assert line == pre + rest;
      var found := IndexOf(rest, " = \"");
      if found.Some? && found.value + 6 <= |rest| {
        SpliceAt(rest, found.value, found.value + 4, |rest| - 2);
      }
    }
  }

  /** An assignment line reads back as its upper-cased key and its value
      exactly when the entry is well formed. */
  lemma AssignLineReadsBack(entry: (string, string))
    ensures ReadAssignLine(AssignLine(entry)) ==
      (if WellFormedEntry(entry) then Some((Upper(entry.0), entry.1)) else None)
  {
    var pre, infix, key, value := "global.process.env.", " = \"", Upper(entry.0), entry.1;
    var line := AssignLine(entry);
    var rest := key + infix + value + "\"\n";
    assert line == pre + rest;
    assert line[..|pre|] == pre && line[|pre|..] == rest;
    assert OccursAt(rest, infix, |key|) by {
      assert rest[|key|..|key| + 4] == infix;
    }
    if IsIdentifier(key) {
      forall k | 0 <= k < |key| ensures !OccursAt(rest, infix, k) {
        assert rest[k] == key[k] && IsIdentifierChar(key[k]);
        assert rest[k..k + 4][0] == rest[k];
      }
    }
    var j := IndexOf(rest, infix).value;
    if j == |key| {
      assert rest[j + 4..|rest| - 2] == value && rest[|rest| - 2..] == "\"\n";
      assert rest[..j] == key;
    } else if j + 6 <= |rest| {
      assert rest[j + 4..|rest| - 2][|key| - 1 - j] == rest[|key| + 3] == '"';
    }
  }

  // ---- what evaluating the script leaves in process.env -----------------------

  /** Runs a script's lines in order: the baseline line creates
      `process.env` as `{ NODE_ENV: "production" }`, and every later line
      must be an assignment the model reads, which sets its key. `None`
      stands for a script outside that form, whose effect the model does not
      determine (it may fail to compile, or run other code). */
  function RunLines(lines: seq<string>): Option<map<string, string>>
    decreases |lines|
  {
    if lines == [] then None
    else if |lines| == 1 then
      if lines[0] == BaselineLine then Some(map[BaselineKey := BaselineValue]) else None
    else
      match (RunLines(lines[..|lines| - 1]), ReadAssignLine(lines[|lines| - 1]))
      case (Some(env), Some((key, value))) => Some(env[key := value])
      case _ => None
  }

  /** `context.eval(script)` as far as the model reads the script: the
      `process.env` it leaves, or `None` when it is outside the read form. */
  function RunScript(script: string): Option<map<string, string>> {
    RunLines(SplitLines(script))
  }

  /** The `process.env` object the script of well-formed entries leaves: the
      baseline `{ NODE_ENV: "production" }`, then each entry's upper-cased
      key set to its value, a later entry overwriting an earlier one. */
  function EnvAfter(entries: seq<(string, string)>): map<string, string>
    requires WellFormedEntries(entries)
  {
    if entries == [] then map[BaselineKey := BaselineValue]
    else
      var last := entries[|entries| - 1];
      EnvAfter(entries[..|entries| - 1])[Upper(last.0) := last.1]
  }

  lemma {:induction false} RunScriptLines(entries: seq<(string, string)>)
    requires WellFormedEntries(entries)
    ensures RunLines(ScriptLines(entries)) == Some(EnvAfter(entries))
    decreases |entries|
  {
    if entries == [] {
      assert ScriptLines(entries) == [BaselineLine];
    } else {
      var n := |entries| - 1;
      var lines := ScriptLines(entries);
      assert lines[..|lines| - 1] == ScriptLines(entries[..n]);
      RunScriptLines(entries[..n]);
      AssignLineReadsBack(entries[n]);
    }
  }

  lemma RunStops(lines: seq<string>)
    requires |lines| >= 2
    requires RunLines(lines[..|lines| - 1]).None? || ReadAssignLine(lines[|lines| - 1]).None?
    ensures RunLines(lines) == None
  {
  }

  lemma {:induction false} MalformedLineStopsRun(entries: seq<(string, string)>, i: nat)
    requires i < |entries| && !WellFormedEntry(entries[i])
    ensures RunLines(ScriptLines(entries)) == None
    decreases |entries|
  {
    var n := |entries| - 1;
    var lines := ScriptLines(entries);
    assert lines[..|lines| - 1] == ScriptLines(entries[..n]);
    if i == n {
      AssignLineReadsBack(entries[n]);
    } else {
      MalformedLineStopsRun(entries[..n], i);
    }
    RunStops(lines);
  }

  /** Running the script of well-formed entries leaves exactly `EnvAfter`. */
  lemma ScriptRunsAsEntries(entries: seq<(string, string)>)
    requires WellFormedEntries(entries)
    ensures RunScript(EnvScript(entries)) == Some(EnvAfter(entries))
  {
    forall i | 0 <= i < |entries|
      ensures NoNewline(entries[i].0) && NoNewline(entries[i].1)
    {
      WellFormedHasNoNewline(entries[i]);
    }
    OneLinePerEntry(entries);
    RunScriptLines(entries);
  }

  /** Among entries without line breaks, a single malformed one (a quote or
      backslash in its value, a key that is no identifier) takes the whole
      script out of the read form: no line of it is taken to run. */
  lemma MalformedEntryIsNotRead(entries: seq<(string, string)>, i: nat)
    requires forall j :: 0 <= j < |entries| ==> NoNewline(entries[j].0) && NoNewline(entries[j].1)
    requires i < |entries| && !WellFormedEntry(entries[i])
    ensures RunScript(EnvScript(entries)) == None
  {
    OneLinePerEntry(entries);
    MalformedLineStopsRun(entries, i);
  }

  /** Whether some entry's key upper-cases to `key`. */
  predicate SetsKey(entries: seq<(string, string)>, key: string) {
    exists i :: 0 <= i < |entries| && Upper(entries[i].0) == key
  }

  lemma SetsKeySnoc(entries: seq<(string, string)>, key: string)
    requires entries != []
    ensures SetsKey(entries, key) <==>
      SetsKey(entries[..|entries| - 1], key) || Upper(entries[|entries| - 1].0) == key
  {
    var n := |entries| - 1;
    forall i | 0 <= i < n ensures entries[..n][i] == entries[i] { }
  }

  /** The keys of process.env: the baseline key and every upper-cased entry key. */
  lemma {:induction false} EnvKeys(entries: seq<(string, string)>, key: string)
    requires WellFormedEntries(entries)
    ensures key in EnvAfter(entries) <==> key == BaselineKey || SetsKey(entries, key)
    decreases |entries|
  {
    if entries != [] {
      var n := |entries| - 1;
      EnvKeys(entries[..n], key);
      SetsKeySnoc(entries, key);
    }
  }

  /** The last entry whose key upper-cases to `key` decides its value. */
  lemma {:induction false} LastAssignmentWins(entries: seq<(string, string)>, i: nat)
    requires WellFormedEntries(entries)
    requires i < |entries|
    requires forall j :: i < j < |entries| ==> Upper(entries[j].0) != Upper(entries[i].0)
    ensures Upper(entries[i].0) in EnvAfter(entries)
    ensures EnvAfter(entries)[Upper(entries[i].0)] == entries[i].1
    decreases |entries|
  {
    var n := |entries| - 1;
    if i < n {
      LastAssignmentWins(entries[..n], i);
    }
  }

  /** A key no entry sets keeps its baseline state: NODE_ENV stays
      "production", any other key stays absent. */
  lemma {:induction false} UnsetKeyKeepsBaseline(entries: seq<(string, string)>, key: string)
    requires WellFormedEntries(entries)
    requires !SetsKey(entries, key)
    ensures key == BaselineKey ==> key in EnvAfter(entries) && EnvAfter(entries)[key] == BaselineValue
    ensures key != BaselineKey ==> key !in EnvAfter(entries)
    decreases |entries|
  {
    if entries != [] {
      var n := |entries| - 1;
      SetsKeySnoc(entries, key);
      UnsetKeyKeepsBaseline(entries[..n], key);
    }
  }

  /** Nothing stops an entry from replacing the baseline: a `node_env` key
      overrides NODE_ENV. */
  lemma NodeEnvCanBeOverridden()
    ensures WellFormedEntries([("node_env", "development")])
    ensures EnvAfter([("node_env", "development")])[BaselineKey] == "development"
  {
    var entries := [("node_env", "development")];
    assert Upper("node_env") == BaselineKey;
    assert IsIdentifier(BaselineKey) by {
      forall i | 0 <= i < |BaselineKey| ensures IsIdentifierChar(BaselineKey[i]) {
        assert BaselineKey[i] in "NODE_ENV";
      }
    }
    assert WellFormedEntries(entries);
    LastAssignmentWins(entries, 0);
  }
}
