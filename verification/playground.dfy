/**
 * The simulated run of src/components/EnhancedLearning/CodePlayground.tsx:
 * `simulatePythonExecution` picks a canned result from the text of the
 * program once `checkPythonSyntax` accepts it, and `runCode` shows either
 * that result or the error.
 */
module Playground {
  import opened Wrappers
  import opened Strings
  import opened PythonSyntax

  predicate NoLineTerminator(s: string) {
    forall j :: 0 <= j < |s| ==> !IsLineTerminator(s[j])
  }

  /** The text `print(` + `content` + `)` that one match of `print\((.*?)\)` covers. */
  function Statement(content: string): string {
    "print(" + content + ")"
  }

  /**
   * Where the lazy group `(.*?)` that starts at `from` must stop: the first
   * `)` or line terminator (`.` does not cross one), or the end of the text.
   */
  function CallEnd(s: string, from: nat): (r: nat)
    requires from <= |s|
    ensures from <= r <= |s|
    ensures forall j :: from <= j < r ==> s[j] != ')' && !IsLineTerminator(s[j])
    ensures r < |s| ==> s[r] == ')' || IsLineTerminator(s[r])
    decreases |s| - from
  {
    if from == |s| || s[from] == ')' || IsLineTerminator(s[from]) then from
    else CallEnd(s, from + 1)
  }

  /** One match: where it starts and what the group captured. */
  datatype Match = Match(start: nat, content: string)

  /** Index just past a match. */
  function After(m: Match): nat {
    m.start + |Statement(m.content)|
  }

  /** A match can start at `i`: `print(`, then a `)` before any line terminator. */
  predicate MatchesAt(s: string, i: nat) {
    OccursAt(s, "print(", i) && var e := CallEnd(s, i + 6); e < |s| && s[e] == ')'
  }

  /**
   * `code.match(/print\((.*?)\)/g)` searched from `from`: each match is the
   * leftmost one at or after the end of the previous one.
   */
  function PrintMatches(s: string, from: nat): (r: seq<Match>)
    requires from <= |s|
    ensures forall k :: 0 <= k < |r| ==> from <= r[k].start
    decreases |s| - from
  {
    if from == |s| then []
    else if MatchesAt(s, from) then
      [Found(s, from)] + PrintMatches(s, CallEnd(s, from + 6) + 1)
    else PrintMatches(s, from + 1)
  }

  /** Every match is a statement of the text. */
  lemma {:induction false} PrintMatchesAreStatements(s: string, from: nat)
    requires from <= |s|
    ensures forall k :: 0 <= k < |PrintMatches(s, from)| ==> IsStatement(s, PrintMatches(s, from)[k])
    decreases |s| - from
  {
    if from < |s| {
      PrintMatchesStep(s, from);
      if MatchesAt(s, from) {
        var rest := PrintMatches(s, CallEnd(s, from + 6) + 1);
        PrintMatchesAreStatements(s, CallEnd(s, from + 6) + 1);
        var r := [Found(s, from)] + rest;
        forall k | 1 <= k < |r| ensures IsStatement(s, r[k]) {
          assert r[k] == rest[k - 1];
        }
      } else {
        PrintMatchesAreStatements(s, from + 1);
      }
    }
  }

  /** `m` is `print(` + its content + `)` in the text, and the content holds no `)` and no line break. */
  predicate IsStatement(s: string, m: Match) {
    OccursAt(s, Statement(m.content), m.start) && ')' !in m.content && NoLineTerminator(m.content)
  }

  /** The match that starts at `i`. */
  function Found(s: string, i: nat): (m: Match)
    requires MatchesAt(s, i)
    ensures m.start == i && IsStatement(s, m)
    ensures After(m) == CallEnd(s, i + 6) + 1
  {
    var e := CallEnd(s, i + 6);
    var content := s[i + 6..e];
    assert s[i..e + 1] == s[i..i + 6] + content + s[e..e + 1];
    Match(i, content)
  }

  /** One step of the global search. */
  lemma PrintMatchesStep(s: string, from: nat)
    requires from < |s|
    ensures MatchesAt(s, from) ==>
              PrintMatches(s, from) == [Found(s, from)] + PrintMatches(s, CallEnd(s, from + 6) + 1)
    ensures !MatchesAt(s, from) ==> PrintMatches(s, from) == PrintMatches(s, from + 1)
  {
  }

  /** Each match ends before the next one starts. */
  predicate Ordered(ms: seq<Match>) {
    forall k :: 0 <= k < |ms| - 1 ==> After(ms[k]) <= ms[k + 1].start
  }

  /** A match followed by later, ordered matches gives ordered matches. */
  lemma OrderedCons(m: Match, rest: seq<Match>)
    requires Ordered(rest) && (rest != [] ==> After(m) <= rest[0].start)
    ensures Ordered([m] + rest)
  {
    var r := [m] + rest;
    forall k | 0 <= k < |r| - 1 ensures After(r[k]) <= r[k + 1].start {
      assert r[k + 1] == rest[k];
      if k > 0 {
        assert r[k] == rest[k - 1];
      }
    }
  }

  /** Matches do not overlap and come in text order. */
  lemma {:induction false} PrintMatchesOrdered(s: string, from: nat)
    requires from <= |s|
    ensures Ordered(PrintMatches(s, from))
    decreases |s| - from
  {
    if from < |s| {
      PrintMatchesStep(s, from);
      if MatchesAt(s, from) {
        var e := CallEnd(s, from + 6);
        PrintMatchesOrdered(s, e + 1);
        OrderedCons(Found(s, from), PrintMatches(s, e + 1));
      } else {
        PrintMatchesOrdered(s, from + 1);
      }
    }
  }

  /** No match is skipped: nothing can start a match before the first one found, or anywhere when none is. */
  lemma {:induction false} PrintMatchesLeftmost(s: string, from: nat)
    requires from <= |s|
    ensures var r := PrintMatches(s, from);
            && (r != [] ==> forall i :: from <= i < r[0].start ==> !MatchesAt(s, i))
            && (r == [] ==> forall i :: from <= i < |s| ==> !MatchesAt(s, i))
    decreases |s| - from
  {
    if from < |s| {
      PrintMatchesStep(s, from);
      if !MatchesAt(s, from) {
        PrintMatchesLeftmost(s, from + 1);
      }
    }
  }

  /** `statement.match(/print\((.*?)\)/)?.[1] || ''`: the group of the first match, or empty. */
  function Rematch(statement: string): string {
    var ms := PrintMatches(statement, 0);
    if ms == [] then "" else ms[0].content
  }

  /** Matching a matched statement again captures the same content. */
  lemma RematchRecovers(content: string)
    requires ')' !in content && NoLineTerminator(content)
    ensures Rematch(Statement(content)) == content
  {
    var s := Statement(content);
    var e := 6 + |content|;
    assert s[..6] == "print(";
    assert OccursAt(s, "print(", 0);
    forall j | 6 <= j < e ensures s[j] != ')' && !IsLineTerminator(s[j]) {
      assert s[j] == content[j - 6];
    }
    CallEndStops(s, 6, e);
    assert s[6..e] == content;
  }

  /** `CallEnd` stops at the first `)` past a run free of `)` and line terminators. */
  lemma {:induction false} CallEndStops(s: string, from: nat, e: nat)
    requires from <= e < |s| && s[e] == ')'
    requires forall j :: from <= j < e ==> s[j] != ')' && !IsLineTerminator(s[j])
    ensures CallEnd(s, from) == e
    decreases e - from
  {
    if from < e {
      CallEndStops(s, from + 1, e);
    }
  }

  /** `content.replace(/['"]/g, '')`. */
  function StripQuotes(s: string): (r: string)
    ensures '\'' !in r && '"' !in r
    ensures forall c :: c in r <==> c in s && c != '\'' && c != '"'
  {
    if s == [] then []
    else if s[0] == '\'' || s[0] == '"' then StripQuotes(s[1..])
    else [s[0]] + StripQuotes(s[1..])
  }

  /** Removing quotes piecewise is removing them from the whole. */
  lemma {:induction false} StripQuotesDistributes(a: string, b: string)
    ensures StripQuotes(a + b) == StripQuotes(a) + StripQuotes(b)
  {
    if a != [] {
      assert (a + b)[1..] == a[1..] + b;
      StripQuotesDistributes(a[1..], b);
    } else {
      assert a + b == b;
    }
  }

  /** Text without quotes passes unchanged, so stripping twice is stripping once. */
  lemma {:induction false} StripQuotesIdempotent(s: string)
    requires '\'' !in s && '"' !in s
    ensures StripQuotes(s) == s
  {
    if s != [] {
      assert s[0] != '\'' && s[0] != '"';
      StripQuotesIdempotent(s[1..]);
      assert s == [s[0]] + s[1..];
    }
  }

  /** One output line per match: the statement re-matched, its capture stripped of quotes. */
  function Outputs(ms: seq<Match>): (r: seq<string>)
    ensures |r| == |ms|
  {
    if ms == [] then []
    else [StripQuotes(Rematch(Statement(ms[0].content)))] + Outputs(ms[1..])
  }

  /** Contents free of `)` and line terminators, as `PrintMatches` captures them. */
  predicate CleanContents(ms: seq<Match>) {
    forall k :: 0 <= k < |ms| ==> ')' !in ms[k].content && NoLineTerminator(ms[k].content)
  }

  /** Re-matching a clean capture recovers it, so each output line is that capture without quotes. */
  lemma {:induction false} OutputsAreContents(ms: seq<Match>)
    requires CleanContents(ms)
    ensures forall k :: 0 <= k < |ms| ==> Outputs(ms)[k] == StripQuotes(ms[k].content)
  {
    if ms != [] {
      RematchRecovers(ms[0].content);
      assert CleanContents(ms[1..]) by {
        forall k | 0 <= k < |ms[1..]| ensures ')' !in ms[1..][k].content && NoLineTerminator(ms[1..][k].content) {
          assert ms[1..][k] == ms[k + 1];
        }
      }
      OutputsAreContents(ms[1..]);
    }
  }

  /** The text shown for a program that prints: the output lines joined by newlines. */
  function PrintedOutput(code: string): (r: string)
    ensures PrintMatches(code, 0) == [] ==> r == ""
  {
    Join(Outputs(PrintMatches(code, 0)), '\n')
  }

  const FunctionDefined := "Function defined successfully"
  const ModuleImported := "Module imported successfully"
  const Executed := "Code executed successfully"

  /** `simulatePythonExecution`: the thrown syntax message, or the canned output. */
  function Simulate(code: string): (r: Result<string, string>)
    ensures r.Err? <==> CheckPythonSyntax(code).Some?
    ensures r.Err? ==> r.error == CheckPythonSyntax(code).value
    ensures r.Ok? && Contains(code, "print(") ==> r.value == PrintedOutput(code)
    ensures r.Ok? && !Contains(code, "print(") && Contains(code, "def ") ==> r.value == FunctionDefined
    ensures r.Ok? && !Contains(code, "print(") && !Contains(code, "def ") && Contains(code, "import ") ==>
              r.value == ModuleImported
    ensures r.Ok? && !Contains(code, "print(") && !Contains(code, "def ") && !Contains(code, "import ") ==>
              r.value == Executed
  {
    match CheckPythonSyntax(code)
    case Some(message) => Err(message)
    case None =>
      if Contains(code, "print(") then
        Ok(PrintedOutput(code))
      else if Contains(code, "def ") then Ok(FunctionDefined)
      else if Contains(code, "import ") then Ok(ModuleImported)
      else Ok(Executed)
  }

  /**
   * A program that prints shows one line per `print(...)` match, in order:
   * the captured text without quotes.
   */
  lemma PrintOutputLines(code: string)
    requires PrintMatches(code, 0) != []
    ensures |Split(PrintedOutput(code), '\n')| == |PrintMatches(code, 0)|
    ensures forall k :: 0 <= k < |PrintMatches(code, 0)| ==>
              Split(PrintedOutput(code), '\n')[k] == StripQuotes(PrintMatches(code, 0)[k].content)
  {
    var ms := PrintMatches(code, 0);
    PrintMatchesAreStatements(code, 0);
    assert CleanContents(ms) by {
      forall k | 0 <= k < |ms| ensures ')' !in ms[k].content && NoLineTerminator(ms[k].content) {
        assert IsStatement(code, ms[k]);
      }
    }
    OutputsAreContents(ms);
    var outs := Outputs(ms);
    forall k | 0 <= k < |outs| ensures '\n' !in outs[k] {
      assert NoLineTerminator(ms[k].content);
    }
    SplitJoin(outs, '\n');
  }

  /** What the output panel holds after `runCode`. */
  datatype Panel = Panel(output: string, error: string)

  /** `runCode`: the result goes to the output, a thrown message to the error prefixed with `Error: `. */
  function RunCode(code: string): (r: Panel)
    ensures r.error == "" <==> CheckPythonSyntax(code).None?
    ensures CheckPythonSyntax(code).Some? ==> r == Panel("", "Error: " + CheckPythonSyntax(code).value)
    ensures CheckPythonSyntax(code).None? ==> r.output == Simulate(code).value
  {
    match Simulate(code)
    case Ok(out) => Panel(out, "")
    case Err(message) => Panel("", "Error: " + message)
  }
}
