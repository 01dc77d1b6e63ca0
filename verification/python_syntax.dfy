/**
 * `checkPythonSyntax` of src/components/EnhancedLearning/CodePlayground.tsx:
 * a bracket matcher whose stack is carried from line to line, then an
 * indentation rule, then two regular-expression checks, in that order.
 */
module PythonSyntax {
  import opened Wrappers
  import opened Strings

  predicate IsOpener(c: char) {
    c == '(' || c == '[' || c == '{'
  }

  /** `Object.values(pairs).includes(c)`. */
  predicate IsCloser(c: char) {
    c == ')' || c == ']' || c == '}'
  }

  /** `pairs[o]`: the closer of an opener, `undefined` for anything else. */
  function Pair(o: char): (r: Option<char>)
    ensures r.Some? <==> IsOpener(o)
    ensures r.Some? ==> IsCloser(r.value)
  {
    if o == '(' then Some(')') else if o == '[' then Some(']') else if o == '{' then Some('}') else None
  }

  /** Every character of a bracket stack is an opener. */
  predicate Openers(stack: seq<char>) {
    forall i :: 0 <= i < |stack| ==> IsOpener(stack[i])
  }

  /** Where the bracket scan stands: failed at a closer on a line (0-based), or still going with a stack. */
  datatype Scan = Unmatched(c: char, line: nat) | Open(stack: seq<char>)

  /** The inner loop (lines 51-60) over the characters of line number `n`. */
  function ScanLine(line: string, n: nat, stack: seq<char>): (r: Scan)
    ensures r.Unmatched? ==> r.line == n && IsCloser(r.c)
    ensures Openers(stack) && r.Open? ==> Openers(r.stack)
  {
    if line == [] then Open(stack)
    else
      var c := line[0];
      if IsOpener(c) then ScanLine(line[1..], n, stack + [c])
      else if IsCloser(c) then
        if stack == [] || Pair(stack[|stack| - 1]) != Some(c) then Unmatched(c, n)
        else ScanLine(line[1..], n, stack[..|stack| - 1])
      else ScanLine(line[1..], n, stack)
  }

  /** The outer loop (lines 49-61): the stack carries over from one line to the next. */
  function ScanLines(lines: seq<string>, n: nat, stack: seq<char>): (r: Scan)
    ensures r.Unmatched? ==> n <= r.line < n + |lines| && IsCloser(r.c)
    ensures Openers(stack) && r.Open? ==> Openers(r.stack)
  {
    if lines == [] then Open(stack)
    else match ScanLine(lines[0], n, stack)
      case Unmatched(c, i) => Unmatched(c, i)
      case Open(rest) => ScanLines(lines[1..], n + 1, rest)
  }

  /**
   * The same matcher over the whole text at once, counting newlines for the
   * line number: the reference the per-line scan is proved equal to.
   */
  function FlatScan(s: string, n: nat, stack: seq<char>): (r: Scan)
    ensures r.Unmatched? ==> IsCloser(r.c)
    ensures (forall i :: 0 <= i < |stack| ==> IsOpener(stack[i])) ==>
              r.Open? ==> forall i :: 0 <= i < |r.stack| ==> IsOpener(r.stack[i])
  {
    if s == [] then Open(stack)
    else
      var c := s[0];
      if c == '\n' then FlatScan(s[1..], n + 1, stack)
      else if IsOpener(c) then FlatScan(s[1..], n, stack + [c])
      else if IsCloser(c) then
        if stack == [] || Pair(stack[|stack| - 1]) != Some(c) then Unmatched(c, n)
        else FlatScan(s[1..], n, stack[..|stack| - 1])
      else FlatScan(s[1..], n, stack)
  }

  lemma {:induction false} ScanLineIsFlat(line: string, n: nat, stack: seq<char>)
    requires '\n' !in line
    ensures ScanLine(line, n, stack) == FlatScan(line, n, stack)
  {
    if line != [] {
      assert line[0] != '\n';
      var c := line[0];
      if IsOpener(c) {
        ScanLineIsFlat(line[1..], n, stack + [c]);
      } else if IsCloser(c) {
        if !(stack == [] || Pair(stack[|stack| - 1]) != Some(c)) {
          ScanLineIsFlat(line[1..], n, stack[..|stack| - 1]);
        }
      } else {
        ScanLineIsFlat(line[1..], n, stack);
      }
    }
  }

  /** Scanning a line, its newline and the rest is scanning the line, then the rest one line further down. */
  lemma {:induction false} FlatScanAcrossNewline(line: string, rest: string, n: nat, stack: seq<char>)
    requires '\n' !in line
    ensures FlatScan(line + ['\n'] + rest, n, stack) ==
              match ScanLine(line, n, stack)
              case Unmatched(c, i) => Unmatched(c, i)
              case Open(st) => FlatScan(rest, n + 1, st)
  {
    var s := line + ['\n'] + rest;
    if line == [] {
      assert s == ['\n'] + rest;
      assert s[1..] == rest;
    } else {
      assert line[0] != '\n';
      assert s[0] == line[0];
      assert s[1..] == line[1..] + ['\n'] + rest;
      var c := line[0];
      if IsOpener(c) {
        FlatScanAcrossNewline(line[1..], rest, n, stack + [c]);
      } else if IsCloser(c) {
        if !(stack == [] || Pair(stack[|stack| - 1]) != Some(c)) {
          FlatScanAcrossNewline(line[1..], rest, n, stack[..|stack| - 1]);
        }
      } else {
        FlatScanAcrossNewline(line[1..], rest, n, stack);
      }
    }
  }

  /** Splitting into lines and scanning each, carrying the stack, is the flat scan. */
  lemma {:induction false} ScanLinesIsFlat(s: string, n: nat, stack: seq<char>)
    ensures ScanLines(Split(s, '\n'), n, stack) == FlatScan(s, n, stack)
    decreases |s|
  {
    var k := IndexOf(s, '\n');
    if k == |s| {
      assert s[..k] == s;
      ScanLineIsFlat(s, n, stack);
    } else {
      var lines := Split(s, '\n');
      assert lines == [s[..k]] + Split(s[k + 1..], '\n');
      assert lines[1..] == Split(s[k + 1..], '\n');
      assert s == s[..k] + ['\n'] + s[k + 1..];
      FlatScanAcrossNewline(s[..k], s[k + 1..], n, stack);
      match ScanLine(s[..k], n, stack)
      case Unmatched(c, i) =>
      case Open(st) =>
        ScanLinesIsFlat(s[k + 1..], n + 1, st);
    }
  }

  /** Every `(` has a `)` somewhere after it. */
  predicate ParensClosed(s: string) {
    forall m :: 0 <= m < |s| && s[m] == '(' ==> ')' in s[m + 1..]
  }

  /** An opener still on the stack below the final height must be popped, and only `)` pops a `(`. */
  lemma {:induction false} PoppedParenMeetsCloser(t: string, n: nat, stack: seq<char>, fin: seq<char>, k: nat)
    requires FlatScan(t, n, stack) == Open(fin)
    requires |fin| <= k < |stack| && stack[k] == '('
    ensures ')' in t
  {
    if t != [] {
      var c := t[0];
      if c == '\n' {
        PoppedParenMeetsCloser(t[1..], n + 1, stack, fin, k);
        assert t[1..] <= t[1..];
      } else if IsOpener(c) {
        PoppedParenMeetsCloser(t[1..], n, stack + [c], fin, k);
      } else if IsCloser(c) {
        if k == |stack| - 1 {
          assert c == ')';
        } else {
          PoppedParenMeetsCloser(t[1..], n, stack[..|stack| - 1], fin, k);
        }
      } else {
        PoppedParenMeetsCloser(t[1..], n, stack, fin, k);
      }
      if ')' in t[1..] {
        var j :| 0 <= j < |t[1..]| && t[1..][j] == ')';
        assert t[j + 1] == ')';
      }
    }
  }

  /** A scan that ends with an empty stack leaves no `(` without a later `)`. */
  lemma {:induction false} BalancedClosesParens(s: string, n: nat, stack: seq<char>)
    requires FlatScan(s, n, stack) == Open([])
    ensures ParensClosed(s)
  {
    if s != [] {
      var c := s[0];
      var n': nat, st' := n, stack;
      if c == '\n' {
        n' := n + 1;
      } else if IsOpener(c) {
        st' := stack + [c];
      } else if IsCloser(c) && stack != [] {
        st' := stack[..|stack| - 1];
      }
      assert FlatScan(s[1..], n', st') == Open([]);
      BalancedClosesParens(s[1..], n', st');
      forall m | 0 <= m < |s| && s[m] == '(' ensures ')' in s[m + 1..] {
        if m == 0 {
          PoppedParenMeetsCloser(s[1..], n, stack + [c], [], |stack|);
        } else {
          assert s[1..][m - 1] == '(';
          assert s[1..][m..] == s[m + 1..];
        }
      }
    }
  }

  /** The index past the run of whitespace starting at `from` (`\s*`). */
  function SkipWhitespace(s: string, from: nat): (r: nat)
    requires from <= |s|
    ensures from <= r <= |s|
    ensures r < |s| ==> !IsWhitespace(s[r])
    decreases |s| - from
  {
    if from < |s| && IsWhitespace(s[from]) then SkipWhitespace(s, from + 1) else from
  }

  /** `\w` without the `u` flag: ASCII letters, digits and underscore. */
  predicate IsWordChar(c: char) {
    ('a' <= c <= 'z') || ('A' <= c <= 'Z') || ('0' <= c <= '9') || c == '_'
  }

  function SkipWord(s: string, from: nat): (r: nat)
    requires from <= |s|
    ensures from <= r <= |s|
    decreases |s| - from
  {
    if from < |s| && IsWordChar(s[from]) then SkipWord(s, from + 1) else from
  }

  /** `[^)]*$`: no `)` from `from` to the end of the whole text. */
  predicate NoCloserFrom(s: string, from: nat) {
    forall j :: from <= j < |s| ==> s[j] != ')'
  }

  /**
   * `/print\s*\([^)]*$/` matches at `i`. A whitespace run is followed by `(`
   * only where it ends, so the match, if any, is the greedy one.
   */
  predicate PrintUnclosedAt(s: string, i: nat) {
    && OccursAt(s, "print", i)
    && var p := SkipWhitespace(s, i + 5);
       p < |s| && s[p] == '(' && NoCloserFrom(s, p + 1)
  }

  /** `/def\s+\w+\s*\([^)]*$/` matches at `i`. */
  predicate DefUnclosedAt(s: string, i: nat) {
    && OccursAt(s, "def", i)
    && var w := SkipWhitespace(s, i + 3);
       && w > i + 3
       && var e := SkipWord(s, w);
          && e > w
          && var p := SkipWhitespace(s, e);
             p < |s| && s[p] == '(' && NoCloserFrom(s, p + 1)
  }

  predicate PrintRegexMatches(s: string) {
    exists i | 0 <= i < |s| :: PrintUnclosedAt(s, i)
  }

  predicate DefRegexMatches(s: string) {
    exists i | 0 <= i < |s| :: DefUnclosedAt(s, i)
  }

  /** Both regular expressions end in `\([^)]*$`, which a text whose every `(` is closed cannot match. */
  lemma ClosedParensDefeatRegexes(s: string)
    requires ParensClosed(s)
    ensures !PrintRegexMatches(s) && !DefRegexMatches(s)
  {
    forall p | 0 <= p < |s| && s[p] == '(' ensures !NoCloserFrom(s, p + 1) {
      var j :| 0 <= j < |s[p + 1..]| && s[p + 1..][j] == ')';
      assert s[p + 1 + j] == ')';
    }
  }

  /** The indentation rule (lines 68-77) for one line. */
  predicate BadlyIndented(line: string) {
    var t := Trim(line);
    t != [] && SearchNonWhitespace(line) % 4 != 0 && t[0] != '#'
  }

  /**
   * The rule in plain terms: the line has a first non-whitespace character,
   * the whitespace before it is not a multiple of four long, and it does
   * not start a comment.
   */
  lemma BadlyIndentedMeans(line: string)
    ensures BadlyIndented(line) <==>
              exists k :: 0 <= k < |line| && AllWhitespace(line[..k]) && !IsWhitespace(line[k])
                            && k % 4 != 0 && line[k] != '#'
  {
    TrimEmptyIffBlank(line);
    if Trim(line) != [] {
      TrimStartsAtSearch(line);
    }
    forall k | 0 <= k < |line| && AllWhitespace(line[..k]) && !IsWhitespace(line[k])
      ensures k == SearchNonWhitespace(line) && Trim(line) != []
    {
      forall j | 0 <= j < k ensures IsWhitespace(line[j]) {
        assert line[..k][j] == line[j];
      }
      var r := SearchNonWhitespace(line);
      if r != -1 {
        forall j | 0 <= j < r ensures IsWhitespace(line[j]) {
          assert line[..r][j] == line[j];
        }
      }
    }
  }

  /** The first index, from `from` on, whose flag is set. */
  function FirstSet(flags: seq<bool>, from: nat): (r: Option<nat>)
    requires from <= |flags|
    ensures r.Some? ==> from <= r.value < |flags| && flags[r.value]
    ensures r.Some? ==> forall j :: from <= j < r.value ==> !flags[j]
    ensures r.None? ==> forall j :: from <= j < |flags| ==> !flags[j]
    decreases |flags| - from
  {
    if from == |flags| then None
    else if flags[from] then Some(from)
    else FirstSet(flags, from + 1)
  }

  /** The first line that breaks the indentation rule (the loop of lines 68-77). */
  function FirstBadIndent(lines: seq<string>): (r: Option<nat>)
    ensures r.Some? ==> r.value < |lines| && BadlyIndented(lines[r.value])
    ensures r.Some? ==> forall j :: 0 <= j < r.value ==> !BadlyIndented(lines[j])
    ensures r.None? ==> forall j :: 0 <= j < |lines| ==> !BadlyIndented(lines[j])
  {
    FirstSet(BadFlags(lines), 0)
  }

  /** Which lines break the indentation rule. */
  function BadFlags(lines: seq<string>): (r: seq<bool>)
    ensures |r| == |lines| && forall j :: 0 <= j < |lines| ==> r[j] == BadlyIndented(lines[j])
  {
    seq(|lines|, j requires 0 <= j < |lines| => BadlyIndented(lines[j]))
  }

  /** The problems `checkPythonSyntax` reports; line numbers are 1-based. */
  datatype Problem =
    | UnmatchedCloser(c: char, line: nat)
    | UnclosedOpener(c: char)
    | BadIndent(line: nat)
    | PrintUnclosed
    | DefUnclosed

  /** The message returned for each problem. */
  function Describe(p: Problem): string {
    match p
    case UnmatchedCloser(c, line) => "SyntaxError: Unmatched " + [c] + " on line " + Decimal(line)
    case UnclosedOpener(c) => "SyntaxError: Unmatched " + [c]
    case BadIndent(line) => "IndentationError: Expected an indented block on line " + Decimal(line)
    case PrintUnclosed => "SyntaxError: Missing closing parenthesis in print statement"
    case DefUnclosed => "SyntaxError: Missing closing parenthesis in function definition"
  }

  /** The checks of lines 37-92 in their order; the first that fails decides. */
  function Diagnose(code: string): (r: Option<Problem>)
    ensures r.Some? && r.value.UnmatchedCloser? ==>
              IsCloser(r.value.c) && 1 <= r.value.line <= |Split(code, '\n')|
    ensures r.Some? && r.value.UnclosedOpener? ==> IsOpener(r.value.c)
    ensures r.Some? && r.value.BadIndent? ==> FirstBadLine(Split(code, '\n'), r.value)
  {
    var lines := Split(code, '\n');
    match ScanLines(lines, 0, [])
    case Unmatched(c, i) => Some(UnmatchedCloser(c, i + 1))
    case Open(stack) =>
      if stack != [] then Some(UnclosedOpener(stack[|stack| - 1]))
      else match FirstBadIndent(lines)
        case Some(i) => Some(BadIndent(i + 1))
        case None =>
          if PrintRegexMatches(code) then Some(PrintUnclosed)
          else if DefRegexMatches(code) then Some(DefUnclosed)
          else None
  }

  /** Once the brackets balance, the outcome is decided by the indentation rule alone. */
  lemma BalancedOutcome(code: string)
    requires FlatScan(code, 0, []) == Open([])
    ensures var lines := Split(code, '\n');
            && (Diagnose(code).None? <==> forall j :: 0 <= j < |lines| ==> !BadlyIndented(lines[j]))
            && (Diagnose(code).Some? ==> FirstBadLine(lines, Diagnose(code).value))
            && Diagnose(code) == IndentVerdict(lines)
  {
    var lines := Split(code, '\n');
    ScanLinesIsFlat(code, 0, []);
    BalancedClosesParens(code, 0, []);
    ClosedParensDefeatRegexes(code);
    assert Diagnose(code) == IndentVerdict(lines);
  }

  /** `p` reports the first badly indented line, by its 1-based number. */
  predicate FirstBadLine(lines: seq<string>, p: Problem) {
    && p.BadIndent?
    && 1 <= p.line <= |lines|
    && BadlyIndented(lines[p.line - 1])
    && forall j :: 0 <= j < p.line - 1 ==> !BadlyIndented(lines[j])
  }

  /** What `Diagnose` returns once the brackets balance and the regular expressions cannot match. */
  function IndentVerdict(lines: seq<string>): (r: Option<Problem>)
    ensures r.None? <==> forall j :: 0 <= j < |lines| ==> !BadlyIndented(lines[j])
    ensures r.Some? ==> FirstBadLine(lines, r.value)
  {
    match FirstBadIndent(lines)
    case Some(i) => Some(BadIndent(i + 1))
    case None => None
  }

  /**
   * The bracket result decides first: a stray closer is reported with its
   * 1-based line, an opener left over is reported by the last one opened,
   * and only a balanced text reaches the indentation rule.
   */
  lemma DiagnoseMeaning(code: string)
    ensures var scan := FlatScan(code, 0, []);
            scan.Unmatched? ==> Diagnose(code) == Some(UnmatchedCloser(scan.c, scan.line + 1))
    ensures var scan := FlatScan(code, 0, []);
            scan.Open? && scan.stack != [] ==> Diagnose(code) == Some(UnclosedOpener(scan.stack[|scan.stack| - 1]))
    ensures var scan := FlatScan(code, 0, []);
            scan == Open([]) ==> Diagnose(code).None? || Diagnose(code).value.BadIndent?
    ensures FlatScan(code, 0, []) == Open([]) ==> Diagnose(code) == IndentVerdict(Split(code, '\n'))
  {
    ScanLinesIsFlat(code, 0, []);
    if FlatScan(code, 0, []) == Open([]) {
      BalancedOutcome(code);
    }
  }

  /** The two "missing closing parenthesis" messages are never returned. */
  lemma RegexChecksUnreachable(code: string)
    ensures Diagnose(code) != Some(PrintUnclosed) && Diagnose(code) != Some(DefUnclosed)
  {
    DiagnoseMeaning(code);
  }

  /** The message for a stray closer, then for a leftover opener. */
  lemma BracketMessages(code: string)
    ensures var scan := FlatScan(code, 0, []);
            scan.Unmatched? ==>
              && Diagnose(code).Some?
              && Describe(Diagnose(code).value) == "SyntaxError: Unmatched " + [scan.c] + " on line " + Decimal(scan.line + 1)
    ensures var scan := FlatScan(code, 0, []);
            scan.Open? && scan.stack != [] ==>
              && Diagnose(code).Some?
              && Describe(Diagnose(code).value) == "SyntaxError: Unmatched " + [scan.stack[|scan.stack| - 1]]
  {
    DiagnoseMeaning(code);
  }

  /** The message for the first badly indented line of a balanced text. */
  lemma IndentMessage(code: string)
    ensures var lines := Split(code, '\n');
            FlatScan(code, 0, []) == Open([]) ==> (Diagnose(code).None? <==> forall j :: 0 <= j < |lines| ==> !BadlyIndented(lines[j]))
    ensures var lines := Split(code, '\n');
            FlatScan(code, 0, []) == Open([]) && FirstBadIndent(lines).Some? ==>
              && Diagnose(code).Some?
              && Describe(Diagnose(code).value) == "IndentationError: Expected an indented block on line " + Decimal(FirstBadIndent(lines).value + 1)
  {
    DiagnoseMeaning(code);
  }

  /**
   * `checkPythonSyntax`: the message of the first failing check, or `null`
   * (None). A stray closer is reported with its 1-based line, then a
   * leftover opener by the last one opened; a balanced text passes exactly
   * when no line is badly indented, and otherwise the first such line is
   * reported.
   */
  function CheckPythonSyntax(code: string): (r: Option<string>)
    ensures var scan := FlatScan(code, 0, []);
            scan.Unmatched? ==> r == Some("SyntaxError: Unmatched " + [scan.c] + " on line " + Decimal(scan.line + 1))
    ensures var scan := FlatScan(code, 0, []);
            scan.Open? && scan.stack != [] ==> r == Some("SyntaxError: Unmatched " + [scan.stack[|scan.stack| - 1]])
    ensures var lines := Split(code, '\n');
            FlatScan(code, 0, []) == Open([]) ==> (r.None? <==> forall j :: 0 <= j < |lines| ==> !BadlyIndented(lines[j]))
    ensures var lines := Split(code, '\n');
            FlatScan(code, 0, []) == Open([]) && FirstBadIndent(lines).Some? ==>
              r == Some("IndentationError: Expected an indented block on line " + Decimal(FirstBadIndent(lines).value + 1))
  {
    BracketMessages(code);
    IndentMessage(code);
    match Diagnose(code)
    case None => None
    case Some(p) => Some(Describe(p))
  }

  /** From the opening parenthesis of `print(")")` on, the scan fails at the last character. */
  lemma ExampleScanTail()
    ensures ScanLine("(\")\")", 0, []) == Unmatched(')', 0)
  {
    assert ScanLine(")", 0, []) == Unmatched(')', 0);
    assert ScanLine("\")", 0, []) == Unmatched(')', 0);
    assert ScanLine(")\")", 0, ['(']) == Unmatched(')', 0);
    assert ScanLine("\")\")", 0, ['(']) == Unmatched(')', 0);
  }

  /** The bracket scan of `print(")")` fails at the last character. */
  lemma ExampleScan()
    ensures FlatScan("print(\")\")", 0, []) == Unmatched(')', 0)
  {
    ExampleScanLine();
    assert '\n' !in "print(\")\")";
    ScanLineIsFlat("print(\")\")", 0, []);
  }

  /** The per-line scan of `print(")")` skips the name and fails at the last character. */
  lemma ExampleScanLine()
    ensures ScanLine("print(\")\")", 0, []) == Unmatched(')', 0)
  {
    ExampleScanTail();
    assert ScanLine("t(\")\")", 0, []) == Unmatched(')', 0);
    assert ScanLine("nt(\")\")", 0, []) == Unmatched(')', 0);
    assert ScanLine("int(\")\")", 0, []) == Unmatched(')', 0);
    assert ScanLine("rint(\")\")", 0, []) == Unmatched(')', 0);
  }

  /** Brackets are counted inside string literals too: `print(")")` is rejected on its only line. */
  lemma BracketInStringLiteral()
    ensures CheckPythonSyntax("print(\")\")") == Some("SyntaxError: Unmatched ) on line 1")
  {
    ExampleScan();
    assert Decimal(0 + 1) == "1";
    assert "SyntaxError: Unmatched " + [')'] + " on line " + "1" == "SyntaxError: Unmatched ) on line 1";
  }
}
