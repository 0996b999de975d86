/**
  Macro expansion, line by line. What a line matches, parses and executes to is a parameter: it is the
  work of a regular expression, a parser and a template.
 */
module Macro {
  import opened Whitespace

  /** `strings.Split(s, "\n")`. */
  function Split(s: string): (lines: seq<string>)
    ensures |lines| >= 1
    ensures forall l :: l in lines ==> '\n' !in l
  {
    if s == "" then [""]
    else
      var rest := Split(s[1..]);
      if s[0] == '\n' then [""] + rest else [[s[0]] + rest[0]] + rest[1..]
  }

  function Join(lines: seq<string>): string {
    if lines == [] then ""
    else if |lines| == 1 then lines[0]
    else lines[0] + "\n" + Join(lines[1..])
  }

  lemma {:induction false} SplitOfLines(a: string, b: string)
    ensures Split(a + "\n" + b) == Split(a) + Split(b)
  {
    if a == "" {
      assert (a + "\n" + b)[1..] == b;
    } else {
      assert (a + "\n" + b)[1..] == a[1..] + "\n" + b;
      SplitOfLines(a[1..], b);
    }
  }

  lemma {:induction false} SplitOfLine(l: string)
    requires '\n' !in l
    ensures Split(l) == [l]
  {
    if l != "" {
      assert l == [l[0]] + l[1..];
      SplitOfLine(l[1..]);
    }
  }

  lemma {:induction false} SplitOfJoin(lines: seq<string>)
    requires lines != [] && forall l :: l in lines ==> '\n' !in l
    ensures Split(Join(lines)) == lines
  {
    SplitOfLine(lines[0]);
    if |lines| > 1 {
      SplitOfJoin(lines[1..]);
      SplitOfLines(lines[0], Join(lines[1..]));
    }
  }

  lemma {:induction false} JoinOfSplit(s: string)
    ensures Join(Split(s)) == s
  {
    if s != "" {
      JoinOfSplit(s[1..]);
      var rest := Split(s[1..]);
      assert s == [s[0]] + s[1..];
      if s[0] == '\n' {
        assert ([""] + rest)[1..] == rest;
      } else {
        assert Split(s)[1..] == rest[1..];
      }
    }
  }

  // ---------- Indentation ----------

  /** What becomes of a line: nothing but its line break if it is blank. */
  function Indented(line: string, indentation: string): string {
    if Blank(line) then "" else indentation + line
  }

  function AllIndented(lines: seq<string>, indentation: string): (r: seq<string>)
    ensures |r| == |lines|
    ensures forall i :: 0 <= i < |lines| ==> r[i] == Indented(lines[i], indentation)
  {
    seq(|lines|, i requires 0 <= i < |lines| => Indented(lines[i], indentation))
  }

  function IndentedBlock(block: string, indentation: string): string {
    Join(AllIndented(Split(block), indentation))
  }

  lemma Associative(a: string, b: string, c: string)
    ensures (a + b) + c == a + (b + c)
  {
  }

  lemma JoinCons(head: string, rest: seq<string>)
    requires rest != []
    ensures Join([head] + rest) == head + "\n" + Join(rest)
  {
    assert ([head] + rest)[1..] == rest;
  }

  lemma {:induction false} JoinAppend(lines: seq<string>, l: string)
    ensures Join(lines + [l]) == if lines == [] then l else Join(lines) + "\n" + l
  {
    if lines == [] {
      assert lines + [l] == [l];
    } else if |lines| == 1 {
      assert lines + [l] == [lines[0]] + [l];
      JoinCons(lines[0], [l]);
    } else {
      var head, rest := lines[0], lines[1..];
      JoinAppend(rest, l);
      assert lines == [head] + rest && lines + [l] == [head] + (rest + [l]);
      JoinCons(head, rest);
      JoinCons(head, rest + [l]);
      Associative(head + "\n", Join(rest) + "\n", l);
      Associative(head + "\n", Join(rest), "\n");
    }
  }

  /** The text written before line `i`: the lines so far, each with its line break. */
  function Written(lines: seq<string>, i: nat): string
    requires i <= |lines|
  {
    Join(lines[..i]) + if 0 < i < |lines| then "\n" else ""
  }

  /** What the loop writes for line `i`. */
  lemma WrittenNext(lines: seq<string>, i: nat)
    requires i < |lines|
    ensures Written(lines, i + 1) == Written(lines, i) + lines[i] + if i != |lines| - 1 then "\n" else ""
  {
    assert lines[..i + 1] == lines[..i] + [lines[i]];
    JoinAppend(lines[..i], lines[i]);
  }

  method IndentBlock(block: string, indentation: string) returns (output: string)
    ensures output == IndentedBlock(block, indentation)
  {
    var lines := Split(block);
    ghost var written := AllIndented(lines, indentation);
    output := "";
    var last := |lines| - 1;
    for i := 0 to |lines|
      invariant output == Written(written, i)
    {
      WrittenNext(written, i);
      var line := lines[i];
      if Blank(line) {
        if i == last {
          continue;
        }
        output := output + "\n";
        continue;
      }
      Associative(output, indentation, line);
      output := output + indentation;
      output := output + line;
      if i != last {
        output := output + "\n";
      }
    }
    assert written[..|lines|] == written;
  }

  /** Indenting twice is indenting once with both: nested blocks keep their shape. */
  lemma IndentTwice(block: string, inner: string, outer: string)
    requires '\n' !in inner
    ensures IndentedBlock(IndentedBlock(block, inner), outer) == IndentedBlock(block, outer + inner)
  {
    var lines := Split(block);
    var once := AllIndented(lines, inner);
    forall l | l in once
      ensures '\n' !in l
    {
      var i :| 0 <= i < |once| && once[i] == l;
      assert lines[i] in lines;
    }
    SplitOfJoin(once);
    forall i | 0 <= i < |lines|
      ensures Indented(Indented(lines[i], inner), outer) == Indented(lines[i], outer + inner)
    {
      IndentLineTwice(lines[i], inner, outer);
    }
    assert AllIndented(once, outer) == AllIndented(lines, outer + inner);
  }

  /** Indented line by line: a line of white space only comes out empty, any other with the indentation before it. */
  lemma IndentedLines(block: string, indentation: string, k: nat)
    requires '\n' !in indentation && k < |Split(block)|
    ensures |Split(IndentedBlock(block, indentation))| == |Split(block)|
    ensures var line := Split(block)[k];
            Split(IndentedBlock(block, indentation))[k] ==
            if forall j :: 0 <= j < |line| ==> IsSpace(line[j]) then "" else indentation + line
  {
    var lines := Split(block);
    var indented := AllIndented(lines, indentation);
    forall l | l in indented
      ensures '\n' !in l
    {
      var j :| 0 <= j < |indented| && indented[j] == l;
      assert lines[j] in lines;
    }
    SplitOfJoin(indented);
  }

  lemma IndentLineTwice(line: string, inner: string, outer: string)
    ensures Indented(Indented(line, inner), outer) == Indented(line, outer + inner)
  {
    if !Blank(line) {
      var i :| 0 <= i < |line| && !IsSpace(line[i]);
      assert (inner + line)[|inner| + i] == line[i];
      assert outer + (inner + line) == outer + inner + line;
    }
  }

  // ---------- Expansion ----------

  /** A line that calls no macro, one whose call is malformed or fails, or the block to put in its place. */
  datatype Outcome = Plain | BadSyntax | BadExecution | Block(indentation: string, text: string)

  datatype Result = Expanded(text: string) | InvalidSyntax(line: string) | InvalidMacro(line: string)

  function LineText(line: string, expand: string -> Outcome): string {
    match expand(line)
    case Block(indentation, text) => IndentedBlock(text, indentation)
    case _ => line
  }

  /** Every line's text, each with a line break. */
  function Texts(lines: seq<string>, expand: string -> Outcome): string {
    if lines == [] then ""
    else Texts(lines[..|lines| - 1], expand) + (LineText(lines[|lines| - 1], expand) + "\n")
  }

  predicate Errs(line: string, expand: string -> Outcome) {
    expand(line).BadSyntax? || expand(line).BadExecution?
  }

  /** One more line of output. */
  lemma TextsNext(lines: seq<string>, n: nat, expand: string -> Outcome)
    requires n < |lines|
    ensures Texts(lines[..n + 1], expand) == (Texts(lines[..n], expand) + LineText(lines[n], expand)) + "\n"
  {
    assert lines[..n + 1][..n] == lines[..n];
    Associative(Texts(lines[..n], expand), LineText(lines[n], expand), "\n");
  }

  function ErrorOf(line: string, expand: string -> Outcome): Result {
    if expand(line).BadSyntax? then InvalidSyntax(line) else InvalidMacro(line)
  }

  ghost predicate WellUpTo(lines: seq<string>, n: nat, expand: string -> Outcome) {
    forall k :: 0 <= k < n && k < |lines| ==> !Errs(lines[k], expand)
  }

  /** `r` reports the first line that errs. */
  ghost predicate ReportsFirst(lines: seq<string>, expand: string -> Outcome, r: Result) {
    exists i ::
      0 <= i < |lines| && Errs(lines[i], expand) && WellUpTo(lines, i, expand) && r == ErrorOf(lines[i], expand)
  }

  ghost predicate AnswersLines(lines: seq<string>, expand: string -> Outcome, ignoreSyntaxErrors: bool, r: Result) {
    if ignoreSyntaxErrors || WellUpTo(lines, |lines|, expand) then r == Expanded(Texts(lines, expand))
    else ReportsFirst(lines, expand, r)
  }

  /** What expansion may answer. `macros` are the registered names; `expand` is what they make of a line. */
  ghost predicate Answers(
      macros: set<string>, input: string, expand: string -> Outcome, ignoreSyntaxErrors: bool, r: Result) {
    if macros == {} then r == Expanded(input) else AnswersLines(Split(input), expand, ignoreSyntaxErrors, r)
  }

  /** What is written for one line, or the error that stops a strict expansion. */
  method ExpandLine(line: string, expand: string -> Outcome, ignoreSyntaxErrors: bool) returns (r: Result)
    ensures if Errs(line, expand) && !ignoreSyntaxErrors then r == ErrorOf(line, expand)
            else r == Expanded(LineText(line, expand))
  {
    match expand(line) {
      case Plain =>
        return Expanded(line);
      case BadSyntax =>
        return if ignoreSyntaxErrors then Expanded(line) else InvalidSyntax(line);
      case BadExecution =>
        return if ignoreSyntaxErrors then Expanded(line) else InvalidMacro(line);
      case Block(indentation, text) =>
        var block := IndentBlock(text, indentation);
        return Expanded(block);
    }
  }

  lemma StopsAtFirstError(lines: seq<string>, n: nat, expand: string -> Outcome)
    requires n < |lines| && WellUpTo(lines, n, expand) && Errs(lines[n], expand)
    ensures AnswersLines(lines, expand, false, ErrorOf(lines[n], expand))
  {
  }

  lemma GoesOn(lines: seq<string>, n: nat, expand: string -> Outcome)
    requires n < |lines| && WellUpTo(lines, n, expand) && !Errs(lines[n], expand)
    ensures WellUpTo(lines, n + 1, expand)
  {
  }

  method ExpandLines(lines: seq<string>, expand: string -> Outcome, ignoreSyntaxErrors: bool) returns (r: Result)
    ensures AnswersLines(lines, expand, ignoreSyntaxErrors, r)
  {
    var output := "";
    for n := 0 to |lines|
      invariant output == Texts(lines[..n], expand)
      invariant ignoreSyntaxErrors || WellUpTo(lines, n, expand)
    {
      r := ExpandLine(lines[n], expand, ignoreSyntaxErrors);
      if !r.Expanded? {
        StopsAtFirstError(lines, n, expand);
        return;
      }
      if !ignoreSyntaxErrors {
        GoesOn(lines, n, expand);
      }
      TextsNext(lines, n, expand);
      output := output + r.text;
      output := output + "\n";
    }
    assert lines[..|lines|] == lines;
    return Expanded(output);
  }

  method ExpandWithOptions(
      macros: set<string>, input: string, expand: string -> Outcome, ignoreSyntaxErrors: bool)
    returns (r: Result)
    ensures Answers(macros, input, expand, ignoreSyntaxErrors, r)
  {
    if macros == {} {
      return Expanded(input);
    }
    r := ExpandLines(Split(input), expand, ignoreSyntaxErrors);
  }

  lemma {:induction false} TextsAppend(a: seq<string>, b: seq<string>, expand: string -> Outcome)
    ensures Texts(a + b, expand) == Texts(a, expand) + Texts(b, expand)
  {
    if b == [] {
      assert a + b == a;
    } else {
      var rest, l := b[..|b| - 1], b[|b| - 1];
      assert (a + b)[..|a + b| - 1] == a + rest;
      TextsAppend(a, rest, expand);
      Associative(Texts(a, expand), Texts(rest, expand), LineText(l, expand) + "\n");
    }
  }

  /** Expansion goes line by line: no macro sees beyond its own line. */
  lemma ExpansionDistributes(a: string, b: string, expand: string -> Outcome)
    ensures Texts(Split(a + "\n" + b), expand) == Texts(Split(a), expand) + Texts(Split(b), expand)
  {
    SplitOfLines(a, b);
    TextsAppend(Split(a), Split(b), expand);
  }

  lemma {:induction false} TextsOfPlainLines(lines: seq<string>, expand: string -> Outcome)
    requires lines != [] && forall l :: l in lines ==> !expand(l).Block?
    ensures Texts(lines, expand) == Join(lines) + "\n"
  {
    var rest, l := lines[..|lines| - 1], lines[|lines| - 1];
    assert lines == rest + [l];
    JoinAppend(rest, l);
    if rest != [] {
      TextsOfPlainLines(rest, expand);
    }
  }

  /** Text in which nothing expands comes back as it was, with one more line break. */
  lemma PlainTextIsKept(input: string, expand: string -> Outcome)
    requires forall l :: l in Split(input) ==> !expand(l).Block?
    ensures Texts(Split(input), expand) == input + "\n"
  {
    TextsOfPlainLines(Split(input), expand);
    JoinOfSplit(input);
  }

  /**
    Strict mode either refuses the text or agrees with lenient mode on it, and it refuses exactly when some
    macro is registered and some line has bad syntax or fails to execute: it then reports the first such line.
    Lenient mode never refuses.
   */
  lemma StrictAgreesWithLenient(
      macros: set<string>, input: string, expand: string -> Outcome, strict: Result, lenient: Result)
    requires Answers(macros, input, expand, false, strict) && Answers(macros, input, expand, true, lenient)
    ensures lenient.Expanded?
    ensures strict.Expanded? ==> strict == lenient
    ensures strict.Expanded? <==>
      macros == {} || forall l :: l in Split(input) ==> !expand(l).BadSyntax? && !expand(l).BadExecution?
    ensures !strict.Expanded? ==>
      exists i :: 0 <= i < |Split(input)|
        && (forall k :: 0 <= k < i ==> expand(Split(input)[k]).Plain? || expand(Split(input)[k]).Block?)
        && ((expand(Split(input)[i]).BadSyntax? && strict == InvalidSyntax(Split(input)[i])) ||
            (expand(Split(input)[i]).BadExecution? && strict == InvalidMacro(Split(input)[i])))
  {
    var lines := Split(input);
    if macros != {} && !WellUpTo(lines, |lines|, expand) {
      assert ReportsFirst(lines, expand, strict);
      var i :| 0 <= i < |lines| && Errs(lines[i], expand) && WellUpTo(lines, i, expand) &&
               strict == ErrorOf(lines[i], expand);
      assert lines[i] in lines;
    } else if macros != {} {
      forall l | l in lines
        ensures !Errs(l, expand)
      {
        var k :| 0 <= k < |lines| && lines[k] == l;
      }
    }
  }

  /** What is written for a line: the indented block in place of a macro call that worked, and else the line. */
  lemma LineIsReplaced(line: string, expand: string -> Outcome)
    requires '\n' !in line
    ensures Texts(Split(line), expand) ==
            (match expand(line)
             case Block(indentation, text) => IndentedBlock(text, indentation)
             case Plain => line
             case BadSyntax => line
             case BadExecution => line) + "\n"
  {
    SplitOfLine(line);
    assert [line][..0] == [];
    assert Texts([line], expand) == "" + (LineText(line, expand) + "\n");
  }
}
