/**
 The dispatch loop in `main`: each input line is classified as empty,
 redirected, piped or plain, in that order of precedence, and handed to the
 matching handler. `Classify` states the classification as a function of the
 line; `ClassifyLine` is the loop body as the source writes it, with the
 tokenizing loop and the index scan for a redirection operator, proved to
 compute `Classify`.
 */
module Dispatch {
  import opened Wrappers
  import opened Tokenizer
  import opened Exec

  /** The largest `size_t`; sizes and indices are unsigned 64-bit values. */
  const SizeMax: nat := 0xFFFF_FFFF_FFFF_FFFF

  /** Subtraction on `size_t`, which wraps around modulo 2^64. */
  function SizeSub(a: nat, b: nat): (r: nat)
    requires a <= SizeMax && b <= SizeMax
    ensures r <= SizeMax
    ensures b <= a ==> r == a - b
    ensures a < b ==> r == SizeMax + 1 + a - b
  {
    (a - b) % (SizeMax + 1)
  }

  /** The two redirection operators. */
  predicate IsRedirectOp(t: string) {
    t == ">" || t == ">>"
  }

  /** Some token strictly between the first and the last is a redirection operator. */
  predicate HasRedirect(ts: seq<string>) {
    exists i :: 1 <= i < |ts| - 1 && IsRedirectOp(ts[i])
  }

  /** The lowest index at or after `from`, and before the last token, that holds an operator. */
  function FirstRedirectFrom(ts: seq<string>, from: nat): (r: Option<nat>)
    ensures r.Some? ==> from <= r.value < |ts| - 1 && IsRedirectOp(ts[r.value])
    ensures r.Some? ==> forall j :: from <= j < r.value ==> !IsRedirectOp(ts[j])
    ensures r.None? <==> forall j :: from <= j < |ts| - 1 ==> !IsRedirectOp(ts[j])
    decreases |ts| - from
  {
    if from + 1 >= |ts| then None
    else if IsRedirectOp(ts[from]) then Some(from)
    else FirstRedirectFrom(ts, from + 1)
  }

  /** The operator the scan of `main` stops at: the first one among indices 1 .. n-2. */
  function FirstRedirect(ts: seq<string>): Option<nat> {
    FirstRedirectFrom(ts, 1)
  }

  /** How the index scan for a redirection operator ends. */
  datatype Scan =
    | NoOperator
    | OperatorAt(index: nat)
    | IndexOutOfRange  // `tokens[1]` read from an empty vector: undefined behaviour

  /**
   The scan loop of `main`: `i` runs from 1 while `i < tokens.size() - 1`,
   computed in `size_t`, and stops at the first ">" or ">>". With no tokens the
   bound wraps around to the largest `size_t` and the first read is out of
   range.
   */
  method ScanRedirect(tokens: seq<string>) returns (r: Scan)
    requires |tokens| <= SizeMax
    ensures r.IndexOutOfRange? <==> tokens == []
    ensures r.OperatorAt? ==> FirstRedirect(tokens) == Some(r.index)
    ensures r.NoOperator? ==> FirstRedirect(tokens) == None
  {
    var limit := SizeSub(|tokens|, 1);
    var i: nat := 1;
    while i < limit
      invariant 1 <= i
      invariant tokens == [] ==> i == 1
      invariant tokens != [] ==> i <= |tokens| && FirstRedirect(tokens) == FirstRedirectFrom(tokens, i)
      decreases limit - i
    {
      if i >= |tokens| {
        return IndexOutOfRange;
      }
      if tokens[i] == ">" || tokens[i] == ">>" {
        return OperatorAt(i);
      }
      i := i + 1;
    }
    return NoOperator;
  }

  /** `std::string::find` for one character: the position of its first occurrence. */
  function FindFirst(s: string, c: char): (r: Option<nat>)
    ensures r.None? <==> forall k :: 0 <= k < |s| ==> s[k] != c
    ensures r.Some? ==> r.value < |s| && s[r.value] == c && forall k :: 0 <= k < r.value ==> s[k] != c
  {
    if s == [] then None
    else if s[0] == c then Some(0)
    else
      var rest := FindFirst(s[1..], c);
      if rest.None? then None else Some(rest.value + 1)
  }

  /** A position that holds `c`, with no `c` before it, is what `FindFirst` reports. */
  lemma {:induction false} FindFirstAt(s: string, c: char, p: nat)
    requires p < |s| && s[p] == c
    requires forall k :: 0 <= k < p ==> s[k] != c
    ensures FindFirst(s, c) == Some(p)
    decreases p
  {
    if p > 0 {
      FindFirstAt(s[1..], c, p - 1);
    }
  }

  /**
   The two parts `substr` cuts around the first bar, with the bar between
   them, give back the line, and the part before it holds no bar.
   */
  lemma PipeParts(line: string)
    requires FindFirst(line, '|').Some?
    ensures var p := FindFirst(line, '|').value;
            line[..p] + "|" + line[p + 1..] == line && '|' !in line[..p]
  {
    var p := FindFirst(line, '|').value;
    assert line[p..] == "|" + line[p + 1..];
    assert line == line[..p] + line[p..];
    assert forall k :: 0 <= k < p ==> line[..p][k] == line[k];
  }

  /** The shape of an input line, as `main` decides it. */
  datatype Command =
    | Skip                                                // empty line
    | WhitespaceOnly                                      // no tokens: the scan reads out of range
    | Redirect(args: seq<string>, target: string, append: bool)
    | Pipe(left: seq<string>, right: seq<string>)
    | Plain(args: seq<string>)

  /**
   The classification: an empty line is skipped; a redirection operator among
   the inner tokens wins, with the whole token list as the command and the
   last token as the target; otherwise the raw line is split at its first
   "|" and each side tokenized on its own; otherwise the tokens are one command.
   */
  function Classify(line: string): (c: Command)
    ensures c.Skip? <==> line == []
    ensures c.WhitespaceOnly? <==> line != [] && Tokens(line) == []
    ensures c.Redirect? ==> c.args == Tokens(line) && |c.args| >= 3 && c.target == c.args[|c.args| - 1]
    ensures c.Pipe? ==> '|' in line
    ensures c.Plain? ==> c.args == Tokens(line) && c.args != [] && '|' !in line
  {
    if line == [] then Skip
    else
      var ts := Tokens(line);
      if ts == [] then WhitespaceOnly
      else match FirstRedirect(ts)
        case Some(i) => Redirect(ts, ts[|ts| - 1], ts[i] == ">>")
        case None =>
          match FindFirst(line, '|')
          case Some(p) => Pipe(Tokens(line[..p]), Tokens(line[p + 1..]))
          case None => Plain(ts)
  }

  /** The body of the loop in `main`, with its own tokenizing and scanning loops. */
  method ClassifyLine(line: string) returns (c: Command)
    requires |line| <= SizeMax
    ensures c == Classify(line)
  {
    if line == [] {
      return Skip;
    }
    var tokens := Tokenize(line);
    var scan := ScanRedirect(tokens);
    match scan {
      case IndexOutOfRange =>
        c := WhitespaceOnly;
      case OperatorAt(i) =>
        c := Redirect(tokens, tokens[|tokens| - 1], tokens[i] == ">>");
      case NoOperator =>
        var pos := FindFirst(line, '|');
        if pos.Some? {
          var tokens1 := Tokenize(line[..pos.value]);
          var tokens2 := Tokenize(line[pos.value + 1..]);
          c := Pipe(tokens1, tokens2);
        } else {
          c := Plain(tokens);
        }
    }
  }

  /** An empty line is skipped, and only an empty line. */
  lemma ClassifySkip(line: string)
    ensures Classify(line) == Skip <==> line == []
  {
  }

  /** A line that is not empty but holds only white space has no tokens; its scan is undefined. */
  lemma ClassifyWhitespaceOnly(line: string)
    ensures Classify(line) == WhitespaceOnly <==> line != [] && forall k :: 0 <= k < |line| ==> IsSpace(line[k])
  {
    TokensEmpty(line);
  }

  /**
   Redirect range: a line is redirected exactly when ">" or ">>" sits at an
   index `i` with `1 <= i < n-1`; an operator first or last is ignored.
   */
  lemma RedirectRecognised(line: string)
    ensures Classify(line).Redirect? <==> HasRedirect(Tokens(line))
  {
    var ts := Tokens(line);
    if HasRedirect(ts) {
      assert ts != [];
    }
  }

  /**
   First match wins: the lowest in-range operator decides, and `append` holds
   exactly when that operator is ">>", whatever operators follow it.
   */
  lemma RedirectFirstMatchWins(line: string, i: nat)
    requires i < |Tokens(line)| - 1 && 1 <= i && IsRedirectOp(Tokens(line)[i])
    requires forall j :: 1 <= j < i ==> !IsRedirectOp(Tokens(line)[j])
    ensures Classify(line).Redirect?
    ensures Classify(line).append <==> Tokens(line)[i] == ">>"
  {
    var ts := Tokens(line);
    assert FirstRedirect(ts) == Some(i);
  }

  /**
   Redirect result: the command handed to `handleRedirect` is the whole token
   list, operator and target included, and the target is the last token.
   */
  lemma RedirectKeepsAllTokens(line: string)
    requires HasRedirect(Tokens(line))
    ensures var ts := Tokens(line);
            |ts| >= 3 && Classify(line).Redirect? &&
            Classify(line).args == ts && Classify(line).target == ts[|ts| - 1]
  {
    var ts := Tokens(line);
    assert FirstRedirect(ts).Some?;
  }

  /** A line is piped exactly when it has no in-range redirection operator and holds a "|". */
  lemma PipeRecognised(line: string)
    ensures Classify(line).Pipe? <==> !HasRedirect(Tokens(line)) && '|' in line
  {
    var ts := Tokens(line);
    var r := FirstRedirect(ts);
    assert '|' in line ==> ts != [] by {
      TokensEmpty(line);
    }
    assert r.None? <==> !HasRedirect(ts);
  }

  /**
   Pipe split: with no redirection, the line is split at its first "|"; the
   two parts and the "|" make up the line, and each part is tokenized on its own.
   */
  lemma PipeSplitAt(line: string, p: nat)
    requires p < |line| && line[p] == '|'
    requires forall k :: 0 <= k < p ==> line[k] != '|'
    requires !HasRedirect(Tokens(line))
    ensures Classify(line) == Pipe(Tokens(line[..p]), Tokens(line[p + 1..]))
  {
    var ts := Tokens(line);
    assert ts != [] by {
      TokensEmpty(line);
      assert !IsSpace(line[p]);
    }
    assert FirstRedirect(ts).None?;
    FindFirstAt(line, '|', p);
  }

  /**
   When the "|" stands between white space, the two sides together give the
   tokens of the whole line with the "|" token removed. Written without the
   spaces ("ls|wc") the same line is one token, yet still split in two.
   */
  lemma PipeAgreesWithTokens(left: string, right: string)
    requires '|' !in left
    requires !HasRedirect(Tokens(left + " | " + right))
    ensures Classify(left + " | " + right) == Pipe(Tokens(left), Tokens(right))
    ensures Tokens(left + " | " + right) == Tokens(left) + ["|"] + Tokens(right)
  {
    var line := left + " | " + right;
    var p := |left| + 1;
    SpacedBar(left, right);
    TokensAroundWord(left, "|", right);
    assert Tokens(left) + (["|"] + Tokens(right)) == Tokens(left) + ["|"] + Tokens(right);
    TokensPadded(left);
    TokensPadded(right);
    PipeSplitAt(line, p);
  }

  /** Where the pieces of `left + " | " + right` sit. */
  lemma SpacedBar(left: string, right: string)
    requires '|' !in left
    ensures var line := left + " | " + right;
            var p := |left| + 1;
            && line == left + [' '] + ("|" + [' '] + right)
            && p < |line| && line[p] == '|'
            && (forall k :: 0 <= k < p ==> line[k] != '|')
            && line[..p] == left + [' ']
            && line[p + 1..] == [' '] + right
  {
    var line := left + " | " + right;
    var p := |left| + 1;
    assert line[..p] == left + [' '];
    forall k | 0 <= k < p
      ensures line[k] != '|'
    {
      assert line[k] == line[..p][k];
    }
  }

  /**
   Plain case: with neither an in-range redirection operator nor a "|", a line
   that has tokens runs the full token list as one command.
   */
  lemma PlainCase(line: string)
    ensures Classify(line).Plain? <==> Tokens(line) != [] && !HasRedirect(Tokens(line)) && '|' !in line
    ensures Classify(line).Plain? ==> Classify(line).args == Tokens(line)
  {
    RedirectRecognised(line);
  }

  /**
   What becomes of the interactive session after one line. `AwaitsReader`: the
   shell waits for the second command of a pipeline while it still holds the
   pipe's write end, so it reads another line only if that command ends
   without reading its input to the end, which depends on the program run.
   */
  datatype Fate = Continue | Stop | AwaitsReader | Undefined

  /**
   After a redirection `main` returns, whatever the command was; a plain
   command ends the shell through `executeCommand` when it is "exit"; the two
   sides of a pipeline run in child processes, so "exit" there ends only a
   child, and the shell then waits on the second one. An empty side of a
   pipeline leaves `cmd[0]` undefined.
   */
  function SessionAfter(c: Command): (fate: Fate)
    ensures fate == Stop <==> c.Redirect? || (c.Plain? && c.args != [] && IsExitWord(c.args[0]))
    ensures fate == Continue <==> c.Skip? || (c.Plain? && c.args != [] && !IsExitWord(c.args[0]))
    ensures fate == AwaitsReader <==> c.Pipe? && c.left != [] && c.right != []
  {
    match c
    case Skip => Continue
    case WhitespaceOnly => Undefined
    case Redirect(_, _, _) => Stop
    case Pipe(left, right) => if left != [] && right != [] then AwaitsReader else Undefined
    case Plain(args) => if args == [] then Undefined else if EndsShell(ExecuteCommand(args)) then Stop else Continue
  }

  /** The session's fate after the line `line`. */
  function Outcome(line: string): Fate {
    SessionAfter(Classify(line))
  }

  /**
   Precedence and termination: a line ends the session exactly when it has an
   in-range redirection operator (even if it also holds a "|"), or when it has
   no "|" and its first token is "exit" (tested, as `ExecuteCommand` states,
   only after the command has been spawned and reaped).
   */
  lemma SessionStops(line: string)
    ensures Outcome(line) == Stop <==>
      HasRedirect(Tokens(line)) ||
      ('|' !in line && Tokens(line) != [] && Tokens(line)[0] == "exit")
  {
    var c := Classify(line);
    var ts := Tokens(line);
    RedirectRecognised(line);
    PipeRecognised(line);
    PlainCase(line);
    if c.Plain? {
      assert Outcome(line) == Stop <==> ts[0] == "exit";
    } else {
      assert Outcome(line) == Stop <==> c.Redirect?;
    }
  }

  /**
   A redirected line opens its last token with the flags the first in-range
   operator chooses, runs the whole token list when the open succeeds, and the
   session ends after it either way.
   */
  lemma RedirectHandled(line: string, openOk: bool)
    requires HasRedirect(Tokens(line))
    ensures var ts := Tokens(line);
            var c := Classify(line);
            FirstRedirect(ts).Some? && c.Redirect? &&
            var trace := HandleRedirect(c.args, c.target, c.append, openOk);
            && trace[0] == Open(CStr(ts[|ts| - 1]), OpenFlags(ts[FirstRedirect(ts).value] == ">>"), CreateMode)
            && (openOk ==> trace[2] == Spawn(Argv(ts)))
            && (EndsShell(trace) <==> openOk && ts[0] == "exit")
            && Outcome(line) == Stop
  {
    RedirectKeepsAllTokens(line);
  }

  /**
   A pipeline runs its left side as the writer and its right side as the
   reader; the shell itself is not ended by it, and with both sides non-empty
   the shell goes on to wait for the reader while it holds the write end.
   */
  lemma PipelineAwaitsReader(line: string)
    requires Classify(line).Pipe?
    ensures var c := Classify(line);
            var trace := HandlePipe(c.left, c.right);
            && trace[1] == ForkRunner(c.left, WriteEnd) && trace[2] == ForkRunner(c.right, ReadEnd)
            && !EndsShell(trace)
            && !HasRedirect(Tokens(line)) && '|' in line
            && Outcome(line) != Stop
            && (Outcome(line) == AwaitsReader <==> c.left != [] && c.right != [])
  {
    PipeRecognised(line);
  }

  /** One pass of the loop in `main`: classify the line and dispatch it. */
  method HandleLine(line: string) returns (fate: Fate)
    requires |line| <= SizeMax
    ensures fate == Outcome(line)
  {
    var c := ClassifyLine(line);
    fate := SessionAfter(c);
  }

  /** The session continues after each of the first `n` lines. */
  predicate ContinuesThrough(lines: seq<string>, n: int) {
    forall k :: 0 <= k < n && k < |lines| ==> Outcome(lines[k]) == Continue
  }

  /**
   The read loop of `main`, fed from a finite list of lines: it handles lines
   in order and ends with the first line after which the session does not
   simply continue.
   */
  method RunSession(lines: seq<string>) returns (handled: nat, fate: Fate)
    requires forall k :: 0 <= k < |lines| ==> |lines[k]| <= SizeMax
    ensures handled <= |lines|
    ensures fate == Continue ==> handled == |lines| && ContinuesThrough(lines, handled)
    ensures fate != Continue ==> 0 < handled && ContinuesThrough(lines, handled - 1) && Outcome(lines[handled - 1]) == fate
  {
    handled, fate := 0, Continue;
    while handled < |lines| && fate == Continue
      invariant handled <= |lines|
      invariant fate == Continue ==> ContinuesThrough(lines, handled)
      invariant fate != Continue ==> 0 < handled && ContinuesThrough(lines, handled - 1) && Outcome(lines[handled - 1]) == fate
    {
      var line := lines[handled];
      fate := HandleLine(line);
      handled := handled + 1;
    }
  }
}
