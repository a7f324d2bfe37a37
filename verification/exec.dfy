/** The usual optional value. */
module Wrappers {
  datatype Option<T> = None | Some(value: T)
}

/**
 What `executeCommand` and `handleRedirect` decide before and after they hand
 control to the operating system: the argument vector given to `execvp`, the
 point at which the word "exit" ends the shell, and the flags and mode used to
 open a redirection target. The system calls themselves appear only as
 entries of an effect trace.
 */
module Exec {
  import opened Wrappers

  /** One slot of the `char*` vector handed to `execvp`. */
  datatype CArg = Str(s: string) | Null

  /** The argument vector: every word of the command, then a null terminator. */
  function Argv(cmd: seq<string>): (argv: seq<CArg>)
    ensures |argv| == |cmd| + 1
    ensures argv[|cmd|] == Null
    ensures forall k :: 0 <= k < |cmd| ==> argv[k] == Str(cmd[k])
  {
    if cmd == [] then [Null] else [Str(cmd[0])] + Argv(cmd[1..])
  }

  /**
   What a C function reading `s.c_str()` sees: the characters before the first
   NUL. A `std::string` may hold NUL characters; a `char*` ends at the first one.
   */
  function CStr(s: string): (r: string)
    ensures |r| <= |s| && r == s[..|r|]
    ensures '\0' !in r
    ensures |r| < |s| ==> s[|r|] == '\0'
  {
    if s == [] || s[0] == '\0' then [] else [s[0]] + CStr(s[1..])
  }

  /** A string without NUL characters passes through `c_str()` whole. */
  lemma {:induction false} CStrWhole(s: string)
    requires '\0' !in s
    ensures CStr(s) == s
    decreases |s|
  {
    if s != [] {
      CStrWhole(s[1..]);
    }
  }

  /** Every word as a C function sees it. */
  function CStrs(cmd: seq<string>): (r: seq<string>)
    ensures |r| == |cmd|
    ensures forall k :: 0 <= k < |cmd| ==> r[k] == CStr(cmd[k])
  {
    if cmd == [] then [] else [CStr(cmd[0])] + CStrs(cmd[1..])
  }

  /** Words without NUL characters all pass through whole. */
  lemma CStrsWhole(cmd: seq<string>)
    requires forall k :: 0 <= k < |cmd| ==> '\0' !in cmd[k]
    ensures CStrs(cmd) == cmd
  {
    forall k | 0 <= k < |cmd|
      ensures CStrs(cmd)[k] == cmd[k]
    {
      CStrWhole(cmd[k]);
    }
  }

  /** The argument list a program receives from a vector: each string up to its NUL, before the first null slot. */
  function ArgsSeen(argv: seq<CArg>): (args: seq<string>)
    ensures |args| <= |argv|
  {
    if argv == [] || argv[0].Null? then [] else [CStr(argv[0].s)] + ArgsSeen(argv[1..])
  }

  /** The program started by `execvp` receives the words of the command, each cut at its first NUL. */
  lemma {:induction false} ArgsSeenArgv(cmd: seq<string>)
    ensures ArgsSeen(Argv(cmd)) == CStrs(cmd)
    decreases |cmd|
  {
    if cmd != [] {
      assert Argv(cmd)[1..] == Argv(cmd[1..]);
      ArgsSeenArgv(cmd[1..]);
    }
  }

  /** A command without NUL characters is received exactly. */
  lemma ArgsSeenWhole(cmd: seq<string>)
    requires forall k :: 0 <= k < |cmd| ==> '\0' !in cmd[k]
    ensures ArgsSeen(Argv(cmd)) == cmd
  {
    ArgsSeenArgv(cmd);
    CStrsWhole(cmd);
  }

  /** The `push_back` loop that fills the vector, then appends the terminator. */
  method BuildArgv(cmd: seq<string>) returns (argv: seq<CArg>)
    ensures argv == Argv(cmd)
    ensures ArgsSeen(argv) == CStrs(cmd)
  {
    argv := [];
    for i := 0 to |cmd|
      invariant |argv| == i
      invariant forall k :: 0 <= k < i ==> argv[k] == Str(cmd[k])
    {
      argv := argv + [Str(cmd[i])];
    }
    argv := argv + [Null];
    assert argv == Argv(cmd);
    ArgsSeenArgv(cmd);
  }

  /** The flags that `open` receives. */
  datatype OpenFlag = WriteOnly | Create | Append | Truncate

  /** Write-only and create, plus append or truncate as asked. */
  function OpenFlags(append: bool): (flags: set<OpenFlag>)
    ensures WriteOnly in flags && Create in flags
    ensures Append in flags <==> append
    ensures Truncate in flags <==> !append
    ensures |flags| == 3
  {
    if append then {WriteOnly, Create, Append} else {WriteOnly, Create, Truncate}
  }

  /** Permission bits of a created target, octal 0644: owner read and write, group and others read. */
  const CreateMode: nat := 6 * 64 + 4 * 8 + 4

  /**
   The contents of a redirection target after a command writes `out` into it,
   given its contents before (None when it does not exist yet): a missing file
   is created empty, truncation empties it, appending writes at its end, and
   otherwise writing starts over the old bytes at offset 0.
   */
  function FileAfter(before: Option<string>, flags: set<OpenFlag>, out: string): string
    requires Create in flags
  {
    var old_ := if before.None? || Truncate in flags then [] else before.value;
    if Append in flags then old_ + out
    else if |out| >= |old_| then out
    else out + old_[|out|..]
  }

  /** The decimal digits of `n`, most significant first. */
  function Decimal(n: nat): (d: string)
    ensures d != []
    ensures forall k :: 0 <= k < |d| ==> '0' <= d[k] <= '9'
  {
    var digit := ['0' + (n % 10) as char];
    if n < 10 then digit else Decimal(n / 10) + digit
  }

  /** The line the parent writes to its standard output after a child exits normally with `code`. */
  function StatusLine(code: nat): (line: string)
    ensures |line| > 1 && line[|line| - 1] == '\n'
  {
    "Command executed with exit status " + Decimal(code) + "\n"
  }

  /**
   A redirected command that exits normally leaves its own output followed by
   the shell's status line in the target, since the shell's standard output
   points at the target too: with ">" that is all the target holds, with ">>"
   it comes after the old contents.
   */
  lemma RedirectedFileEndsWithStatus(before: Option<string>, append: bool, out: string, code: nat)
    ensures var f := FileAfter(before, OpenFlags(append), out + StatusLine(code));
            var old_ := if before.Some? && append then before.value else [];
            f == old_ + out + StatusLine(code)
  {
    var sl := StatusLine(code);
    var old_ := if before.Some? && append then before.value else [];
    WriteThrough(before, append, out + sl);
    assert old_ + (out + sl) == old_ + out + sl;
  }

  /** One run through a target opened by `handleRedirect`: the new output replaces or follows the old contents. */
  lemma WriteThrough(before: Option<string>, append: bool, w: string)
    ensures FileAfter(before, OpenFlags(append), w) == (if before.Some? && append then before.value else []) + w
  {
    if !append {
      assert [] + w == w;
    }
  }

  /**
   Redirecting twice with ">" keeps only the second output; with ">>" keeps
   both, in order. `first` and `second` are everything written to the
   descriptor of the target: the program's output and the status line.
   */
  lemma RedirectTwice(before: Option<string>, first: string, second: string)
    ensures FileAfter(Some(FileAfter(before, OpenFlags(false), first)), OpenFlags(false), second) == second
    ensures var old_ := if before.Some? then before.value else [];
            FileAfter(Some(FileAfter(before, OpenFlags(true), first)), OpenFlags(true), second)
              == old_ + first + second
  {
    var old_ := if before.Some? then before.value else [];
    assert old_ + first + second == (old_ + first) + second;
  }

  /** The two ends of the pipe made by `handlePipe`. */
  datatype PipeEnd = ReadEnd | WriteEnd

  /** What the shell process asks of the operating system, in order. */
  datatype Effect =
    | Open(path: string, flags: set<OpenFlag>, mode: nat)
    | RedirectStdout                         // `dup2` of the opened target onto descriptor 1, never undone
    | Spawn(argv: seq<CArg>)
    | Reap
    | ReportStatus                           // the status line, written to descriptor 1 when the child exited normally
    | ExitShell(status: int)
    | MakePipe
    | ForkRunner(cmd: seq<string>, end: PipeEnd)  // a child that runs `executeCommand(cmd)` on one end of the pipe
    | WaitRunner(end: PipeEnd)
    | ClosePipe(end: PipeEnd)

  /** Whether a trace ends the shell process. */
  predicate EndsShell(trace: seq<Effect>) {
    exists k :: 0 <= k < |trace| && trace[k].ExitShell?
  }

  /** Whether a trace starts a program in the shell's own child. */
  predicate Spawns(trace: seq<Effect>) {
    exists k :: 0 <= k < |trace| && trace[k].Spawn?
  }

  /** A trace made of two parts ends the shell, or spawns, exactly when one of its parts does. */
  lemma TraceAppend(a: seq<Effect>, b: seq<Effect>)
    ensures EndsShell(a + b) <==> EndsShell(a) || EndsShell(b)
    ensures Spawns(a + b) <==> Spawns(a) || Spawns(b)
  {
    var t := a + b;
    if EndsShell(a + b) {
      var k :| 0 <= k < |t| && t[k].ExitShell?;
      if k >= |a| {
        assert b[k - |a|].ExitShell?;
      }
    }
    if EndsShell(a) {
      var k :| 0 <= k < |a| && a[k].ExitShell?;
      assert t[k].ExitShell?;
    }
    if EndsShell(b) {
      var k :| 0 <= k < |b| && b[k].ExitShell?;
      assert t[k + |a|].ExitShell?;
    }
    if Spawns(a + b) {
      var k :| 0 <= k < |t| && t[k].Spawn?;
      if k >= |a| {
        assert b[k - |a|].Spawn?;
      }
    }
    if Spawns(a) {
      var k :| 0 <= k < |a| && a[k].Spawn?;
      assert t[k].Spawn?;
    }
    if Spawns(b) {
      var k :| 0 <= k < |b| && b[k].Spawn?;
      assert t[k + |a|].Spawn?;
    }
  }

  /** The word that makes `executeCommand` end the shell. */
  predicate IsExitWord(w: string) {
    w == "exit"
  }

  /**
   `executeCommand`: spawn the command, wait for it, report its status, and
   only then end the shell when its first word is "exit". An empty command has
   no first word and no program to start, which the source leaves undefined.
   */
  function ExecuteCommand(cmd: seq<string>): (trace: seq<Effect>)
    requires cmd != []
    ensures |trace| >= 3 && trace[0] == Spawn(Argv(cmd)) && trace[1] == Reap && trace[2] == ReportStatus
    ensures EndsShell(trace) <==> IsExitWord(cmd[0])
    ensures forall k :: 0 <= k < |trace| && trace[k].ExitShell? ==> k == 3 == |trace| - 1 && trace[k].status == 0
  {
    var t := [Spawn(Argv(cmd)), Reap, ReportStatus] + if IsExitWord(cmd[0]) then [ExitShell(0)] else [];
    assert IsExitWord(cmd[0]) ==> t[3].ExitShell?;
    t
  }

  /**
   `handleRedirect`: open the target (its name as `c_str()` gives it) with the
   chosen flags and mode 0644; when the open fails nothing is spawned,
   otherwise the shell's own standard output is pointed at the target and the
   command runs, so the status line lands in the target as well. `openOk`
   stands for the outcome of `open`.
   */
  function HandleRedirect(cmd: seq<string>, target: string, append: bool, openOk: bool): (trace: seq<Effect>)
    requires cmd != []
    ensures |trace| >= 1 && trace[0] == Open(CStr(target), OpenFlags(append), CreateMode)
    ensures Spawns(trace) <==> openOk
    ensures openOk ==> |trace| >= 5 && trace[1] == RedirectStdout && trace[2] == Spawn(Argv(cmd))
                       && ArgsSeen(trace[2].argv) == CStrs(cmd) && trace[4] == ReportStatus
    ensures forall k :: 0 <= k < |trace| && trace[k].ReportStatus? ==> 1 < k && trace[1] == RedirectStdout
    ensures EndsShell(trace) <==> openOk && IsExitWord(cmd[0])
  {
    var open := Open(CStr(target), OpenFlags(append), CreateMode);
    if openOk then
      RedirectedRun(open, cmd);
      ArgsSeenArgv(cmd);
      [open, RedirectStdout] + ExecuteCommand(cmd)
    else
      assert !Spawns([open]) && !EndsShell([open]);
      [open]
  }

  /** The effects of `handleRedirect` once the target is open: redirect standard output, then run the command. */
  lemma RedirectedRun(open: Effect, cmd: seq<string>)
    requires cmd != [] && open.Open?
    ensures var t := [open, RedirectStdout] + ExecuteCommand(cmd);
            && |t| >= 5 && t[0] == open && t[1] == RedirectStdout
            && t[2] == Spawn(Argv(cmd)) && t[4] == ReportStatus
            && (forall k :: 0 <= k < |t| && t[k].ReportStatus? ==> 1 < k)
            && Spawns(t)
            && (EndsShell(t) <==> IsExitWord(cmd[0]))
  {
    var pre := [open, RedirectStdout];
    var run := ExecuteCommand(cmd);
    var t := pre + run;
    TraceAppend(pre, run);
    assert !EndsShell(pre);
    assert t[2] == run[0] && t[4] == run[2];
    assert Spawns(t) by {
      assert t[2].Spawn?;
    }
  }

  /**
   `handlePipe`: make a pipe, fork a child that runs the first command with
   its output on the write end and one that runs the second with its input on
   the read end, wait for both in that order, and only then close the parent's
   copies of the two ends. The parent thus holds the write end open while it
   waits for the reader, which therefore never sees end of input.
   */
  function HandlePipe(cmd1: seq<string>, cmd2: seq<string>): (trace: seq<Effect>)
    ensures |trace| >= 3 && trace[0] == MakePipe
    ensures trace[1] == ForkRunner(cmd1, WriteEnd) && trace[2] == ForkRunner(cmd2, ReadEnd)
    ensures ClosePipe(WriteEnd) in trace && WaitRunner(ReadEnd) in trace
    ensures forall j, k :: 0 <= j < |trace| && 0 <= k < |trace| && trace[j].WaitRunner? && trace[k] == ClosePipe(WriteEnd) ==> j < k
    ensures !EndsShell(trace)
  {
    [MakePipe, ForkRunner(cmd1, WriteEnd), ForkRunner(cmd2, ReadEnd),
     WaitRunner(WriteEnd), WaitRunner(ReadEnd), ClosePipe(ReadEnd), ClosePipe(WriteEnd)]
  }
}
