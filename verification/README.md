# myshell: line classification, in Dafny

myshell is a small interactive shell written in C++ (`myshell/main.cpp`). Its
`main` loop reads a line and splits it into whitespace-separated tokens. It
then decides what the line is:
- an empty line, which is skipped;
- a command redirected to a file with `>` or `>>`;
- two commands joined by `|`;
- one plain command.

It then hands the tokens to `handleRedirect`, `handlePipe` or `executeCommand`.
Those run the programs with `fork`/`execvp`/`waitpid`.

This project models the part of the shell that decides things. It leaves out
the system calls that carry the decisions out:

- `tokenizer.dfy`, module `Tokenizer`. The `istream_iterator<std::string>`
  copy idiom splits a line into the maximal runs of characters that are not
  white space, using `isspace` of the "C" locale. `Tokens` is the reference
  definition. `Tokenize` is the extraction loop, proved equal to `Tokens`.
  Lemmas state the facts:
  - every token is a non-empty word;
  - the tokens concatenated give the line without its white space;
  - joining words with spaces and tokenizing gives them back.
- `exec.dfy`, modules `Wrappers` (an `Option` type) and `Exec`. This covers:
  - the `argv` vector built by `executeCommand`: every word, then a null
    terminator;
  - the flags and mode `handleRedirect` passes to `open`;
  - the order in which `executeCommand` spawns the program, reaps it, prints
    its status line, and only then tests for "exit";
  - the order of `handlePipe`: make a pipe, fork the two sides, wait for
    both, and only then close the parent's ends of the pipe.

  The system calls appear as entries of an effect trace (`Effect`).
- `dispatch.dfy`, module `Dispatch`. `Classify` is the classification of a line
  as a function. `ClassifyLine` is the body of `main`'s loop as written: the
  tokenizing loop, then the index scan for `>`/`>>` with its `size_t` bound
  `tokens.size() - 1`, then `find("|")` and the two sub-tokenizations. It is
  proved to compute `Classify`. `SessionAfter`/`Outcome` say whether the shell
  goes on after a line. `RunSession` runs the loop over a finite list of lines.

Behaviour the model keeps exactly as the code has it:

- The redirect scan looks only at indices `1 .. n-2`. An operator in first or
  last position is an ordinary token, and such a line falls through to the
  pipe or plain case.
- The first operator in range decides `append`. The target is always the last
  token, wherever the operator stands.
- `handleRedirect` receives the whole token list, operator and target
  included. The program started therefore gets `>`/`>>` and the file name as
  arguments. A conventional shell passes only the words before the operator.
- After a redirected command, `main` returns 0, so the session ends whether
  or not the file could be opened. A conventional shell would report a failed
  open and go on.
- `handleRedirect` points the shell's own standard output at the target and
  never restores it, so the status line printed after the command lands in
  the target file after the command's output.
- A redirection operator takes precedence over `|`.
- The pipe split is made on the raw line at its first `|`. `ls|wc` is one
  token for the redirect scan and still two commands.
- "exit" is tested only after the command has been spawned and reaped. In a
  pipeline, "exit" runs inside a child process and ends only that child.
- After a pipeline the shell waits for the second command while it still holds
  the write end of the pipe. A second command that reads its input to the end
  never sees end of input, so the shell hangs. The model gives such a line the
  fate `AwaitsReader`, and a session stops there.
- Arguments and the target name reach the operating system through
  `c_str()`, so each is cut at its first NUL character. A NUL is not white
  space, so it can sit inside a token.
- A line that is not empty but holds only white space has no tokens.
  `tokens.size() - 1` then wraps around to the largest `size_t`, and
  `tokens[1]` is read out of range. The model gives this line the variant
  `WhitespaceOnly`, and the session's fate after it is `Undefined`.
- A pipeline with an empty side would read `cmd[0]` of an empty vector in the
  child, so its fate is `Undefined` as well.

## Model

| member | source | states |
|---|---|---|
| Tokenizer.Tokenize | myshell/main.cpp:132-134 | the extraction loop (skip white space, extract a word, append it) yields exactly `Tokens(line)` |
| Tokenizer.ExtractWord | myshell/main.cpp:134 | one extraction reads a non-empty run of non-white-space characters and stops at white space or at the end of the line |
| Tokenizer.Tokens | myshell/main.cpp:132-134 | there are never more tokens than characters in the line |
| Tokenizer.TokensAreWords | myshell/main.cpp:132-134 | every token is non-empty and holds no white-space character |
| Tokenizer.ConcatTokens | myshell/main.cpp:132-134 | the tokens concatenated in order equal the line with every white-space character removed |
| Tokenizer.TokensOfUnwords | myshell/main.cpp:132-134 | tokenizing words joined by single spaces gives back exactly those words (the tokens are the maximal runs) |
| Tokenizer.TokensEmpty | myshell/main.cpp:132-134 | a line has no tokens if and only if every character of it is white space |
| Tokenizer.TokensSplit | myshell/main.cpp:132-134 | a white-space character separates tokens: the tokens of `a + [c] + b` are those of `a` followed by those of `b` |
| Exec.Argv | myshell/main.cpp:17-21 | the vector has one slot per word plus one; slot `k` holds word `k` and the last slot is the null terminator |
| Exec.CStr | myshell/main.cpp:19 | what a C function sees of a string is its longest prefix without NUL, which ends at the first NUL or at the end |
| Exec.CStrWhole | myshell/main.cpp:19 | a string without NUL is seen whole |
| Exec.BuildArgv | myshell/main.cpp:17-21 | the `push_back` loop builds `Argv(cmd)`, and the program reading it up to the null terminator sees each word cut at its first NUL |
| Exec.ArgsSeenArgv | myshell/main.cpp:17-31 | reading the built vector up to its null terminator gives each word of the command cut at its first NUL |
| Exec.ArgsSeenWhole | myshell/main.cpp:17-31 | a command none of whose words holds a NUL is received exactly |
| Exec.OpenFlags | myshell/main.cpp:69 | the flags always hold write-only and create, plus exactly one of append (when `append` holds) or truncate (otherwise) |
| Exec.StatusLine | myshell/main.cpp:38-39 | the status report is one line, ending in a newline |
| Exec.RedirectedFileEndsWithStatus | myshell/main.cpp:68-80 | after a redirected run that exits normally the target holds the old contents (with `>>` only), the command's output, then the status line |
| Exec.RedirectTwice | myshell/main.cpp:69-70 | two writes through `>` leave only the second output; two writes through `>>` leave the old contents, then both outputs in order |
| Exec.ExecuteCommand | myshell/main.cpp:23-46 | the program is spawned with `Argv(cmd)`, reaped, and its status reported first; the shell then ends, with status 0, if and only if the first word is "exit" |
| Exec.HandleRedirect | myshell/main.cpp:68-80 | the target, cut at its first NUL, is opened first with `OpenFlags(append)` and mode 0644; a program is spawned if and only if the open succeeds, after standard output is pointed at the target, with the full given command; the status report comes after that redirection; the shell ends inside it only for "exit" |
| Exec.HandlePipe | myshell/main.cpp:83-123 | the first command runs on the write end and the second on the read end; the parent closes its write end only after both waits; the shell itself does not end |
| Dispatch.SizeSub | myshell/main.cpp:137 | `size_t` subtraction equals the difference when it is not negative and wraps around modulo 2^64 otherwise |
| Dispatch.FirstRedirectFrom | myshell/main.cpp:137-138 | the result is the lowest index at or after `from` and before the last token that holds `>` or `>>`; none exactly when no such index exists |
| Dispatch.ScanRedirect | myshell/main.cpp:137-143 | the scan loop reads out of range exactly when there are no tokens; otherwise it stops at the first in-range operator, or finds none when `FirstRedirect` finds none |
| Dispatch.FindFirst | myshell/main.cpp:146 | `find` for the bar character is none exactly when the line has no bar; otherwise the position holds bar and no earlier position does |
| Dispatch.Classify | myshell/main.cpp:130-157 | an empty line is skipped and only it; a line of only white space reaches the out-of-range scan and only it; a redirected or plain command is the full token list, a redirect's target its last token; a pipeline holds a bar and a plain line none |
| Dispatch.ClassifyLine | myshell/main.cpp:130-158 | the loop body, with its tokenizing and scanning loops, computes `Classify(line)` |
| Dispatch.ClassifySkip | myshell/main.cpp:130 | a line is skipped if and only if it is empty |
| Dispatch.ClassifyWhitespaceOnly | myshell/main.cpp:132-137 | a line reaches the out-of-range scan if and only if it is non-empty and made only of white space |
| Dispatch.RedirectRecognised | myshell/main.cpp:137-138 | a line is redirected if and only if `>` or `>>` stands at some index `i` with `1 <= i < n-1` |
| Dispatch.RedirectFirstMatchWins | myshell/main.cpp:137-140 | the lowest in-range operator decides: `append` holds exactly when that token is `>>`, whatever operators follow |
| Dispatch.RedirectKeepsAllTokens | myshell/main.cpp:140 | a redirected line has at least three tokens; the command is the full token list and the target is its last token |
| Dispatch.PipeRecognised | myshell/main.cpp:136-147 | a line is piped if and only if it has no in-range redirection operator and holds a bar |
| Dispatch.PipeParts | myshell/main.cpp:146-149 | the part before the first bar that `find` reports, that bar and the part after it make up the line, and the part before holds no bar |
| Dispatch.PipeSplitAt | myshell/main.cpp:146-153 | with no redirection and a bar at `p` with no bar before it, the line is a pipeline of the tokens of the part before `p` and of the part after it, each tokenized on its own |
| Dispatch.PipeAgreesWithTokens | myshell/main.cpp:146-153 | for left, bar, right with spaces around the bar, the two sides' tokens are the whole line's tokens with the bar token taken out |
| Dispatch.PlainCase | myshell/main.cpp:155-157 | a line runs as one plain command if and only if it has tokens, no in-range operator and no bar; the command is the full token list |
| Dispatch.SessionAfter | myshell/main.cpp:136-158 | the session stops exactly after a redirect or a plain "exit"; it goes on exactly after a skipped line or another plain command; it waits on the reader exactly after a pipeline with two non-empty sides |
| Dispatch.RedirectHandled | myshell/main.cpp:137-141 | a redirected line opens its last token with the flags of the first in-range operator, runs its whole token list when the open succeeds, ends the shell inside only for "exit", and ends the session either way |
| Dispatch.PipelineAwaitsReader | myshell/main.cpp:146-154 | a piped line forks its left side as writer and right side as reader, never ends the shell, and waits on the reader exactly when both sides are non-empty |
| Dispatch.SessionStops | myshell/main.cpp:136-158 | the session ends after a line if and only if it has an in-range redirection operator, or has no bar and first token "exit"; a bar-separated "exit" ends only a child |
| Dispatch.HandleLine | myshell/main.cpp:130-158 | one pass of the loop yields the session's fate for that line |
| Dispatch.RunSession | myshell/main.cpp:125-161 | lines are handled in order; the session continued after every line before the last one handled, and the loop stops at the first line whose fate is not to continue |

## Left out

- Process and descriptor operations (`fork`, `execvp`, `waitpid`, `pipe`, `dup2`, `close`) appear only as entries of the effect trace; what the operating system does with them, and their failure paths, are not modelled. The only outcome kept is whether `open` succeeded, a parameter of `HandleRedirect`. A failed `fork` in `executeCommand` (`exit(EXIT_FAILURE)`) is not modelled either.
- `handlePipe` (lines 83-123) is modelled by its order of effects only. What the two concurrent children do inside is outside a sequential model, and so is whether the second command ever ends; the model therefore cannot say whether the shell reads another line after a pipeline.
- `executeScript` (lines 50-65) is not modelled: it reads a file and is never called from `main`. Its tokenization is the same idiom as `Tokenize`.
- The prompt and `getline` (lines 128-129) are I/O and not modelled. The status line printed after a command (line 39) appears only as the `ReportStatus` effect, and its text as `StatusLine`; the terminal output is not modelled. `RunSession` takes the input as a finite list of lines. The loop in `main` has no end-of-input check, so end of input is not a way out of the session in this model.
- `handleRedirect` points the shell's own standard output at the file and never restores it. The model records this (`RedirectStdout`) and the status line written through it, but no output after the session ends.
- Open flags and permission bits are symbolic (`OpenFlag`, `CreateMode`); the numeric `O_*` values are platform-defined and not modelled. `FileAfter` is a model of what POSIX `open`/`write` do with these flags, not code from the repository.
- Strings are sequences of `char`, not bytes. White space is the six ASCII characters of the "C" locale, and no other character counts as white space.
- Dispatch.SessionAfter: a pipeline with two non-empty sides gives `AwaitsReader` rather than `Continue`: the shell goes on only if the second command ends by itself, which depends on the program run.
- Exec.StatusLine: is printed only when the child exited normally (`WIFEXITED`); the trace always holds `ReportStatus`, and a child killed by a signal is not modelled.
- Dispatch.SessionAfter: an empty side of a pipeline gives `Undefined` rather than a result. The undefined behaviour happens in a child process, and the model does not guess what it does.
- Dispatch.ClassifyLine: requires the line to be at most the largest `size_t` long, which is the size bound a `std::string` and a `std::vector` have anyway.
