# minishell core, modelled in Dafny

This project models the core of minishell_42, a small Bourne-style shell
written in C. It covers:

- **The line loop** (`ft_cli`): history, parse, heredocs, launch, reset.
- **The shell state** (`ft_init_sh`, `ft_restore_cli`).
- **The signal dispositions** the shell installs.
- **The syntax validator** that screens each line.
- **The tokenizer.** It splits a line into word and operator tokens, and
  turns an `export` that does not start a command into a plain word.
- **The tree-builder helpers.** They collect a command's arguments and move
  a cursor to the next pipe, redirection or command word.
- **Heredoc capture** into a temporary file.
- **The `export` and `unset` builtins** over the global and local stores.
- **Redirection resolution**, in both the mandatory and the bonus shell.

## How it is modelled

- **Strings.** A C string is a `string` with no NUL in it. `At(s, i)` reads
  the terminator at or past the end. libft's `ft_strchr` finds the
  terminator, so `StrChr(set, NUL)` holds for every set. `strncmp(a, b, n)
  == 0` is `StrNEq(a, b, n)`.
- **The process.** Files, descriptors and the signal table are the value
  `Os.Proc`:
  - a directory from path to inode;
  - file contents per inode;
  - the paths that cannot be opened;
  - the descriptor table;
  - the next descriptor number.

  `open`, `dup2`, `close`, `unlink` and writing a line are pure functions
  over that value. Each one keeps `Os.Valid`.
- **The shell.** `t_shell` is the class `ShellState.Shell`. The C code
  updates its fields in place, so every operation that changes the shell
  is a method. Each such method names in its `modifies` clause exactly the
  fields it writes, using the per-field form `sh`field`. These fields are:
  - the status `ft_exit_status` keeps;
  - the printed diagnostics;
  - the history;
  - the lines handed to the launcher.
- **Loops.** Loops in the C code are `while` loops with invariants. Each is
  proved against a function that states what the loop computes, and the
  promised properties are proved about that function as lemmas. The
  tokenizer's function `Lex` is in turn pinned down without reference to
  its own definition: `Tokenizer.LexIsOnlySegmentation` shows it is the
  only way to cut the line into words and operators at blanks and operator
  characters.
- **Code that is not part of this model becomes parameters.** This covers
  readline input, `ft_process_input`, `ft_search_heredoc`,
  `ft_single_command`, `check_key`, `ft_local_import`, the expansion of a
  redirection target and `ft_add_to_token_list`'s classification.
  Readline input is a sequence of lines, with `None` for end of input.
- **Constants.** `METACHARS`, `SPECIALCHARS`, `NON_EXPANDABLE`,
  `PARENT_`/`HEREDOC_`/`DEFAULT_`/`CHILD_` and the token kinds are defined
  in `includes/minishell.h`, which is not part of this model. The
  characters used (`|<>`, `\;&()` and a set of punctuation) are stand-ins.
  The proofs rely only on the class facts in `CStr.ClassesDisjoint`.

## Model

| member | source | states |
|---|---|---|
| CStr.IsSpace | srcs/tokenize/ft_validate_syntax.c:12-18 | a character is whitespace exactly when it is ASCII 32 or 9 through 13 |
| CStr.StrNEqPrefix | srcs/ft_heredoc.c:26-27 | for C strings, `strncmp(a, b, strlen(b)) == 0` holds exactly when b is a prefix of a |
| CStr.Trim | srcs/tokenize/ft_validate_syntax.c:103 | the trimmed line is the infix left after whitespace is removed at both ends, and neither of its ends is whitespace |
| CStr.TrimPreservesCString | srcs/tokenize/ft_validate_syntax.c:103 | trimming a C string gives a C string |
| CStr.TrimStartsAtFirstNonBlank | srcs/tokenize/ft_validate_syntax.c:103-107 | the trimmed line starts with the first non-blank character of the line |
| CStr.TrimBlank | srcs/tokenize/ft_validate_syntax.c:103 | a line made only of whitespace trims to the empty string |
| Quotes.FindNextQuote | srcs/tokenize/ft_validate_syntax.c:36-38 | the answer is -1 or a later index holding the same quote character |
| Quotes.FindNextQuoteFirst | srcs/tokenize/ft_validate_syntax.c:36-38 | no occurrence of the quote lies between i and the answer, and none follows i when the answer is -1 |
| Syntax.FirstCharRejection | srcs/tokenize/ft_validate_syntax.c:66-90 | `#` and only `#` is refused silently; `%`, `~`, NUL (found by `ft_strchr`), every special character and `|` are refused with a diagnostic naming the character; `<`, `>` and every other character pass |
| Syntax.IterateStr | srcs/tokenize/ft_validate_syntax.c:32-52 | a successful step returns an index at or after i, inside the line |
| Syntax.ValidateSyntax | srcs/tokenize/ft_validate_syntax.c:97-124 | the loop's verdict and diagnostic are those of the scan function `Validate` |
| Syntax.ScanQuote | srcs/tokenize/ft_validate_syntax.c:34-40 | an unclosed quote is refused silently; a closed span is skipped whole and clears the pending-operator flag |
| Syntax.ScanMeta | srcs/tokenize/ft_validate_syntax.c:43-50 | an operator is refused while one is pending; otherwise it sets the flag, and `<<`/`>>` count as one operator |
| Syntax.ScanSpecial | srcs/tokenize/ft_validate_syntax.c:41-42 | a special character is always refused, with a diagnostic naming it |
| Syntax.ScanSpace | srcs/tokenize/ft_validate_syntax.c:114-119 | a blank keeps the pending-operator flag |
| Syntax.ScanOperand | srcs/tokenize/ft_validate_syntax.c:114-119 | an operand clears the flag; `$` before a character that cannot be expanded is refused with the character of the untrimmed line |
| Syntax.ScanAccepted | srcs/tokenize/ft_validate_syntax.c:109-122 | an accepting scan implies closed quotes, an operand after every pending operator, and acceptable unquoted characters |
| Syntax.ScanAcceptsWhen | srcs/tokenize/ft_validate_syntax.c:109-123 | conversely, such a rest of line makes the scan accept |
| Syntax.ValidateAcceptsExactly | srcs/tokenize/ft_validate_syntax.c:97-124 | a line is accepted if and only if its trimmed form meets the independent description `Acceptable` |
| Syntax.CommentLineRejectedSilently | srcs/tokenize/ft_validate_syntax.c:68-72 | a line whose first non-blank character is `#` is refused with no diagnostic |
| Syntax.FirstCharRejected | srcs/tokenize/ft_validate_syntax.c:107-108 | a line whose first non-blank character may not start a command is refused with that character's diagnostic |
| Syntax.BlankLineRejected | srcs/tokenize/ft_validate_syntax.c:79-86 | a blank line is refused with a diagnostic naming the terminator, because `ft_strchr` finds NUL |
| Syntax.UnclosedQuoteRejected | srcs/tokenize/ft_validate_syntax.c:36-38 | a line with an unclosed quote is never accepted |
| Syntax.UnquotedSpecialRejected | srcs/tokenize/ft_validate_syntax.c:41-42 | a special character outside quotes is never accepted |
| Syntax.UnsupportedExpansionRejected | srcs/tokenize/ft_validate_syntax.c:116-117 | an unquoted `$` before a non-expandable character or the end of the line is never accepted |
| Syntax.AdjacentOperatorsRejected | srcs/tokenize/ft_validate_syntax.c:43-47 | two unquoted operators separated only by blanks are never accepted (`<<<`, `>>>`, a pipe followed by `>`, two pipes) |
| Syntax.DanglingOperatorRejected | srcs/tokenize/ft_validate_syntax.c:121-122 | a line ending with an operator is never accepted |
| Tokenizer.MetaEnd | srcs/tokenize/ft_create_token_list.c:20-24 | an operator token is one character long, or two when `<` or `>` is followed by an operator character |
| Tokenizer.AddToTokenList | srcs/tokenize/ft_create_token_list.c:87-91 | a non-empty pending word is appended as one typed token; an empty one adds nothing |
| Tokenizer.HandleQuotes | srcs/tokenize/ft_create_token_list.c:42-53 | the word gains exactly the span from the opening quote to its closing quote, and the index is that of the closing quote |
| Tokenizer.HandleMetachar | srcs/tokenize/ft_create_token_list.c:17-27 | exactly one operator token is appended, and the index is that of its last character |
| Tokenizer.ProcessNonBlank | srcs/tokenize/ft_create_token_list.c:74-86 | the non-blank branch stops on a non-blank character at or after i (the last of an operator or the closing quote), the line is still closed after it, and the tokens added plus the tokens still to come are still `Lex` of the line |
| Tokenizer.ProcessChar | srcs/tokenize/ft_create_token_list.c:74-89 | one pass of the loop moves the index forward past the character, an operator or a quoted span, keeps the tokens already added plus the tokens still to come equal to `Lex` of the line, and keeps the list typed |
| Tokenizer.ProcessTokens | srcs/tokenize/ft_create_token_list.c:65-92 | the loop, one `ProcessChar` pass at a time, appends one typed token per value of the tokenization function `Lex` |
| Tokenizer.LexKeepsAllButBlanks | srcs/tokenize/ft_create_token_list.c:65-92 | the tokens, joined in order, are the line minus its unquoted blanks: nothing else is dropped, added or reordered |
| Tokenizer.LexShapes | srcs/tokenize/ft_create_token_list.c:65-92 | every token is one operator or one word, with blanks and operator characters only inside quotes |
| Tokenizer.AcceptedLineIsLexReady | srcs/tokenize/ft_create_token_list.c:20 | a line the validator accepts, once trimmed, has closed quotes and does not end in `<` or `>`, so the tokenizer never reads past its end |
| Tokenizer.AcceptedRawLineIsLexReady | srcs/tokenize/ft_create_token_list.c:20 | the same for the untrimmed line: a line the validator accepts has closed quotes and no `<` or `>` as its last non-blank character |
| Tokenizer.LexSegments | srcs/tokenize/ft_create_token_list.c:65-92 | the tokens lie in the line in order at non-overlapping spans; only blanks lie between them; a word span runs until the line ends, a blank or an operator character; a single `<` or `>` is not followed by an operator character |
| Tokenizer.CutsUnique | srcs/tokenize/ft_create_token_list.c:65-92 | two such cuts of a line whose pieces are all words or operators are the same cut |
| Tokenizer.LexIsOnlySegmentation | srcs/tokenize/ft_create_token_list.c:65-92 | any list of words and operators that cuts the line that way is exactly `Lex` of the line, so the token boundaries are fixed without reference to how `Lex` is computed |
| Tokenizer.ReclassifyExports | srcs/tokenize/ft_create_token_list.c:113-122 | each token keeps its value, and only its kind may be recomputed |
| Tokenizer.ValidateExportTokens | srcs/tokenize/ft_create_token_list.c:103-123 | the in-place walk leaves the array equal to `ReclassifyExports` of its old contents |
| Tokenizer.ReclassifyOnlyExports | srcs/tokenize/ft_create_token_list.c:116-118 | values and order are kept; only EXPORT/EXPORT_AP tokens change, and only to EXEC |
| Tokenizer.ReclassifiedExportsStartCommands | srcs/tokenize/ft_create_token_list.c:116-118 | afterwards every export token is first or follows a PIPE, and each one that was so placed before keeps its kind |
| Tokenizer.ReclassifyIdempotent | srcs/tokenize/ft_create_token_list.c:103-123 | reclassifying twice is the same as reclassifying once |
| Tokenizer.CreateTokenList | srcs/tokenize/ft_create_token_list.c:146-157 | a fresh list holding the typed tokens of the line, with exports reclassified |
| TreeUtils.AddToVector | srcs/tokenize/ft_build_tree_utils.c:3-30 | a fresh vector of the old entries in order, then the new one |
| TreeUtils.GetArgs | srcs/tokenize/ft_build_tree_utils.c:32-56 | NULL exactly when the command has no arguments; otherwise a fresh vector of exactly those arguments |
| TreeUtils.ArgsAreUnredirectedArguments | srcs/tokenize/ft_build_tree_utils.c:40-54 | with no two adjacent redirections, the arguments are the EXEC/EXPORT/EXPORT_AP values before the first PIPE, in order, except the operand of a redirection |
| TreeUtils.ArgsStopAtPipe | srcs/tokenize/ft_build_tree_utils.c:51-52 | tokens after the first PIPE never affect the arguments |
| TreeUtils.FindNextPipe | srcs/tokenize/ft_build_tree_utils.c:58-75 | true exactly when a PIPE follows, and the cursor is then just past the first one; otherwise it is at the end |
| TreeUtils.FindNextRedir | srcs/tokenize/ft_build_tree_utils.c:77-99 | the cursor stops at the first redirection before any PIPE (true), or at that PIPE or the end (false), skipping no redirection |
| TreeUtils.FindNextExec | srcs/tokenize/ft_build_tree_utils.c:101-122 | the cursor stops at the first EXEC before any PIPE (true), or at that PIPE or the end (false), skipping no EXEC |
| Os.Open | srcs/execution/ft_redir.c:34-35 | -1 with nothing changed exactly when the path cannot be opened in that mode; otherwise the next descriptor refers to the path's file; reading keeps every file, and appending to a new path creates it empty |
| Os.OpenNull | srcs/execution/ft_redir.c:31 | a new descriptor onto /dev/null |
| Os.Dup2 | srcs/execution/ft_redir.c:201-206 | the target descriptor refers to the source's file; an invalid source changes nothing |
| Os.Close | srcs/execution/ft_redir.c:207 | only that descriptor is removed |
| Os.Unlink | srcs/execution/ft_redir.c:101 | only the name is removed; open descriptors keep the file |
| Os.WriteLine | srcs/ft_heredoc.c:36 | the line and a newline are appended to the descriptor's file; /dev/null and invalid descriptors change nothing |
| ShellState.Shell.constructor | srcs/ft_cli.c:30-52 | the global store is the given environment, the local store and the heredoc queue are empty, `run` is TRUE, `prev` is NULL and `fds_saved` is 0 |
| ShellState.InitSh | srcs/ft_cli.c:30-52 | NULL exactly when an allocation fails; otherwise a fresh shell in that initial state |
| ShellState.RestoreCli | srcs/ft_cli.c:3-17 | `fds_saved` is 0, `run` is TRUE, `prev` is NULL and the heredoc queue is empty, and nothing else changes |
| SignalControl.FtSignal | srcs/ft_signal.c:87-114 | SIGTSTP is always ignored; PARENT_ and HEREDOC_ ignore SIGQUIT and install their SIGINT handler; DEFAULT_ restores both defaults; CHILD_ installs the child handler for both; any other value keeps SIGINT and SIGQUIT |
| SignalControl.SigParentHandler | srcs/ft_signal.c:15-23 | the status becomes 130 |
| SignalControl.SigHeredocHandler | srcs/ft_signal.c:59-67 | on SIGINT standard input is closed and the status becomes 130; other signals change nothing |
| SignalControl.Deliver | srcs/ft_signal.c:41-47 | an ignored signal continues; a default one terminates, or stops for SIGTSTP; a handled one runs its handler, and the child handler changes no state |
| Heredoc.StopsOnPrefix | srcs/ft_heredoc.c:26-27 | capture stops at end of input or at a non-empty line that is a prefix of the limiter |
| Heredoc.Captured | srcs/ft_heredoc.c:21-38 | the captured lines are exactly the lines read before the first stopping one, in order, and none of them stops |
| Heredoc.Body | srcs/ft_heredoc.c:36 | the file text is each captured line followed by a newline |
| Heredoc.CaptureStopsAtFirstPrefix | srcs/ft_heredoc.c:26-32 | the stopping read is the first one that is end of input or a non-empty prefix of the limiter |
| Heredoc.EmptyLineCaptured | srcs/ft_heredoc.c:26-27 | an empty line never ends the capture and becomes a blank line of the file |
| Heredoc.BodyAppend | srcs/ft_heredoc.c:36 | the text of a longer capture extends that of a shorter one |
| Heredoc.CountLine | srcs/ft_heredoc.c:3-12 | the counter is at least 1 once called; mode 1 advances it by one and other modes keep it |
| Heredoc.OpenForAppend | srcs/ft_heredoc.c:19 | opening the temporary file with O_APPEND keeps what it held |
| Heredoc.AppendLine | srcs/ft_heredoc.c:36 | writing a line through the appending descriptor adds the line and a newline at the end |
| Heredoc.ReopenForReading | srcs/ft_heredoc.c:39-40 | after closing the writer, the reopened descriptor reads the same contents |
| Heredoc.CaptureLines | srcs/ft_heredoc.c:21-38 | the loop reads up to the first stopping line, appends exactly the captured lines and reports end of input with the counter and the limiter |
| Heredoc.ReadHeredoc | srcs/ft_heredoc.c:14-41 | the temporary file holds its old contents followed by the captured body, the result reads it, and the counter advances once per captured line |
| Heredoc.HeredocFd | srcs/ft_heredoc.c:43-53 | SIGTSTP is ignored and SIGINT/SIGQUIT get the dispositions of the mode passed to ft_signal; the counter advances as in read_heredoc and end of input is reported with it and the limiter; standard input holds the captured text, the temporary name is gone, and the result and status are 0 |
| EnvVars.FindVar | srcs/builtins/ft_export.c:53-63 | the index of the first entry whose name is the first size characters of str, or none when no entry has that name |
| EnvVars.NameMatchExact | srcs/builtins/ft_unset.c:29-30 | for C strings, an entry matches the whole of str exactly when it starts with str followed by `=` |
| EnvVars.KeyMatchExact | srcs/builtins/ft_unset.c:29-30 | when neither contains `=`, the name str matches `key=value` exactly when str is the key, so `unset A` never touches `AB=1` |
| UnsetBuiltin.WithoutMembers | srcs/builtins/ft_unset.c:69-78 | an entry survives removal exactly when it is not named str |
| UnsetBuiltin.WithoutAppend | srcs/builtins/ft_unset.c:69-78 | removal keeps the relative order of the survivors |
| UnsetBuiltin.WithoutNoMatch | srcs/builtins/ft_unset.c:110-118 | a store with no entry of that name is left as it is |
| UnsetBuiltin.IsVar | srcs/builtins/ft_unset.c:18-38 | the number of entries when some entry is named exactly str, otherwise 0 |
| UnsetBuiltin.DeleteLastOverflows | srcs/builtins/ft_unset.c:69-79 | as written, when only the last entry is named str, the terminator goes to slot size_env |
| UnsetBuiltin.DeleteOnlyEntryOverflows | srcs/builtins/ft_unset.c:66-79 | `unset A` on the store `A=1`: is_var gives 1 slot, and the terminator goes to slot 1 |
| UnsetBuiltin.DeleteVar | srcs/builtins/ft_unset.c:56-83 | corrected: the result is the store without the entries named str, and every write stays inside the size_env slots |
| UnsetBuiltin.UnsetRemovesNames | srcs/builtins/ft_unset.c:99-123 | after unset, no entry is named by any argument, and every entry was there before |
| UnsetBuiltin.UnsetKeepsUnnamedStore | srcs/builtins/ft_unset.c:108-119 | a store holding none of the names is unchanged |
| UnsetBuiltin.UnsetKeepsOthers | srcs/builtins/ft_unset.c:99-123 | every entry named by no argument survives |
| UnsetBuiltin.Unset | srcs/builtins/ft_unset.c:99-123 | both stores lose exactly the entries named by the arguments, in argument order, and the result and status are 0 |
| ExportBuiltin.AddVar | srcs/builtins/ft_export.c:13-33 | the store gains a copy of str after its old entries |
| ExportBuiltin.ReplaceVar | srcs/builtins/ft_export.c:48-67 | the first entry with that name becomes str (0); with none, LOCAL reports -1 and changes nothing, and DEFAULT appends str (0) |
| ExportBuiltin.ConcatenateVar | srcs/builtins/ft_export.c:83-108 | the entry named by the text before `+` gains the text after `+=` (0); with none, LOCAL reports -1 and changes nothing, and DEFAULT appends str verbatim (0) |
| ExportBuiltin.ReplacedFindsValue | srcs/builtins/ft_export.c:53-66 | after a replacement the name is found at its old place, or at the end, holding str, and every other entry is unchanged |
| ExportBuiltin.ReplacedIdempotent | srcs/builtins/ft_export.c:48-67 | exporting the same assignment twice is the same as exporting it once |
| ExportBuiltin.ConcatenatedKeepsEntry | srcs/builtins/ft_export.c:91-102 | concatenation keeps the entry's name and place, and the entry now ends with the appended value |
| ExportBuiltin.ConcatenatedVerbatimStaysUnnamed | srcs/builtins/ft_export.c:105-107 | with no entry of that name, DEFAULT appends `KEY+=value` verbatim, so the name is still not found |
| ExportBuiltin.LocalPrecedence | srcs/builtins/ft_export.c:134-143 | a name the global store holds is updated there and the local store is untouched; any other name goes to the local store and the global store is untouched |
| ExportBuiltin.LocalStopsAtFirstNonAssignment | srcs/builtins/ft_export.c:129-132 | arguments after the first one without `=` change nothing |
| ExportBuiltin.ExportsKeepLocal | srcs/builtins/ft_export.c:178-188 | a DEFAULT export of assignments only never touches the local store |
| ExportBuiltin.ExportLocal | srcs/builtins/ft_export.c:123-147 | a failing check_key gives 2 and no change; otherwise the assignments up to the first argument without `=` are made with global-then-local precedence, and the result is 0 |
| ExportBuiltin.Export | srcs/builtins/ft_export.c:164-190 | LOCAL is ft_export_local; a bare `export` changes no store; a failing check_key gives 2 and no change; otherwise each argument is exported into the global store, or handed to ft_local_import when it has no `=`, and the result is 0 |
| Redirection.SearchExec | srcs/execution/ft_redir.c:59-76 | true exactly when some node after this one is the command itself (bonus/srcs/execution/ft_redir_bonus.c:69-86 is the same loop) |
| Redirection.OpenGate | srcs/execution/ft_redir.c:17-46 | a missing or unreadable infile gives a /dev/null descriptor and closes the gate; once the gate is closed no named file is opened and nothing is printed (a missing or unreadable infile still gets /dev/null, a readable one gets -1); only the first failure is reported; success leaves the gate open |
| Redirection.FtOpen | srcs/execution/ft_redir.c:17-46 | descriptor, process, curr_fd, status 1 on failure, and one diagnostic exactly when the gate was open are those of `OpenGate` |
| Redirection.DupThenClose | srcs/execution/ft_redir.c:201-207 | after dup2 and close, the stream refers to the opened file, the descriptor is gone, and nothing else changes |
| Redirection.DupThenCloseFailed | srcs/execution/ft_redir.c:201-207 | dup2 and close on -1 change nothing |
| Redirection.RedirHeredoc | srcs/execution/ft_redir.c:88-105 | exactly one heredoc is dequeued; only when the command follows is it opened onto standard input and unlinked |
| Redirection.HeredocWiresStdin | srcs/execution/ft_redir.c:96-101 | a heredoc file that is there ends up on standard input with its name removed |
| Redirection.Redir | srcs/execution/ft_redir.c:151-216 | an empty expansion is an ambiguous redirect (status 1, FALSE, nothing opened); otherwise the opened descriptor replaces stdout or stdin and is closed (TRUE); a heredoc dequeues exactly one file and, only when the command follows, opens it onto standard input, closes the descriptor and unlinks the name, with status, curr_fd and diagnostics unchanged (TRUE); anything else is FALSE and changes nothing |
| Redirection.RedirectionReplacesStream | srcs/execution/ft_redir.c:185-207 | with the gate open and the file available, the stream refers to the named file; with the gate closed an output redirection leaves the descriptors as they were |
| RedirectionBonus.FtOpenBonus | bonus/srcs/execution/ft_redir_bonus.c:29-56 | the same gate as `OpenGate`, on error_fd |
| RedirectionBonus.TryOpenAsWritten | bonus/srcs/execution/ft_redir_bonus.c:101-124 | as written: a returned queue is shorter than the one given and not empty |
| RedirectionBonus.TryOpenLastEntryDereferencesNull | bonus/srcs/execution/ft_redir_bonus.c:107-111 | as written, one queued file that cannot be opened makes the retry read the content of a NULL head |
| RedirectionBonus.TryOpenTwoFailuresDereferenceNull | bonus/srcs/execution/ft_redir_bonus.c:111-121 | as written, two queued files that cannot be opened reach the NULL read through the recursive call |
| RedirectionBonus.TryOpenDropsRecursiveResult | bonus/srcs/execution/ft_redir_bonus.c:113-123 | as written, with `a`, `b` and `c` queued and only `c` openable, the retry returns -1 although `c` is the first openable file |
| RedirectionBonus.TryOpenHeredoc | bonus/srcs/execution/ft_redir_bonus.c:101-124 | corrected: the queue drops the files before the first openable one; the result is one new descriptor, referring to that file, or to /dev/null with the last failed path reported when none opens; names and contents are kept |
| RedirectionBonus.RedirHeredocBonus | bonus/srcs/execution/ft_redir_bonus.c:136-160 | without a following command, the head is dequeued and nothing else changes; with one, the first openable queued file is on standard input and only its name is removed, and it and the files before it are dequeued; when none opens, standard input is /dev/null, the queue is emptied, the last path is reported and no name is removed; every other descriptor and all file contents are unchanged |
| RedirectionBonus.RedirBonus | bonus/srcs/execution/ft_redir_bonus.c:175-202 | an empty expansion or a target word containing `*` is an ambiguous redirect naming the word (status 1, FALSE); otherwise dup2 and close run only for a real descriptor (TRUE); a heredoc is TRUE: without a following command it dequeues the head and changes nothing else; with one, the first openable queued file is on standard input, only its name is removed, and it and the files before it are dequeued, or, when none opens, standard input is /dev/null, the queue is emptied, the last path is reported and no name is removed; other descriptors and file contents are unchanged; anything else is FALSE and changes nothing |
| RedirectionBonus.BonusGateSticky | bonus/srcs/execution/ft_redir_bonus.c:38-53 | once error_fd is -1, no named file is opened (only /dev/null for a missing or unreadable infile), nothing is reported and no names or contents change |
| Cli.History | srcs/ft_cli.c:65-84 | returns 1 and records the line exactly when it has a non-whitespace character, else returns 0 and records nothing |
| Cli.LaunchedAreRecorded | srcs/ft_cli.c:119-129 | every launched line was recorded, parsed, had its heredocs collected and was not a single builtin |
| Cli.BlankLinesIgnored | srcs/ft_cli.c:119 | recorded lines are non-blank lines of the input, and all-blank input records and launches nothing |
| Cli.HandleLine | srcs/ft_cli.c:119-132 | a line is recorded, and reported so, exactly when it is not blank; it is launched exactly when it is not blank, parses, leaves run TRUE after its heredocs and is not a single builtin, and exactly then the DEFAULT_ dispositions are installed first; after a recorded line the per-line state is reset, and a blank line changes nothing else |
| Cli.Cli | srcs/ft_cli.c:97-135 | until end of input: the history gains exactly the non-blank lines, the launcher gets exactly the launchable ones in order, the per-line state is reset after every non-blank line, and the parent signal handlers are installed at exit |

## Left out

- The launcher (`mandatory/srcs/execution/ft_launcher.c`) is left out: it
  forks, pipes and waits on concurrent processes. A launch is recorded as
  the line in `Shell.launched`.
- readline, `add_history` and the `rl_*` calls become sequences:
  - input is a sequence of lines;
  - the history is a sequence;
  - redisplay is left out.
- Terminal output and diagnostic wording are left out. A diagnostic is
  recorded by kind and subject (`Diagnostic`), and writes to the terminal
  are not modelled.
- Allocation failures are left out, except in `ft_init_sh`, where they are
  the `allocOk` parameter. Elsewhere every malloc is assumed to succeed.
  The `malloc`/`free` bookkeeping is not modelled.
- Code that is not part of this model becomes parameters or assumptions:
  - `ft_process_input`, `ft_search_heredoc` (through the value of `run`)
    and `ft_single_command` are parameters of `Cli.Cli`;
  - `check_key` and `ft_local_import` are parameters of the export
    methods;
  - the expansion of a redirection target is a parameter;
  - `ft_add_to_token_list`'s typing is a `classify` parameter; the
    function is taken to add a token only for a non-NULL word and to reset
    the word to NULL, which `Tokenizer.AddToTokenList` models with the
    empty string standing for NULL;
  - `ft_find_next_quote` is taken as the next occurrence of the quote;
  - `ft_is_star` is taken as "contains `*`".
- Descriptor numbers are allocated from a counter, not as the lowest free
  number. Files have no permission bits beyond "cannot be opened"
  (`denied`).
- ExportBuiltin.Export: the listing that a bare `export` prints
  (`ft_print_export`) is not modelled.
- ExportBuiltin.Export: `ft_strlen(ft_strchr(arg, '='))` is evaluated before the
  `=` test at `srcs/builtins/ft_export.c:180-181`. It is taken to be 0 for
  an argument without `=`, and that value is never used.
- UnsetBuiltin.DeleteVar: the corrected copy loop removes every entry
  named by the argument. As written, the entry right after a match is
  copied without being tested, so one of two adjacent duplicates would
  survive. The model uses the corrected removal.
- Heredoc.HeredocFd: the source passes the token kind `HEREDOC` to
  `ft_signal` rather than `HEREDOC_`. Their values live in
  `includes/minishell.h`, which is not part of this model, so the mode is a
  parameter.
- Heredoc.CaptureLines: at end of input `readline` returns NULL, and
  `srcs/ft_heredoc.c:26-27` calls `ft_strlen` on it before the `!input`
  test. The model takes `ft_strlen(NULL)` to be 0, so a NULL read stops
  the capture through `!input` (`Heredoc.Stops` tests end of input first).
  `Heredoc.ReadHeredoc` rests on the same assumption.
- Heredoc.CountLine: the static counter is never reset between heredocs.
  The model keeps it as the shell field `heredocLine`, which likewise is
  never reset.
- Signal handlers run asynchronously. `SignalControl.Deliver` models one
  delivery between two steps, not a delivery that interrupts a step.

## Findings

| source | as written | input that shows it | evidently intended | confidence | as-written member | corrected member |
|---|---|---|---|---|---|---|
| srcs/builtins/ft_unset.c:66-79 | `delete_var` allocates `size_env` slots, and the terminator is written at slot `j`. When the deleted entry is the last one, `j` is `size_env`. | `unset A` with the global store `A=1` | the terminator stays inside the allocation (room for `size_env` slots including the terminator, with at least one entry removed) | not executed | UnsetBuiltin.DeleteOnlyEntryOverflows | UnsetBuiltin.DeleteVar |
| bonus/srcs/execution/ft_redir_bonus.c:107-121 | `ft_try_open_heredoc` reads the new head's pathname before checking that the queue is non-empty. The recursive call's descriptor is discarded and -1 returned. | queue `a` with `a` unreadable (NULL read); queue `a`, `b`, `c` with only `c` readable (returns -1) | try the next queued file until one opens, and fall back to /dev/null when the queue runs out; ft_redir_heredoc (:150-155) then unlinks the file it opened, and removes no name when it fell back to /dev/null, since no head is left to name | not executed | RedirectionBonus.TryOpenDropsRecursiveResult | RedirectionBonus.TryOpenHeredoc (used by RedirectionBonus.RedirHeredocBonus, which skips the unlink after the /dev/null fallback) |
