# dskup launcher — a Dafny model of the layout-to-AppleScript compiler

dskup opens an iTerm2 window laid out from a YAML configuration: tabs, each split into
panes, each pane started in a working directory and sent a list of shell commands. The
launcher does not drive iTerm2 directly. It compiles the configuration into one AppleScript
program and hands that program to `osascript`. This project models that compiler:

- `resolve_dir` chooses a pane's working directory;
- `escape_applescript` escapes text for an AppleScript double-quoted literal;
- `build_pane_commands` produces a pane's command list;
- `generate_applescript` produces the program, line by line, and joins the lines with newlines.

Modules, one per concern:

| module | file | contents |
|---|---|---|
| `Optional` | optional.dfy | `Option`, standing for a key that may be absent from a YAML mapping |
| `Layout` | layout.dfy | `Config`, `Tab`, `Pane`, and the defaults the launcher applies to absent keys |
| `Text` | text.dfy | Python's `str(int)`, `"\n".join` and `str.split("\n")` |
| `Escaping` | escaping.dfy | `escape_applescript`, how a double-quoted literal reads back, and a per-character reference definition |
| `Counting` | counting.dfy | occurrence counts in sequences |
| `PaneSetup` | pane_setup.dfy | `resolve_dir` and `build_pane_commands` |
| `ScriptLines` | script_lines.dfy | every kind of line the program contains, as a `Stmt`, and its exact text |
| `StmtSeqs` | stmt_seqs.dfy | filtering, concatenating and counting statement sequences |
| `AppleScript` | applescript.dfy | `generate_applescript`, built tab by tab and pane by pane |

The program is modelled in two layers. `AppleScript.WindowStmts` is the sequence of
statements emitted inside `tell current window`. `AppleScript.Generate` renders those
statements and wraps them in the fixed header and trailer lines. `AppleScript.Script` joins
the rendered lines. Properties about kinds of statement are proved on the first layer. They
are carried to the text by lemmas showing that the line in question is rendered from that
statement and from no other.

`os.path.expanduser` is a parameter `expand: string -> string`. Every result about
directories holds whatever that function does.

Where the launcher's own messages and docstrings promise more than its code does, the model
follows the code:

- A configuration may list no tabs at all. The error message at `launcher.py:29` asks for
  "at least one tab", but `load_config` checks only that the `tabs` key is present
  (`launcher.py:28`). So `tabs: []` reaches the generator, which then emits only the header
  and trailer.
- The docstring at `launcher.py:36` gives the precedence as `pane.dir > tab.dir > root`. The
  code at `launcher.py:37` uses truthiness, so an empty `dir` counts as absent and `root: ""`
  falls through to `~`. `config.get("root", "~")` at `launcher.py:70` alone would keep the
  empty string.
- `select first tab` is emitted when more than one tab is LISTED. That includes listed tabs
  without panes, which emit nothing else.
- Tabs are numbered by their position in the list, empty ones included. A first tab without
  panes therefore does not shift numbering: the next tab still gets `create tab` and the
  prefix `t1`.

The tab name reaches the shell without shell quoting. It is escaped once, for the AppleScript
literal, and the shell then sees it raw inside the double quotes of `printf "\e]1;<name>\a"`
(`launcher.py:129-130`). The model reproduces this.

## Model

| member | source | states |
|---|---|---|
| Escaping.Escape | launcher.py:41-43 | The two chained `replace` calls, in the launcher's order, equal escaping each character on its own (backslash to two backslashes, quote to backslash-quote, anything else unchanged). The result is a closed literal body: every backslash in it starts `\\` or `\"`, and no quote stands bare, so the closing quote really ends the literal. Reading the result back as an AppleScript literal body gives the original string, for every string. |
| Escaping.EscapeUnescape | launcher.py:41-43 | Every closed literal body (every backslash starts `\\` or `\"`, no bare quote) is the escape of what it reads as. Together with `Escape`'s read-back clause, escaping is a bijection onto closed bodies. |
| Escaping.EscapeAppend | launcher.py:41-43 | Escaping distributes over concatenation. |
| Escaping.EscapeUnchanged | launcher.py:41-43 | Text with no backslash and no double quote is left unchanged. |
| Escaping.EscapeLength | launcher.py:41-43 | The escaped text is longer than the input by exactly the number of backslashes plus the number of double quotes. |
| Escaping.QuotesFirstBreaksRoundTrip | launcher.py:43 | The order of the two replacements matters: escaping quotes first and backslashes second turns `"` into a literal that reads back as `\"`, while the launcher's order reads back as `"`. |
| PaneSetup.ResolveDir | launcher.py:35-38 | The working directory is the expansion of the first non-empty of pane `dir`, tab `dir` and root, or of `~` when all three are absent or empty. |
| PaneSetup.PaneDirWins | launcher.py:36-37 | A present, non-empty pane `dir` is chosen, whatever the tab `dir` and root are. |
| PaneSetup.TabDirWhenPaneDirBlank | launcher.py:36-37 | When the pane `dir` is absent or empty, a present, non-empty tab `dir` is chosen, whatever the root is. |
| PaneSetup.RootWhenPaneAndTabDirBlank | launcher.py:36-37 | When both `dir`s are absent or empty, a non-empty root is chosen. |
| PaneSetup.HomeWhenAllBlank | launcher.py:37 | When both `dir`s are absent or empty and the root is empty, `~` is chosen. |
| PaneSetup.RawDir | launcher.py:35-37 | The chosen directory is never empty. It is the pane's `dir`, the tab's `dir`, the root, or `~`, and a `dir` is only chosen when it is present and non-empty. |
| PaneSetup.RawDirIsFirstTruthy | launcher.py:37 | The chosen directory is the first non-empty of pane `dir`, tab `dir` and root, or `~` when all three are absent or empty. |
| PaneSetup.FirstTruthy | launcher.py:37 | The first present, non-empty value of a chain of `or`s is the result, and the fallback is the result when there is none. |
| PaneSetup.PaneCommands | launcher.py:46-51 | A pane's command list is one longer than its user commands. It starts with `cd` into the expanded resolved directory, followed by the user commands verbatim and in order; an absent `commands` key gives only the `cd`. |
| Text.ParseIntToString | launcher.py:107 | Python's rendering of an integer (used for `split_from` in `t<k>_p<n>`) reads back as the same integer, negatives included, so distinct `split_from` values name distinct variables. |
| Text.SplitJoin | launcher.py:144 | Joining lines with newlines and splitting the result at newlines gives the lines back, when no line holds a newline. |
| ScriptLines.CreateTabLineOnlyFromNewTab | launcher.py:95 | A statement renders as the `create tab with default profile` line if and only if it is the new-tab statement. |
| ScriptLines.SelectFirstLineOnlyFromSelectFirst | launcher.py:139 | A statement renders as the `select first tab` line if and only if it is the select-first statement. |
| ScriptLines.CaptureLineOnlyFromCapture | launcher.py:98-101 | A statement renders as `set t<k>_p1 to (current session)` if and only if it is the capture of tab `k`'s base session. |
| ScriptLines.CaptureTextInjective | launcher.py:98-101 | Tabs at different positions get different base-session variables. |
| ScriptLines.SplitTextDirection | launcher.py:113-116 | The split line says `horizontally` exactly when `split` is `horizontal`. Any other value, misspellings included, gives the same line as `vertical`. |
| ScriptLines.DecodeWriteText | launcher.py:131-133 | A `write text` line holds a closed literal body and, read back as AppleScript, types exactly the command it was built from. |
| ScriptLines.TitleIsWrite | launcher.py:128-130 | The tab-title line is the `write text` line of the shell command `printf "\e]1;<name>\a"`. The name is placed unescaped inside the shell's double quotes and escaped only for AppleScript. |
| ScriptLines.DecodeTitle | launcher.py:128-130 | Read back as AppleScript, the tab-title line types `printf "\e]1;<name>\a"` with the name verbatim, whatever characters it holds. The name gets no shell quoting. |
| AppleScript.SplitSection | launcher.py:103-117 | Taken in order, a tab's split statements create panes 2, 3, ... each in the direction that pane asks for. Its `tell`s, taken in order, address the panes the `split_from` values name, which are not range-checked. The section creates no tab, captures no base session and selects no tab. |
| AppleScript.SplitSectionLayout | launcher.py:104-117 | The split section has five lines per pane after the first: a blank line, the comment, `tell` of the `split_from` pane, the split that creates pane `j + 2` in that pane's direction, and `end tell`. So each new pane is captured inside a `tell` of the pane it splits from. |
| AppleScript.DispatchSection | launcher.py:119-134 | A tab's dispatch section addresses panes 1, 2, ... in order, exactly one `tell` each, and splits nothing. |
| AppleScript.PaneDispatch | launcher.py:122-134 | Pane `j`'s block opens with `tell`, then the title line when `j` is the first pane and the tab has a non-empty name (and nowhere else), then `cd` into the resolved directory, then each user command in order, then `end tell`. |
| AppleScript.TabStmtsCounts | launcher.py:82-101 | A tab without panes emits nothing. A tab with panes captures its own base session exactly once, and gets exactly one `create tab` unless it is at position 0. |
| AppleScript.TabStmtsSplits | launcher.py:98-117 | A non-empty tab with M panes performs exactly M−1 splits, creating panes 2..M in order with each pane's own direction. |
| AppleScript.TabStmtsTells | launcher.py:98-134 | A non-empty tab's `tell` blocks are first one per split, addressing the `split_from` pane, and then one per pane in pane order. |
| AppleScript.EmptyTabContributesNothing | launcher.py:82-87 | Removing a pane-less tab from the list leaves the other tabs' output unchanged, provided the later tabs keep their positions. |
| AppleScript.TabsNewTabCount | launcher.py:82-95 | Over a run of tabs, the number of `create tab` statements is the number of non-empty tabs not at position 0. |
| AppleScript.TabsCaptureCount | launcher.py:82-101 | Over a run of tabs, tab `j`'s base session is captured once if that tab exists and has panes, and never otherwise. |
| AppleScript.WindowCounts | launcher.py:82-139 | Inside the window: one `create tab` per non-empty tab after position 0, one base capture per non-empty tab, and one `select first tab` exactly when more than one tab is listed. |
| AppleScript.Generate | launcher.py:73-80 | The program starts with the seven header lines and ends with the two trailer lines. In between, each line is the rendering of the corresponding window statement. |
| AppleScript.CreateTabLines | launcher.py:86-95 | The program contains the `create tab` line exactly once per non-empty tab at a position other than 0. |
| AppleScript.SelectFirstLines | launcher.py:136-139 | The program contains `select first tab` once if more than one tab is listed, empty ones included, and otherwise not at all. |
| AppleScript.SelectFirstLast | launcher.py:136-142 | When more than one tab is listed, `select first tab` is the last line before the two closing `end tell` lines. |
| AppleScript.CaptureLines | launcher.py:86-101 | The program contains `set t<k>_p1 to (current session)` once if tab `k` exists and has panes, and otherwise not at all. |
| AppleScript.SkippedFirstTabStillCreatesTab | launcher.py:86-95 | With two listed tabs, the first without panes, the program still creates a new tab for the second, numbers it `t1`, and captures no `t0` session. |
| AppleScript.Script | launcher.py:144 | The script is the generated lines joined with newlines. When no generated line holds a newline, the script splits back into exactly those lines. |

## Left out

- `load_config` and `main` are left out. They cover reading the file, YAML parsing, the
  `DSKUP_DEBUG` print and running `osascript`, and all of that is I/O. The model starts from
  an already-parsed `Config`.
- `os.path.expanduser` is not modelled. It becomes the parameter `expand`.
- YAML values of unexpected type are not modelled, such as `null` or a number where text is
  expected. `Option` stands only for an absent key. In the source, a `null` name renders as
  `None` in a comment, and a `null` `commands` makes `extend` fail.
- The meaning of the program in AppleScript and iTerm2 is not modelled: which session is
  current, what a split does, whether `split_from` names an existing pane. The model
  describes the text the launcher produces. Like the source, it accepts any `split_from`
  integer and any `split` text.
- Newlines inside commands, names or directories are not modelled. `escape_applescript`
  leaves them unescaped, so they split the program's lines.
  AppleScript.Script therefore promises its split-back only when no generated line holds one.
- AppleScript.PaneDispatch: the title line is located by position, not counted in the
  program text. A user command whose text equals the title command renders as the same
  `write text` line, so no count of that line in the program can be stated.
- The OSC title escape (`\e]1;…\a`) is treated as opaque text. Its effect on the terminal is
  not modelled.
