/** The individual AppleScript lines the launcher emits. Each kind of statement the
    generator writes inside `tell current window` is a `Stmt`; `Render` produces its
    exact text, including indentation. */
module ScriptLines {
  import opened Optional
  import opened Text
  import opened Escaping
  import opened Counting

  /** The opening lines: activate iTerm2, open one window, and address it. */
  const Header: seq<string> := [
    "tell application \"iTerm2\"",
    "    activate",
    "    ",
    "    -- Create a new window",
    "    create window with default profile",
    "    ",
    "    tell current window"]

  /** The closing lines of the two `tell` scopes the header opens. */
  const Trailer: seq<string> := ["    end tell", "end tell"]

  /** Statements inside `tell current window` are indented by eight spaces, and those
      inside a `tell <session>` block by twelve. */
  const Indent: string := "        "
  const Nested: string := "            "

  const BlankLine: string := Indent
  const FirstTabLine: string := Indent + "-- First tab (already created with window)"
  const CreateTabLine: string := Indent + "create tab with default profile"
  const EndTellLine: string := Indent + "end tell"
  const SendLine: string := Indent + "-- Send commands to each pane"
  const SelectFirstLine: string := Indent + "select first tab"
  const WritePrefix: string := Nested + "write text \""
  /** The raw text of the title line's literal before and after the escaped name. Read back
      as AppleScript, they type `printf "\e]1;` and `\a"` (see `TitleCommand`). */
  const TitleOpen: string := "printf \\\"\\\\e]1;"
  const TitleClose: string := "\\\\a\\\""

  /** The variable prefix of the tab at position `k`: `t<k>`. */
  function Prefix(k: nat): string {
    "t" + NatToString(k)
  }

  /** Only the exact text `horizontal` splits horizontally; anything else splits vertically. */
  function SplitVerb(dir: string): string {
    if dir == "horizontal" then "horizontally" else "vertically"
  }

  /** The shell command the title line types: `printf "\e]1;<name>\a"`. */
  function TitleCommand(name: string): string {
    "printf \"\\e]1;" + name + "\\a\""
  }

  datatype Stmt =
    | Blank                                        // spacer line
    | FirstTabNote                                 // comment opening the first tab
    | NewTabNote(name: string)                     // comment opening a later tab
    | NewTab                                       // create tab with default profile
    | CaptureBase(tab: nat)                        // set t<k>_p1 to (current session)
    | SplitNote(from: int, dir: string, pane: nat) // comment before a split
    | Tell(tab: nat, target: int)                  // tell t<k>_p<i>
    | SplitInto(tab: nat, pane: nat, dir: string)  // set t<k>_p<i> to (split ...)
    | EndTell                                      // end tell
    | SendNote                                     // comment before command dispatch
    | Write(text: string)                          // write text "<escaped text>"
    | SetTitle(name: string)                       // write text of the OSC 1 printf
    | SelectFirst                                  // select first tab

  function NewTabNoteText(name: string): string {
    Indent + "-- Create tab: " + name
  }

  function CaptureText(k: nat): string {
    Indent + "set " + Prefix(k) + "_p1 to (current session)"
  }

  function SplitNoteText(from: int, dir: string, i: nat): string {
    Indent + "-- Split pane " + IntToString(from) + " " + dir + "ly to create pane " + NatToString(i)
  }

  function TellText(k: nat, i: int): string {
    Indent + "tell " + Prefix(k) + "_p" + IntToString(i)
  }

  function SplitText(k: nat, i: nat, dir: string): string {
    Nested + "set " + Prefix(k) + "_p" + NatToString(i) + " to (split " + SplitVerb(dir) + " with default profile)"
  }

  function WriteText(text: string): string {
    WritePrefix + Escape(text) + "\""
  }

  /** The title line: `write text "printf \"\\e]1;<escaped name>\\a\""`. */
  function TitleText(name: string): string {
    WritePrefix + TitleOpen + Escape(name) + TitleClose + "\""
  }

  /** The exact line each statement produces. */
  function Render(s: Stmt): string {
    match s
    case Blank => BlankLine
    case FirstTabNote => FirstTabLine
    case NewTabNote(name) => NewTabNoteText(name)
    case NewTab => CreateTabLine
    case CaptureBase(k) => CaptureText(k)
    case SplitNote(from, dir, i) => SplitNoteText(from, dir, i)
    case Tell(k, i) => TellText(k, i)
    case SplitInto(k, i, dir) => SplitText(k, i, dir)
    case EndTell => EndTellLine
    case SendNote => SendLine
    case Write(text) => WriteText(text)
    case SetTitle(name) => TitleText(name)
    case SelectFirst => SelectFirstLine
  }

  function RenderAll(ss: seq<Stmt>): (r: seq<string>)
    ensures |r| == |ss|
    ensures forall j :: 0 <= j < |ss| ==> r[j] == Render(ss[j])
  {
    seq(|ss|, j requires 0 <= j < |ss| => Render(ss[j]))
  }

  lemma RenderAllAppend(a: seq<Stmt>, b: seq<Stmt>)
    ensures RenderAll(a + b) == RenderAll(a) + RenderAll(b)
  {
  }

  // ---------------------------------------------------------------------------
  // Telling lines apart
  // ---------------------------------------------------------------------------

  /** The ninth character of a line: what follows the eight-space indent of a statement. */
  function Marker(l: string): char {
    if |l| > 8 then l[8] else ' '
  }

  /** The statements a tab's split and dispatch sections are made of: none of them creates
      a tab, captures a base session or selects the first tab. */
  predicate Quiet(s: Stmt) {
    !s.NewTab? && !s.CaptureBase? && !s.SelectFirst?
  }

  lemma PrefixIndex(p: string, rest: string, n: nat)
    requires n < |p|
    ensures (p + rest)[n] == p[n]
  {
  }

  /** The marker of an eight-space-indented line is its first character after the indent. */
  lemma IndentMarker(rest: string)
    requires |rest| > 0
    ensures Marker(Indent + rest) == rest[0]
  {
  }

  predicate QuietMark(c: char) {
    c == ' ' || c == '-' || c == 't' || c == 'e'
  }

  lemma FixedMarkers()
    ensures Marker(FirstTabLine) == '-'
    ensures Marker(EndTellLine) == 'e'
    ensures Marker(SendLine) == '-'
    ensures Marker(CreateTabLine) == 'c'
    ensures Marker(SelectFirstLine) == 's'
    ensures SelectFirstLine[10] == 'l'
  {
    IndentMarker("-- First tab (already created with window)");
    IndentMarker("end tell");
    IndentMarker("-- Send commands to each pane");
    IndentMarker("create tab with default profile");
    IndentMarker("select first tab");
  }

  lemma NewTabNoteMarker(name: string)
    ensures Marker(NewTabNoteText(name)) == '-'
  {
    IndentMarker("-- Create tab: ");
    PrefixIndex(Indent + "-- Create tab: ", name, 8);
  }

  lemma SplitNoteMarker(from: int, dir: string, i: nat)
    ensures Marker(SplitNoteText(from, dir, i)) == '-'
  {
    var p := Indent + "-- Split pane ";
    IndentMarker("-- Split pane ");
    var q := p + IntToString(from) + " " + dir + "ly to create pane ";
    assert q[8] == p[8];
    PrefixIndex(q, NatToString(i), 8);
  }

  lemma TellMarker(k: nat, i: int)
    ensures Marker(TellText(k, i)) == 't'
  {
    var p := Indent + "tell ";
    IndentMarker("tell ");
    var q := p + Prefix(k) + "_p";
    assert q[8] == p[8];
    PrefixIndex(q, IntToString(i), 8);
  }

  lemma SplitMarker(k: nat, i: nat, dir: string)
    ensures Marker(SplitText(k, i, dir)) == ' '
  {
    var p := Nested + "set ";
    var q := p + Prefix(k) + "_p" + NatToString(i) + " to (split " + SplitVerb(dir);
    assert q[8] == Nested[8];
    PrefixIndex(q, " with default profile)", 8);
  }

  lemma WriteMarker(text: string)
    ensures Marker(WriteText(text)) == ' '
  {
    assert (WritePrefix + Escape(text))[8] == Nested[8];
    PrefixIndex(WritePrefix + Escape(text), "\"", 8);
  }

  lemma TitleMarker(name: string)
    ensures Marker(TitleText(name)) == ' '
  {
    var p := WritePrefix + TitleOpen + Escape(name) + TitleClose;
    assert p[8] == Nested[8];
    PrefixIndex(p, "\"", 8);
  }

  /** Every quiet statement has an indent marker other than `c` and `s`. */
  lemma QuietMarker(s: Stmt)
    requires Quiet(s)
    ensures QuietMark(Marker(Render(s)))
  {
    match s
    case Blank =>
    case FirstTabNote => FixedMarkers();
    case NewTabNote(name) => NewTabNoteMarker(name);
    case SplitNote(from, dir, i) => SplitNoteMarker(from, dir, i);
    case Tell(k, i) => TellMarker(k, i);
    case SplitInto(k, i, dir) => SplitMarker(k, i, dir);
    case EndTell => FixedMarkers();
    case SendNote => FixedMarkers();
    case Write(text) => WriteMarker(text);
    case SetTitle(name) => TitleMarker(name);
  }

  lemma CaptureMarker(k: nat)
    ensures Marker(CaptureText(k)) == 's'
    ensures CaptureText(k)[10] == 't'
  {
    var p := Indent + "set ";
    IndentMarker("set ");
    assert p[10] == 't';
    var q := p + Prefix(k);
    assert q[8] == p[8] && q[10] == p[10];
    PrefixIndex(q, "_p1 to (current session)", 8);
    PrefixIndex(q, "_p1 to (current session)", 10);
  }

  /** Only the `create tab` statement renders as the `create tab` line. */
  lemma CreateTabLineOnlyFromNewTab(s: Stmt)
    ensures Render(s) == CreateTabLine <==> s == NewTab
  {
    FixedMarkers();
    if Quiet(s) {
      QuietMarker(s);
    } else if s.CaptureBase? {
      CaptureMarker(s.tab);
    }
  }

  /** Only the `select first tab` statement renders as that line. */
  lemma SelectFirstLineOnlyFromSelectFirst(s: Stmt)
    ensures Render(s) == SelectFirstLine <==> s == SelectFirst
  {
    FixedMarkers();
    if Quiet(s) {
      QuietMarker(s);
    } else if s.CaptureBase? {
      CaptureMarker(s.tab);
    }
  }

  /** A quiet statement never renders as a capture of a base session. */
  lemma QuietIsNotCapture(s: Stmt, k: nat)
    requires Quiet(s)
    ensures Render(s) != Render(CaptureBase(k))
  {
    QuietMarker(s);
    CaptureMarker(k);
  }

  /** Different tabs capture their base sessions in different lines. */
  lemma CaptureTextInjective(j: nat, k: nat)
    requires CaptureText(j) == CaptureText(k)
    ensures j == k
  {
    var head := Indent + "set t";
    var tail := "_p1 to (current session)";
    var a := NatToString(j);
    var b := NatToString(k);
    assert CaptureText(j) == head + a + tail;
    assert CaptureText(k) == head + b + tail;
    assert |a| == |b|;
    assert (head + a + tail)[|head|..|head| + |a|] == a;
    assert (head + b + tail)[|head|..|head| + |b|] == b;
    ParseNatToString(j);
    ParseNatToString(k);
  }

  /** Only the capture of tab `k`'s base session renders as its capture line. */
  lemma CaptureLineOnlyFromCapture(s: Stmt, k: nat)
    ensures Render(s) == CaptureText(k) <==> s == CaptureBase(k)
  {
    FixedMarkers();
    CaptureMarker(k);
    if Quiet(s) {
      QuietIsNotCapture(s, k);
    } else if s.CaptureBase? {
      if Render(s) == CaptureText(k) {
        CaptureTextInjective(s.tab, k);
      }
    }
  }

  /** The opening and closing lines have markers other than `c` and `s`, so none of them is
      a `create tab`, base capture or `select first tab` line. */
  lemma FrameMarkers()
    ensures forall j :: 0 <= j < |Header| ==> Marker(Header[j]) != 'c' && Marker(Header[j]) != 's'
    ensures forall j :: 0 <= j < |Trailer| ==> Marker(Trailer[j]) != 'c' && Marker(Trailer[j]) != 's'
  {
    assert Marker(Header[0]) == 'l';
    assert Marker(Header[1]) == 'v';
    assert Marker(Header[2]) == ' ';
    assert Marker(Header[3]) == 'r';
    assert Marker(Header[4]) == 't';
    assert Marker(Header[5]) == ' ';
    assert Marker(Header[6]) == ' ';
    assert Marker(Trailer[0]) == 't';
    assert Marker(Trailer[1]) == ' ';
  }

  /** The split line says `horizontally` exactly when the direction is `horizontal`; every
      other direction, unknown ones included, gives the `vertically` line. */
  lemma SplitTextDirection(k: nat, i: nat, dir: string)
    ensures SplitText(k, i, dir) == SplitText(k, i, "horizontal") <==> dir == "horizontal"
    ensures dir != "horizontal" ==> SplitText(k, i, dir) == SplitText(k, i, "vertical")
  {
    var head := Nested + "set " + Prefix(k) + "_p" + NatToString(i) + " to (split ";
    var tail := " with default profile)";
    assert SplitText(k, i, dir) == head + SplitVerb(dir) + tail;
    assert SplitText(k, i, "horizontal") == head + "horizontally" + tail;
  }

  /** When the lines `rs` match the statements `ss` one for one and `line` stands for `x`
      and nothing else, `line` occurs among the lines as often as `x` among the statements. */
  lemma {:induction false} CountMatched(ss: seq<Stmt>, rs: seq<string>, x: Stmt, line: string)
    requires |rs| == |ss|
    requires forall j :: 0 <= j < |ss| ==> (rs[j] == line <==> ss[j] == x)
    ensures Count(rs, line) == Count(ss, x)
  {
    if |ss| > 0 {
      CountMatched(ss[1..], rs[1..], x, line);
    }
  }

  // ---------------------------------------------------------------------------
  // What the `write text` lines type
  // ---------------------------------------------------------------------------

  /** Reads a `write text "..."` line back to the text it types, if it has that shape. */
  function DecodeWrite(line: string): Option<string> {
    if |line| > |WritePrefix| && line[..|WritePrefix|] == WritePrefix && line[|line| - 1] == '"'
    then Some(Unescape(line[|WritePrefix|..|line| - 1]))
    else None
  }

  /** A `write text` line types exactly the text it was built from, inside a literal its
      closing quote ends. */
  lemma DecodeWriteText(text: string)
    ensures DecodeWrite(WriteText(text)) == Some(text)
    ensures ClosedBody(WriteText(text)[|WritePrefix|..|WriteText(text)| - 1])
  {
    var w := WriteText(text);
    var e := Escape(text);
    assert w[..|WritePrefix|] == WritePrefix;
    assert w[|WritePrefix|..|w| - 1] == e;
  }

  /** Escaping plain text, a quote, a backslash and more plain text in front of the rest. */
  lemma EscapeTitleHead(p: string, m: string, rest: string)
    requires '\\' !in p && '"' !in p
    requires '\\' !in m && '"' !in m
    ensures Escape(p + (['"'] + (['\\'] + (m + rest)))) == p + (['\\', '"'] + (['\\', '\\'] + (m + Escape(rest))))
  {
    EscapePlainThen(m, rest);
    EscapeBackslashThen(m + rest);
    EscapeQuoteThen(['\\'] + (m + rest));
    EscapePlainThen(p, ['"'] + (['\\'] + (m + rest)));
  }

  /** Escaping the `printf` closing `\a"`. */
  lemma EscapeTitleTail()
    ensures Escape(['\\'] + (['a'] + ['"'])) == "\\\\a\\\""
  {
    EscapeQuoteThen([]);
    assert ['"'] + [] == ['"'];
    EscapeUnchanged([]);
    EscapePlainThen(['a'], ['"']);
    EscapeBackslashThen(['a'] + ['"']);
  }

  lemma TitleCommandPieces(name: string)
    ensures TitleCommand(name) == "printf " + (['"'] + (['\\'] + ("e]1;" + (name + (['\\'] + (['a'] + ['"']))))))
  {
  }

  lemma EscapedTitlePieces(e: string)
    ensures "printf " + (['\\', '"'] + (['\\', '\\'] + ("e]1;" + (e + TitleClose)))) == TitleOpen + e + TitleClose
  {
  }

  lemma EscapeNameThenTail(name: string)
    ensures Escape(name + (['\\'] + (['a'] + ['"']))) == Escape(name) + TitleClose
  {
    EscapeAppend(name, ['\\'] + (['a'] + ['"']));
    EscapeTitleTail();
  }

  lemma EscapeTitleCommand(name: string)
    ensures Escape(TitleCommand(name)) == TitleOpen + Escape(name) + TitleClose
  {
    var tail := ['\\'] + (['a'] + ['"']);
    TitleCommandPieces(name);
    EscapeTitleHead("printf ", "e]1;", name + tail);
    EscapeNameThenTail(name);
    EscapedTitlePieces(Escape(name));
  }

  /** The title line is the `write text` line of the command `printf "\e]1;<name>\a"`. */
  lemma TitleIsWrite(name: string)
    ensures TitleText(name) == WriteText(TitleCommand(name))
  {
    EscapeTitleCommand(name);
  }

  /** So the title line types that command with the name unaltered. */
  lemma DecodeTitle(name: string)
    ensures DecodeWrite(TitleText(name)) == Some(TitleCommand(name))
  {
    TitleIsWrite(name);
    DecodeWriteText(TitleCommand(name));
  }
}
