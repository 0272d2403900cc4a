/** `generate_applescript`: compiles a layout configuration into the AppleScript that
    drives iTerm2. The program opens one window, reuses its first tab for the tab at
    position 0, creates a new tab for every later non-empty tab, splits panes off
    previously captured sessions, and then types each pane's commands into it. */
module AppleScript {
  import opened Optional
  import opened Layout
  import opened Text
  import opened Escaping
  import opened PaneSetup
  import opened ScriptLines
  import opened StmtSeqs
  import opened Counting

  // ---------------------------------------------------------------------------
  // Split section
  // ---------------------------------------------------------------------------

  /** The five statements that split pane `i` off the pane its `split_from` names. */
  function SplitBlock(k: nat, i: nat, pane: Pane): seq<Stmt> {
    [Blank,
     SplitNote(SplitFrom(pane), SplitDir(pane), i),
     Tell(k, SplitFrom(pane)),
     SplitInto(k, i, SplitDir(pane)),
     EndTell]
  }

  /** A split block holds one `tell`, of the `split_from` pane, and one split, and nothing
      that creates a tab, captures a base session or selects a tab. */
  lemma SplitBlockKinds(k: nat, i: nat, pane: Pane)
    ensures AllQuiet(SplitBlock(k, i, pane))
    ensures Filter(SplitBlock(k, i, pane), IsSplit) == [SplitInto(k, i, SplitDir(pane))]
    ensures Filter(SplitBlock(k, i, pane), IsTell) == [Tell(k, SplitFrom(pane))]
  {
    var b := SplitBlock(k, i, pane);
    var t3 := [SplitInto(k, i, SplitDir(pane)), EndTell];
    var t2 := [Tell(k, SplitFrom(pane))] + t3;
    var t1 := [SplitNote(SplitFrom(pane), SplitDir(pane), i)] + t2;
    assert b == [Blank] + t1;
    assert t3 == [SplitInto(k, i, SplitDir(pane))] + [EndTell];
    assert [EndTell] == [EndTell] + [];
    FilterCons(EndTell, [], IsSplit);
    FilterCons(SplitInto(k, i, SplitDir(pane)), [EndTell], IsSplit);
    FilterCons(Tell(k, SplitFrom(pane)), t3, IsSplit);
    FilterCons(SplitNote(SplitFrom(pane), SplitDir(pane), i), t2, IsSplit);
    FilterCons(Blank, t1, IsSplit);
    FilterCons(EndTell, [], IsTell);
    FilterCons(SplitInto(k, i, SplitDir(pane)), [EndTell], IsTell);
    FilterCons(Tell(k, SplitFrom(pane)), t3, IsTell);
    FilterCons(SplitNote(SplitFrom(pane), SplitDir(pane), i), t2, IsTell);
    FilterCons(Blank, t1, IsTell);
  }

  /** The split blocks of a tab whose panes after the first are `others`: block `j` splits
      off pane `j + 2`. */
  function SplitBlocks(k: nat, others: seq<Pane>): seq<seq<Stmt>> {
    seq(|others|, j requires 0 <= j < |others| => SplitBlock(k, j + 2, others[j]))
  }

  /** The split section captures panes 2, 3, ... in order, each in the direction its pane
      asks for, and each split runs inside a `tell` of the pane its `split_from` names
      (which is not checked against the panes that exist). */
  lemma SplitSection(k: nat, others: seq<Pane>)
    ensures var r := Concat(SplitBlocks(k, others));
            && AllQuiet(r)
            && Filter(r, IsSplit)
               == seq(|others|, j requires 0 <= j < |others| => SplitInto(k, j + 2, SplitDir(others[j])))
            && Filter(r, IsTell)
               == seq(|others|, j requires 0 <= j < |others| => Tell(k, SplitFrom(others[j])))
  {
    var blocks := SplitBlocks(k, others);
    var splits := seq(|others|, j requires 0 <= j < |others| => SplitInto(k, j + 2, SplitDir(others[j])));
    var tells := seq(|others|, j requires 0 <= j < |others| => Tell(k, SplitFrom(others[j])));
    forall j | 0 <= j < |blocks|
      ensures AllQuiet(blocks[j])
      ensures Filter(blocks[j], IsSplit) == [splits[j]]
      ensures Filter(blocks[j], IsTell) == [tells[j]]
    {
      SplitBlockKinds(k, j + 2, others[j]);
    }
    ConcatQuiet(blocks);
    FilterConcatOne(blocks, IsSplit, splits);
    FilterConcatOne(blocks, IsTell, tells);
  }

  /** The split section is five statements per pane after the first. Pane `j + 2` is created
      by the statement at `5 * j + 3`, which sits between a `tell` of the pane its `split_from`
      names and the matching `end tell`. */
  lemma SplitSectionLayout(k: nat, others: seq<Pane>, j: nat)
    requires j < |others|
    ensures var r := Concat(SplitBlocks(k, others));
            var pane := others[j];
            && |r| == 5 * |others|
            && r[5 * j] == Blank
            && r[5 * j + 1] == SplitNote(SplitFrom(pane), SplitDir(pane), j + 2)
            && r[5 * j + 2] == Tell(k, SplitFrom(pane))
            && r[5 * j + 3] == SplitInto(k, j + 2, SplitDir(pane))
            && r[5 * j + 4] == EndTell
  {
    var blocks := SplitBlocks(k, others);
    assert forall i :: 0 <= i < |blocks| ==> |blocks[i]| == 5;
    var b := SplitBlock(k, j + 2, others[j]);
    assert blocks[j] == b;
    ConcatUniformLength(blocks, 5);
    ConcatUniformAt(blocks, 5, j, 0);
    ConcatUniformAt(blocks, 5, j, 1);
    ConcatUniformAt(blocks, 5, j, 2);
    ConcatUniformAt(blocks, 5, j, 3);
    ConcatUniformAt(blocks, 5, j, 4);
  }

  // ---------------------------------------------------------------------------
  // Command dispatch
  // ---------------------------------------------------------------------------

  /** The title pane `i` sets: the tab's name, on pane 1 only and only when the name is non-empty. */
  function PaneTitle(i: nat, tab: Tab): Option<string> {
    if i == 1 && TabName(tab) != "" then Some(TabName(tab)) else None
  }

  function Writes(texts: seq<string>): (r: seq<Stmt>)
    ensures |r| == |texts|
    ensures forall j :: 0 <= j < |texts| ==> r[j] == Write(texts[j])
  {
    seq(|texts|, j requires 0 <= j < |texts| => Write(texts[j]))
  }

  /** The `tell t<k>_p<i>` ... `end tell` block that sets the title, if any, and types `cmds`. */
  function PaneBlock(k: nat, i: nat, title: Option<string>, cmds: seq<string>): seq<Stmt> {
    [Tell(k, i)]
    + (if title.Some? then [SetTitle(title.value)] else [])
    + Writes(cmds)
    + [EndTell]
  }

  function TitleCount(title: Option<string>): nat {
    if title.Some? then 1 else 0
  }

  /** Pane `i`'s block opens with `tell t<k>_p<i>`, then the title if there is one, then one
      `write text` per command in order, and closes with `end tell`. */
  lemma PaneBlockLayout(k: nat, i: nat, title: Option<string>, cmds: seq<string>)
    ensures var r := PaneBlock(k, i, title, cmds);
            var t := TitleCount(title);
            && |r| == 2 + t + |cmds|
            && r[0] == Tell(k, i)
            && r[|r| - 1] == EndTell
            && (title.Some? ==> r[1] == SetTitle(title.value))
            && (forall j :: 1 + t <= j < 1 + t + |cmds| ==> r[j] == Write(cmds[j - 1 - t]))
  {
    var head := [Tell(k, i)] + (if title.Some? then [SetTitle(title.value)] else []);
    var writes := Writes(cmds);
    assert PaneBlock(k, i, title, cmds) == head + writes + [EndTell];
  }

  /** Every statement of a pane block is a `tell`, a title, a `write text` or an `end tell`. */
  predicate DispatchStmt(s: Stmt) {
    s.Tell? || s.SetTitle? || s.Write? || s.EndTell?
  }

  lemma PaneBlockStmts(k: nat, i: nat, title: Option<string>, cmds: seq<string>)
    ensures var r := PaneBlock(k, i, title, cmds);
            forall j :: 0 <= j < |r| ==> DispatchStmt(r[j])
  {
    var titleStmts := if title.Some? then [SetTitle(title.value)] else [];
    var writes := Writes(cmds);
    var r := [Tell(k, i)] + titleStmts + writes + [EndTell];
    assert r == PaneBlock(k, i, title, cmds);
    assert forall j :: 0 <= j < |writes| ==> writes[j].Write?;
  }

  /** A pane block holds no split and exactly one `tell`, its own. */
  lemma PaneBlockKinds(k: nat, i: nat, title: Option<string>, cmds: seq<string>)
    ensures var r := PaneBlock(k, i, title, cmds);
            && AllQuiet(r)
            && Filter(r, IsSplit) == []
            && Filter(r, IsTell) == [Tell(k, i)]
  {
    var r := PaneBlock(k, i, title, cmds);
    PaneBlockStmts(k, i, title, cmds);
    FilterNone(r, IsSplit);
    var rest := r[1..];
    assert r == [Tell(k, i)] + rest;
    FilterCons(Tell(k, i), rest, IsTell);
    forall j | 0 <= j < |rest|
      ensures !IsTell(rest[j])
    {
      PaneBlockLayout(k, i, title, cmds);
    }
    FilterNone(rest, IsTell);
  }

  /** One block per pane of the tab at position `k`: block `j` addresses pane `j + 1`,
      changes to its directory and types its commands, and pane 1 also sets the tab's title. */
  function DispatchBlocks(k: nat, tab: Tab, root: string, expand: string -> string): seq<seq<Stmt>> {
    var panes := Panes(tab);
    seq(|panes|, j requires 0 <= j < |panes| =>
          PaneBlock(k, j + 1, PaneTitle(j + 1, tab), PaneCommands(panes[j], tab, root, expand)))
  }

  /** The dispatch section addresses panes 1, 2, ... in order, one block each, and splits
      nothing. */
  lemma DispatchSection(k: nat, tab: Tab, root: string, expand: string -> string)
    ensures var r := Concat(DispatchBlocks(k, tab, root, expand));
            var n := |Panes(tab)|;
            && AllQuiet(r)
            && Filter(r, IsSplit) == []
            && Filter(r, IsTell) == seq(n, j requires 0 <= j < n => Tell(k, j + 1))
  {
    var panes := Panes(tab);
    var blocks := DispatchBlocks(k, tab, root, expand);
    var tells := seq(|panes|, j requires 0 <= j < |panes| => Tell(k, j + 1));
    forall j | 0 <= j < |blocks|
      ensures AllQuiet(blocks[j])
      ensures Filter(blocks[j], IsSplit) == []
      ensures Filter(blocks[j], IsTell) == [tells[j]]
    {
      PaneBlockKinds(k, j + 1, PaneTitle(j + 1, tab), PaneCommands(panes[j], tab, root, expand));
    }
    ConcatQuiet(blocks);
    FilterConcatNone(blocks, IsSplit);
    FilterConcatOne(blocks, IsTell, tells);
  }

  /** The only title statement of a pane block is its second one, and only if it has a title. */
  lemma PaneBlockTitleOnly(k: nat, i: nat, title: Option<string>, cmds: seq<string>)
    ensures var r := PaneBlock(k, i, title, cmds);
            forall m :: 0 <= m < |r| ==> (r[m].SetTitle? <==> title.Some? && m == 1)
  {
    var head := [Tell(k, i)] + (if title.Some? then [SetTitle(title.value)] else []);
    var writes := Writes(cmds);
    assert PaneBlock(k, i, title, cmds) == head + writes + [EndTell];
  }

  /** Pane `j + 1`'s block: `tell t<k>_p<j+1>`; the title line only for pane 1 of a tab
      with a non-empty name, and then before everything else; a `cd` into the directory
      the pane resolves to; the pane's commands, verbatim and in order; `end tell`. */
  lemma PaneDispatch(k: nat, tab: Tab, root: string, expand: string -> string, j: nat)
    requires j < |Panes(tab)|
    ensures var b := DispatchBlocks(k, tab, root, expand)[j];
            var pane := Panes(tab)[j];
            var cmds := Commands(pane);
            var t := if j == 0 && TabName(tab) != "" then 1 else 0;
            && |b| == 3 + t + |cmds|
            && b[0] == Tell(k, j + 1)
            && (forall m :: 0 <= m < |b| ==> (b[m].SetTitle? <==> t == 1 && m == 1))
            && (t == 1 ==> b[1] == SetTitle(TabName(tab)))
            && b[1 + t] == Write("cd " + ResolveDir(pane, tab, root, expand))
            && (forall m :: 2 + t <= m < |b| - 1 ==> b[m] == Write(cmds[m - 2 - t]))
            && b[|b| - 1] == EndTell
  {
    var pane := Panes(tab)[j];
    var title := PaneTitle(j + 1, tab);
    var pc := PaneCommands(pane, tab, root, expand);
    assert DispatchBlocks(k, tab, root, expand)[j] == PaneBlock(k, j + 1, title, pc);
    PaneDispatchBlock(k, j + 1, title, pc, Commands(pane));
    PaneBlockTitleOnly(k, j + 1, title, pc);
  }

  lemma PaneDispatchBlock(k: nat, i: nat, title: Option<string>, pc: seq<string>, cmds: seq<string>)
    requires |pc| == 1 + |cmds|
    requires forall m :: 1 <= m < |pc| ==> pc[m] == cmds[m - 1]
    ensures var b := PaneBlock(k, i, title, pc);
            var t := TitleCount(title);
            && |b| == 3 + t + |cmds|
            && b[0] == Tell(k, i)
            && (title.Some? ==> b[1] == SetTitle(title.value))
            && b[1 + t] == Write(pc[0])
            && (forall m :: 2 + t <= m < |b| - 1 ==> b[m] == Write(cmds[m - 2 - t]))
            && b[|b| - 1] == EndTell
  {
    PaneBlockLayout(k, i, title, pc);
  }

  // ---------------------------------------------------------------------------
  // One tab
  // ---------------------------------------------------------------------------

  /** The statements that open the tab at position `k`: for position 0 only a comment,
      since the window's own first tab is reused; otherwise a comment and `create tab`. */
  function TabIntro(k: nat, name: string): seq<Stmt> {
    if k == 0 then [Blank, FirstTabNote]
    else [Blank, NewTabNote(name), NewTab]
  }

  /** Everything a non-empty tab emits after capturing its base session: the split section,
      then the dispatch section. */
  function TabBody(k: nat, tab: Tab, root: string, expand: string -> string): seq<Stmt>
    requires |Panes(tab)| > 0
  {
    Concat(SplitBlocks(k, Panes(tab)[1..])) + [Blank, SendNote] + Concat(DispatchBlocks(k, tab, root, expand))
  }

  /** The statements of the tab at position `k`; a tab without panes emits nothing. */
  function TabStmts(k: nat, tab: Tab, root: string, expand: string -> string): seq<Stmt> {
    if |Panes(tab)| == 0 then []
    else TabIntro(k, TabName(tab)) + [CaptureBase(k)] + TabBody(k, tab, root, expand)
  }

  lemma TabBodyQuiet(k: nat, tab: Tab, root: string, expand: string -> string)
    requires |Panes(tab)| > 0
    ensures AllQuiet(TabBody(k, tab, root, expand))
  {
    SplitSection(k, Panes(tab)[1..]);
    DispatchSection(k, tab, root, expand);
  }

  lemma IntroCounts(k: nat, name: string, body: seq<Stmt>, j: nat)
    requires AllQuiet(body)
    ensures var r := TabIntro(k, name) + [CaptureBase(k)] + body;
            && Count(r, CaptureBase(j)) == (if j == k then 1 else 0)
            && Count(r, NewTab) == (if k != 0 then 1 else 0)
            && Count(r, SelectFirst) == 0
  {
    var head := TabIntro(k, name) + [CaptureBase(k)];
    QuietCounts(body, j);
    CountAppend(head, body, CaptureBase(j));
    CountAppend(head, body, NewTab);
    CountAppend(head, body, SelectFirst);
    CountIsMultiplicity(head, CaptureBase(j));
    CountIsMultiplicity(head, NewTab);
    CountIsMultiplicity(head, SelectFirst);
  }

  /** A non-empty tab at position `k` captures `t<k>_p1` exactly once and no other tab's
      base session, creates a new tab exactly once unless `k` is 0, and never selects the
      first tab. An empty tab emits nothing. */
  lemma TabStmtsCounts(k: nat, tab: Tab, root: string, expand: string -> string, j: nat)
    ensures var r := TabStmts(k, tab, root, expand);
            var n := |Panes(tab)|;
            && (n == 0 ==> r == [])
            && Count(r, CaptureBase(j)) == (if n > 0 && j == k then 1 else 0)
            && Count(r, NewTab) == (if n > 0 && k != 0 then 1 else 0)
            && Count(r, SelectFirst) == 0
  {
    if |Panes(tab)| > 0 {
      TabBodyQuiet(k, tab, root, expand);
      IntroCounts(k, TabName(tab), TabBody(k, tab, root, expand), j);
    }
  }

  /** Neither splits nor `tell`s occur before a tab's split section. */
  lemma FilterIntro(k: nat, name: string, body: seq<Stmt>, p: Stmt -> bool)
    requires !p(Blank) && !p(FirstTabNote) && !p(NewTabNote(name)) && !p(NewTab) && !p(CaptureBase(k))
    ensures Filter(TabIntro(k, name) + [CaptureBase(k)] + body, p) == Filter(body, p)
  {
    var head := TabIntro(k, name) + [CaptureBase(k)];
    FilterAppend(head, body, p);
    FilterNone(head, p);
  }

  /** The two lines announcing the dispatch section hold neither splits nor `tell`s. */
  lemma FilterBody(splits: seq<Stmt>, dispatch: seq<Stmt>, p: Stmt -> bool)
    requires !p(Blank) && !p(SendNote)
    ensures Filter(splits + [Blank, SendNote] + dispatch, p) == Filter(splits, p) + Filter(dispatch, p)
  {
    FilterAppend(splits + [Blank, SendNote], dispatch, p);
    FilterAppend(splits, [Blank, SendNote], p);
    assert [Blank, SendNote] == [Blank] + [SendNote];
    FilterCons(Blank, [SendNote], p);
    FilterCons(SendNote, [], p);
  }

  /** For a non-empty tab at position `k` with `M` panes: exactly `M - 1` splits, and pane
      `i` (2..M) is captured as `t<k>_p<i>` in its own direction. */
  lemma TabStmtsSplits(k: nat, tab: Tab, root: string, expand: string -> string)
    requires |Panes(tab)| > 0
    ensures var panes := Panes(tab);
            Filter(TabStmts(k, tab, root, expand), IsSplit)
            == seq(|panes| - 1, j requires 0 <= j < |panes| - 1 => SplitInto(k, j + 2, SplitDir(panes[j + 1])))
  {
    var panes := Panes(tab);
    var splits := Concat(SplitBlocks(k, panes[1..]));
    var dispatch := Concat(DispatchBlocks(k, tab, root, expand));
    FilterIntro(k, TabName(tab), TabBody(k, tab, root, expand), IsSplit);
    FilterBody(splits, dispatch, IsSplit);
    SplitSection(k, panes[1..]);
    DispatchSection(k, tab, root, expand);
  }

  /** For a non-empty tab at position `k` with `M` panes: the splits address the panes
      their `split_from` names, in order; then one `tell` block per pane, `t<k>_p1` ...
      `t<k>_p<M>`, in order. */
  lemma TabStmtsTells(k: nat, tab: Tab, root: string, expand: string -> string)
    requires |Panes(tab)| > 0
    ensures var panes := Panes(tab);
            Filter(TabStmts(k, tab, root, expand), IsTell)
            == seq(|panes| - 1, j requires 0 <= j < |panes| - 1 => Tell(k, SplitFrom(panes[j + 1])))
               + seq(|panes|, j requires 0 <= j < |panes| => Tell(k, j + 1))
  {
    var panes := Panes(tab);
    var splits := Concat(SplitBlocks(k, panes[1..]));
    var dispatch := Concat(DispatchBlocks(k, tab, root, expand));
    FilterIntro(k, TabName(tab), TabBody(k, tab, root, expand), IsTell);
    FilterBody(splits, dispatch, IsTell);
    SplitSection(k, panes[1..]);
    DispatchSection(k, tab, root, expand);
  }

  // ---------------------------------------------------------------------------
  // All tabs
  // ---------------------------------------------------------------------------

  /** The statements of each of `tabs`, the first of which sits at position `k`. */
  function TabBlocks(tabs: seq<Tab>, k: nat, root: string, expand: string -> string): seq<seq<Stmt>> {
    seq(|tabs|, j requires 0 <= j < |tabs| => TabStmts(k + j, tabs[j], root, expand))
  }

  function TabsStmts(tabs: seq<Tab>, k: nat, root: string, expand: string -> string): seq<Stmt> {
    Concat(TabBlocks(tabs, k, root, expand))
  }

  /** Whether the tab at position `k` gets a `create tab`: when it has panes and is not
      the window's first tab. */
  function Creates(k: nat, tab: Tab): nat {
    if |Panes(tab)| > 0 && k != 0 then 1 else 0
  }

  /** For each of `tabs`, the first at position `k`, whether it gets a `create tab`. */
  function CreatesEach(tabs: seq<Tab>, k: nat): seq<nat> {
    seq(|tabs|, j requires 0 <= j < |tabs| => Creates(k + j, tabs[j]))
  }

  /** How many of `tabs`, the first at position `k`, get a `create tab`. */
  function CreatedTabs(tabs: seq<Tab>, k: nat): nat {
    Sum(CreatesEach(tabs, k))
  }

  lemma TabBlockCounts(tabs: seq<Tab>, k: nat, root: string, expand: string -> string, i: nat, j: nat)
    requires i < |tabs|
    ensures var b := TabBlocks(tabs, k, root, expand)[i];
            && Count(b, NewTab) == Creates(k + i, tabs[i])
            && Count(b, CaptureBase(j)) == (if k + i == j && |Panes(tabs[i])| > 0 then 1 else 0)
            && Count(b, SelectFirst) == 0
  {
    assert TabBlocks(tabs, k, root, expand)[i] == TabStmts(k + i, tabs[i], root, expand);
    TabStmtsCounts(k + i, tabs[i], root, expand, j);
  }

  /** `create tab` appears once per non-empty tab not at position 0. */
  lemma TabsNewTabCount(tabs: seq<Tab>, k: nat, root: string, expand: string -> string)
    ensures Count(TabsStmts(tabs, k, root, expand), NewTab) == CreatedTabs(tabs, k)
  {
    var blocks := TabBlocks(tabs, k, root, expand);
    var counts := CreatesEach(tabs, k);
    forall i | 0 <= i < |blocks|
      ensures Count(blocks[i], NewTab) == counts[i]
    {
      TabBlockCounts(tabs, k, root, expand, i, 0);
    }
    ConcatCount(blocks, NewTab, counts);
  }

  /** The tab at position `j` captures its base session once if it has panes; no other
      tab captures it. */
  lemma TabsCaptureCount(tabs: seq<Tab>, k: nat, root: string, expand: string -> string, j: nat)
    ensures Count(TabsStmts(tabs, k, root, expand), CaptureBase(j))
            == (if k <= j < k + |tabs| && |Panes(tabs[j - k])| > 0 then 1 else 0)
  {
    var blocks := TabBlocks(tabs, k, root, expand);
    var counts := seq(|tabs|, i requires 0 <= i < |tabs| => if k + i == j && |Panes(tabs[i])| > 0 then 1 else 0);
    forall i | 0 <= i < |blocks|
      ensures Count(blocks[i], CaptureBase(j)) == counts[i]
    {
      TabBlockCounts(tabs, k, root, expand, i, j);
    }
    ConcatCount(blocks, CaptureBase(j), counts);
    SumOneHot(counts, j - k);
  }

  /** The tabs never select the first tab themselves. */
  lemma TabsSelectCount(tabs: seq<Tab>, k: nat, root: string, expand: string -> string)
    ensures Count(TabsStmts(tabs, k, root, expand), SelectFirst) == 0
  {
    var blocks := TabBlocks(tabs, k, root, expand);
    var counts := seq(|tabs|, i requires 0 <= i < |tabs| => 0);
    forall i | 0 <= i < |blocks|
      ensures Count(blocks[i], SelectFirst) == counts[i]
    {
      TabBlockCounts(tabs, k, root, expand, i, 0);
    }
    ConcatCount(blocks, SelectFirst, counts);
    SumOneHot(counts, -1);
  }

  /** A tab without panes contributes nothing, wherever it sits; the tabs after it keep
      their positions, so their variable names are unchanged. */
  lemma EmptyTabContributesNothing(before: seq<Tab>, empty: Tab, after: seq<Tab>, k: nat,
                                   root: string, expand: string -> string)
    requires |Panes(empty)| == 0
    ensures TabsStmts(before + [empty] + after, k, root, expand)
            == TabsStmts(before, k, root, expand) + TabsStmts(after, k + |before| + 1, root, expand)
  {
    var x := TabBlocks(before, k, root, expand);
    var y := TabBlocks(after, k + |before| + 1, root, expand);
    TabStmtsCounts(k + |before|, empty, root, expand, 0);
    assert TabBlocks(before + [empty] + after, k, root, expand) == x + [[]] + y;
    ConcatAppend(x + [[]], y);
    ConcatAppend(x, [[]]);
    assert Concat([[]]) == [];
    assert Concat(x) + [] == Concat(x);
  }

  // ---------------------------------------------------------------------------
  // The whole program
  // ---------------------------------------------------------------------------

  /** The statements inside `tell current window`: the tabs, then `select first tab` when
      the configuration lists more than one tab, counting empty ones. */
  function WindowStmts(c: Config, expand: string -> string): seq<Stmt> {
    TabsStmts(c.tabs, 0, Root(c), expand)
    + (if |c.tabs| > 1 then [Blank, SelectFirst] else [])
  }

  /** Inside the window: a `create tab` for each non-empty tab after position 0, one base
      capture for each non-empty tab, and one `select first tab` exactly when more than one
      tab is listed. */
  lemma WindowCounts(c: Config, expand: string -> string, j: nat)
    ensures var r := WindowStmts(c, expand);
            && Count(r, NewTab) == CreatedTabs(c.tabs, 0)
            && Count(r, CaptureBase(j)) == (if j < |c.tabs| && |Panes(c.tabs[j])| > 0 then 1 else 0)
            && Count(r, SelectFirst) == (if |c.tabs| > 1 then 1 else 0)
  {
    TabsNewTabCount(c.tabs, 0, Root(c), expand);
    TabsCaptureCount(c.tabs, 0, Root(c), expand, j);
    TabsSelectCount(c.tabs, 0, Root(c), expand);
    SelectTailCounts(TabsStmts(c.tabs, 0, Root(c), expand), |c.tabs| > 1, j);
  }

  lemma SelectTailCounts(ts: seq<Stmt>, many: bool, j: nat)
    ensures var r := ts + (if many then [Blank, SelectFirst] else []);
            && Count(r, NewTab) == Count(ts, NewTab)
            && Count(r, CaptureBase(j)) == Count(ts, CaptureBase(j))
            && Count(r, SelectFirst) == Count(ts, SelectFirst) + (if many then 1 else 0)
  {
    var tail := if many then [Blank, SelectFirst] else [];
    CountAppend(ts, tail, NewTab);
    CountAppend(ts, tail, CaptureBase(j));
    CountAppend(ts, tail, SelectFirst);
    CountIsMultiplicity(tail, NewTab);
    CountIsMultiplicity(tail, CaptureBase(j));
    CountIsMultiplicity(tail, SelectFirst);
  }

  /** The program's lines, in order. It opens with the header lines and closes with the
      trailer lines; in between are the window's statements, rendered one per line. */
  function Generate(c: Config, expand: string -> string): (r: seq<string>)
    ensures |r| == |Header| + |WindowStmts(c, expand)| + |Trailer|
    ensures r[..|Header|] == Header
    ensures r[|r| - |Trailer|..] == Trailer
    ensures r[|Header|..|r| - |Trailer|] == RenderAll(WindowStmts(c, expand))
  {
    var m := RenderAll(WindowStmts(c, expand));
    Framed(m);
    Header + m + Trailer
  }

  lemma Framed(m: seq<string>)
    ensures var r := Header + m + Trailer;
            && r[..|Header|] == Header
            && r[|r| - |Trailer|..] == Trailer
            && r[|Header|..|r| - |Trailer|] == m
  {
    var r := Header + m + Trailer;
    assert r[..|Header|] == Header;
    assert r[|r| - |Trailer|..] == Trailer;
    assert r[|Header|..|r| - |Trailer|] == m;
  }

  /** A line that no opening or closing line equals, and that only the statement `x`
      renders as, occurs in the program as often as `x` among the window's statements. */
  lemma GenerateCount(c: Config, expand: string -> string, x: Stmt, line: string)
    requires Marker(line) == 'c' || Marker(line) == 's'
    requires forall s :: Render(s) == line <==> s == x
    ensures Count(Generate(c, expand), line) == Count(WindowStmts(c, expand), x)
  {
    var w := WindowStmts(c, expand);
    var m := RenderAll(w);
    CountAppend(Header + m, Trailer, line);
    CountAppend(Header, m, line);
    FrameMarkers();
    CountAbsent(Header, line);
    CountAbsent(Trailer, line);
    CountMatched(w, m, x, line);
  }

  /** The program holds one `create tab` line per non-empty tab after position 0. */
  lemma CreateTabLines(c: Config, expand: string -> string)
    ensures Count(Generate(c, expand), CreateTabLine) == CreatedTabs(c.tabs, 0)
  {
    FixedMarkers();
    forall s | true
      ensures Render(s) == CreateTabLine <==> s == NewTab
    {
      CreateTabLineOnlyFromNewTab(s);
    }
    GenerateCount(c, expand, NewTab, CreateTabLine);
    WindowCounts(c, expand, 0);
  }

  /** `select first tab` appears exactly when the configuration lists more than one tab,
      empty ones included. */
  lemma SelectFirstLines(c: Config, expand: string -> string)
    ensures Count(Generate(c, expand), SelectFirstLine) == (if |c.tabs| > 1 then 1 else 0)
  {
    FixedMarkers();
    forall s | true
      ensures Render(s) == SelectFirstLine <==> s == SelectFirst
    {
      SelectFirstLineOnlyFromSelectFirst(s);
    }
    GenerateCount(c, expand, SelectFirst, SelectFirstLine);
    WindowCounts(c, expand, 0);
  }

  /** When it appears, `select first tab` is the last line before the closing ones. */
  lemma SelectFirstLast(c: Config, expand: string -> string)
    requires |c.tabs| > 1
    ensures var r := Generate(c, expand);
            r[|r| - |Trailer| - 1] == SelectFirstLine
  {
    var r := Generate(c, expand);
    var w := WindowStmts(c, expand);
    assert w[|w| - 1] == SelectFirst;
    assert r[|r| - |Trailer| - 1] == r[|Header|..|r| - |Trailer|][|w| - 1];
    assert RenderAll(w)[|w| - 1] == Render(SelectFirst);
  }

  /** The tab at position `k` captures its base session `t<k>_p1` in exactly one line if it
      has panes, and in none if it is empty or does not exist. */
  lemma CaptureLines(c: Config, expand: string -> string, k: nat)
    ensures Count(Generate(c, expand), CaptureText(k))
            == (if k < |c.tabs| && |Panes(c.tabs[k])| > 0 then 1 else 0)
  {
    CaptureMarker(k);
    forall s | true
      ensures Render(s) == CaptureText(k) <==> s == CaptureBase(k)
    {
      CaptureLineOnlyFromCapture(s, k);
    }
    GenerateCount(c, expand, CaptureBase(k), CaptureText(k));
    WindowCounts(c, expand, k);
  }

  /** When the first tab is empty, the second still gets a `create tab`: the window's own
      first tab is left unused, and the second tab's sessions are named `t1_...`. */
  lemma SkippedFirstTabStillCreatesTab(c: Config, expand: string -> string)
    requires |c.tabs| == 2 && |Panes(c.tabs[0])| == 0 && |Panes(c.tabs[1])| > 0
    ensures Count(Generate(c, expand), CreateTabLine) == 1
    ensures Count(Generate(c, expand), CaptureText(0)) == 0
    ensures Count(Generate(c, expand), CaptureText(1)) == 1
  {
    CreateTabLines(c, expand);
    CaptureLines(c, expand, 0);
    CaptureLines(c, expand, 1);
    assert CreatesEach(c.tabs, 0) == [0, 1];
    assert [0, 1][1..] == [1];
    assert Sum([1]) == 1;
  }

  /** `generate_applescript`'s result: the lines joined with newlines. When no line holds a
      newline, splitting the script at newlines gives back exactly those lines. */
  function Script(c: Config, expand: string -> string): (r: string)
    ensures (forall j :: 0 <= j < |Generate(c, expand)| ==> '\n' !in Generate(c, expand)[j]) ==>
              SplitLines(r) == Generate(c, expand)
  {
    var lines := Generate(c, expand);
    if forall j :: 0 <= j < |lines| ==> '\n' !in lines[j] then
      SplitJoin(lines);
      Join(lines)
    else
      Join(lines)
  }
}
