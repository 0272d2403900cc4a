/** The parsed layout configuration: a root directory and an ordered list of tabs,
    each holding an ordered list of panes. Every optional key is an `Option`;
    `None` means the key is absent from the configuration mapping. */
module Layout {
  import opened Optional

  datatype Pane = Pane(
    dir: Option<string>,
    commands: Option<seq<string>>,
    split: Option<string>,
    splitFrom: Option<int>)

  datatype Tab = Tab(
    name: Option<string>,
    dir: Option<string>,
    panes: Option<seq<Pane>>)

  datatype Config = Config(
    root: Option<string>,
    tabs: seq<Tab>)

  /** The working directory every pane falls back to: `root`, defaulting to `~`. */
  function Root(c: Config): string {
    c.root.GetOr("~")
  }

  /** The tab's label, defaulting to the empty string. */
  function TabName(t: Tab): string {
    t.name.GetOr("")
  }

  /** The tab's panes, defaulting to none. */
  function Panes(t: Tab): seq<Pane> {
    t.panes.GetOr([])
  }

  /** The pane's user commands, defaulting to none. */
  function Commands(p: Pane): seq<string> {
    p.commands.GetOr([])
  }

  /** The requested split direction, defaulting to `vertical`; any text is accepted. */
  function SplitDir(p: Pane): string {
    p.split.GetOr("vertical")
  }

  /** The 1-based index of the pane to split from, defaulting to 1; never range-checked. */
  function SplitFrom(p: Pane): int {
    p.splitFrom.GetOr(1)
  }
}
