/** Per-pane preparation: which working directory a pane starts in, and the list of
    shell commands it is sent (a `cd` first, then the user's commands). */
module PaneSetup {
  import opened Optional
  import opened Layout

  /** Python truthiness of an optional string: present and non-empty. */
  predicate Truthy(v: Option<string>) {
    v.Some? && v.value != ""
  }

  /** The directory before home expansion: `pane.dir or tab.dir or root or "~"`. */
  function RawDir(pane: Pane, tab: Tab, root: string): (d: string)
    ensures d != ""
    ensures d == "~" || (Truthy(pane.dir) && d == pane.dir.value)
                     || (Truthy(tab.dir) && d == tab.dir.value) || d == root
  {
    if Truthy(pane.dir) then pane.dir.value
    else if Truthy(tab.dir) then tab.dir.value
    else if root != "" then root
    else "~"
  }

  predicate NoneTruthyBefore(layers: seq<Option<string>>, i: nat)
    requires i <= |layers|
  {
    forall j :: 0 <= j < i ==> !Truthy(layers[j])
  }

  /** Reference definition: the value of the first truthy layer, or `fallback` when none is. */
  function FirstTruthy(layers: seq<Option<string>>, fallback: string): (d: string)
    ensures (forall i :: 0 <= i < |layers| ==> !Truthy(layers[i])) ==> d == fallback
    ensures forall i :: 0 <= i < |layers| && Truthy(layers[i]) && NoneTruthyBefore(layers, i) ==>
              d == layers[i].value
  {
    if |layers| == 0 then fallback
    else if Truthy(layers[0]) then layers[0].value
    else FirstTruthy(layers[1..], fallback)
  }

  /** The directory is the first truthy one of pane, tab and root, in that order, else home. */
  lemma RawDirIsFirstTruthy(pane: Pane, tab: Tab, root: string)
    ensures RawDir(pane, tab, root) == FirstTruthy([pane.dir, tab.dir, Some(root)], "~")
  {
    var layers := [pane.dir, tab.dir, Some(root)];
    if !Truthy(pane.dir) && !Truthy(tab.dir) && root != "" {
      assert Truthy(layers[2]);
    }
  }

  lemma PaneDirWins(pane: Pane, tab: Tab, root: string)
    requires pane.dir.Some? && pane.dir.value != ""
    ensures RawDir(pane, tab, root) == pane.dir.value
  {
  }

  lemma TabDirWhenPaneDirBlank(pane: Pane, tab: Tab, root: string)
    requires pane.dir.None? || pane.dir.value == ""
    requires tab.dir.Some? && tab.dir.value != ""
    ensures RawDir(pane, tab, root) == tab.dir.value
  {
  }

  lemma RootWhenPaneAndTabDirBlank(pane: Pane, tab: Tab, root: string)
    requires pane.dir.None? || pane.dir.value == ""
    requires tab.dir.None? || tab.dir.value == ""
    requires root != ""
    ensures RawDir(pane, tab, root) == root
  {
  }

  lemma HomeWhenAllBlank(pane: Pane, tab: Tab, root: string)
    requires pane.dir.None? || pane.dir.value == ""
    requires tab.dir.None? || tab.dir.value == ""
    requires root == ""
    ensures RawDir(pane, tab, root) == "~"
  {
  }

  /** `resolve_dir`: the first non-empty of pane `dir`, tab `dir` and root, else `~`, after
      home expansion, which is left uninterpreted. */
  function ResolveDir(pane: Pane, tab: Tab, root: string, expand: string -> string): (r: string)
    ensures r == expand(FirstTruthy([pane.dir, tab.dir, Some(root)], "~"))
  {
    RawDirIsFirstTruthy(pane, tab, root);
    expand(RawDir(pane, tab, root))
  }

  /** `build_pane_commands`: a `cd` into the resolved directory, then the pane's commands verbatim. */
  function PaneCommands(pane: Pane, tab: Tab, root: string, expand: string -> string): (r: seq<string>)
    ensures |r| == 1 + |Commands(pane)|
    ensures r[0] == "cd " + ResolveDir(pane, tab, root, expand)
    ensures forall j :: 1 <= j < |r| ==> r[j] == Commands(pane)[j - 1]
  {
    ["cd " + ResolveDir(pane, tab, root, expand)] + Commands(pane)
  }
}
