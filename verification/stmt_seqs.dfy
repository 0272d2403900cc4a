/** Sequences of statements: picking statements out by kind, laying blocks end to end,
    and counting. */
module StmtSeqs {
  import opened ScriptLines
  import opened Counting

  /** The statements of `s` that satisfy `p`, in order. */
  function Filter(s: seq<Stmt>, p: Stmt -> bool): seq<Stmt> {
    if |s| == 0 then [] else (if p(s[0]) then [s[0]] else []) + Filter(s[1..], p)
  }

  lemma {:induction false} FilterAppend(a: seq<Stmt>, b: seq<Stmt>, p: Stmt -> bool)
    ensures Filter(a + b, p) == Filter(a, p) + Filter(b, p)
  {
    if |a| == 0 {
      assert a + b == b;
    } else {
      var h := if p(a[0]) then [a[0]] else [];
      assert (a + b)[0] == a[0];
      assert (a + b)[1..] == a[1..] + b;
      FilterAppend(a[1..], b, p);
      calc {
        Filter(a + b, p);
        h + Filter(a[1..] + b, p);
        h + (Filter(a[1..], p) + Filter(b, p));
        (h + Filter(a[1..], p)) + Filter(b, p);
      }
    }
  }

  lemma FilterCons(x: Stmt, rest: seq<Stmt>, p: Stmt -> bool)
    ensures Filter([x] + rest, p) == (if p(x) then [x] else []) + Filter(rest, p)
  {
    assert ([x] + rest)[1..] == rest;
  }

  lemma {:induction false} FilterNone(s: seq<Stmt>, p: Stmt -> bool)
    requires forall j :: 0 <= j < |s| ==> !p(s[j])
    ensures Filter(s, p) == []
  {
    if |s| > 0 {
      FilterNone(s[1..], p);
    }
  }

  predicate IsSplit(s: Stmt) {
    s.SplitInto?
  }

  predicate IsTell(s: Stmt) {
    s.Tell?
  }

  /** The blocks laid end to end. */
  function Concat(blocks: seq<seq<Stmt>>): seq<Stmt> {
    if |blocks| == 0 then [] else blocks[0] + Concat(blocks[1..])
  }

  lemma {:induction false} ConcatAppend(x: seq<seq<Stmt>>, y: seq<seq<Stmt>>)
    ensures Concat(x + y) == Concat(x) + Concat(y)
  {
    if |x| == 0 {
      assert x + y == y;
    } else {
      assert (x + y)[0] == x[0];
      assert (x + y)[1..] == x[1..] + y;
      ConcatAppend(x[1..], y);
    }
  }

  lemma ConcatCons(x: seq<Stmt>, rest: seq<seq<Stmt>>)
    ensures Concat([x] + rest) == x + Concat(rest)
  {
    assert ([x] + rest)[1..] == rest;
  }

  /** Blocks of one common length `n` laid end to end are `n` times as long as there are blocks. */
  lemma {:induction false} ConcatUniformLength(blocks: seq<seq<Stmt>>, n: nat)
    requires forall i :: 0 <= i < |blocks| ==> |blocks[i]| == n
    ensures |Concat(blocks)| == n * |blocks|
  {
    if |blocks| > 0 {
      ConcatUniformLength(blocks[1..], n);
    }
  }

  /** In blocks of one common length `n` laid end to end, statement `m` of block `j` sits at
      position `n * j + m`. */
  lemma {:induction false} ConcatUniformAt(blocks: seq<seq<Stmt>>, n: nat, j: nat, m: nat)
    requires forall i :: 0 <= i < |blocks| ==> |blocks[i]| == n
    requires j < |blocks| && m < n
    ensures n * j + m < |Concat(blocks)|
    ensures Concat(blocks)[n * j + m] == blocks[j][m]
  {
    ConcatUniformLength(blocks, n);
    if j > 0 {
      ConcatUniformAt(blocks[1..], n, j - 1, m);
      assert n * j + m == n + (n * (j - 1) + m);
    }
  }

  /** When block `i` holds exactly one statement of kind `p`, namely `picks[i]`, the
      statements of kind `p` in all blocks are `picks`, in block order. */
  lemma {:induction false} FilterConcatOne(blocks: seq<seq<Stmt>>, p: Stmt -> bool, picks: seq<Stmt>)
    requires |picks| == |blocks|
    requires forall i :: 0 <= i < |blocks| ==> Filter(blocks[i], p) == [picks[i]]
    ensures Filter(Concat(blocks), p) == picks
  {
    if |blocks| > 0 {
      FilterAppend(blocks[0], Concat(blocks[1..]), p);
      FilterConcatOne(blocks[1..], p, picks[1..]);
      assert picks == [picks[0]] + picks[1..];
    }
  }

  /** When no block holds a statement of kind `p`, neither do all of them together. */
  lemma {:induction false} FilterConcatNone(blocks: seq<seq<Stmt>>, p: Stmt -> bool)
    requires forall i :: 0 <= i < |blocks| ==> Filter(blocks[i], p) == []
    ensures Filter(Concat(blocks), p) == []
  {
    if |blocks| > 0 {
      FilterAppend(blocks[0], Concat(blocks[1..]), p);
      FilterConcatNone(blocks[1..], p);
    }
  }

  function Sum(xs: seq<nat>): nat {
    if |xs| == 0 then 0 else xs[0] + Sum(xs[1..])
  }

  /** A sum whose terms are zero except perhaps the one at `m`. */
  lemma {:induction false} SumOneHot(xs: seq<nat>, m: int)
    requires forall i :: 0 <= i < |xs| && i != m ==> xs[i] == 0
    ensures Sum(xs) == if 0 <= m < |xs| then xs[m] else 0
  {
    if |xs| > 0 {
      SumOneHot(xs[1..], m - 1);
    }
  }

  /** `x` occurs in all blocks together as often as in each block, summed. */
  lemma {:induction false} ConcatCount(blocks: seq<seq<Stmt>>, x: Stmt, counts: seq<nat>)
    requires |counts| == |blocks|
    requires forall i :: 0 <= i < |blocks| ==> Count(blocks[i], x) == counts[i]
    ensures Count(Concat(blocks), x) == Sum(counts)
  {
    if |blocks| > 0 {
      CountAppend(blocks[0], Concat(blocks[1..]), x);
      ConcatCount(blocks[1..], x, counts[1..]);
    }
  }

  /** No statement in `ss` creates a tab, captures a base session or selects the first tab. */
  predicate AllQuiet(ss: seq<Stmt>) {
    forall j :: 0 <= j < |ss| ==> Quiet(ss[j])
  }

  lemma {:induction false} ConcatQuiet(blocks: seq<seq<Stmt>>)
    requires forall i :: 0 <= i < |blocks| ==> AllQuiet(blocks[i])
    ensures AllQuiet(Concat(blocks))
  {
    if |blocks| > 0 {
      ConcatQuiet(blocks[1..]);
      var r := blocks[0] + Concat(blocks[1..]);
      assert forall j :: |blocks[0]| <= j < |r| ==> r[j] == Concat(blocks[1..])[j - |blocks[0]|];
    }
  }

  /** Quiet statements contribute nothing to the counts of the loud ones. */
  lemma {:induction false} QuietCounts(ss: seq<Stmt>, k: nat)
    requires AllQuiet(ss)
    ensures Count(ss, NewTab) == 0
    ensures Count(ss, SelectFirst) == 0
    ensures Count(ss, CaptureBase(k)) == 0
  {
    if |ss| > 0 {
      QuietCounts(ss[1..], k);
    }
  }
}
