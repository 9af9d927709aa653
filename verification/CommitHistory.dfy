/** What a store tells after any number of commits and compactions, compared with its commits alone. */
module CommitHistory {
  import opened Graph
  import opened Neighbors
  import opened Compaction

  /** Elements `a` to `b`, newest first. */
  function Latest<T>(s: seq<T>, a: nat, b: nat): seq<T>
    requires b <= |s|
  {
    if b <= a then [] else [s[b - 1]] + Latest(s, a, b - 1)
  }

  lemma {:induction false} LatestLonger<T>(s: seq<T>, t: seq<T>, a: nat, b: nat)
    requires b <= |s| && s <= t
    ensures Latest(t, a, b) == Latest(s, a, b)
  {
    if a < b { LatestLonger(s, t, a, b - 1); }
  }

  lemma {:induction false} LatestSplit<T>(s: seq<T>, a: nat, m: nat, b: nat)
    requires a <= m <= b <= |s|
    ensures Latest(s, a, b) == Latest(s, m, b) + Latest(s, a, m)
  {
    if m < b {
      LatestSplit(s, a, m, b - 1);
    } else {
      assert [] + Latest(s, a, m) == Latest(s, a, m);
    }
  }

  /**
   * The edges the store began with, its committed runs oldest first, where each generation between two compactions
   * starts among them, and what each compaction folded.
   */
  datatype Chronicle = Chronicle(
    base: seq<multiset<EdgeKey>>,
    commits: seq<Run>,
    starts: seq<nat>,
    folds: seq<multiset<EdgeKey>>)
  {
    ghost predicate Valid() {
      && |starts| == |folds| + 1 && starts[0] == 0
      && (forall g :: 0 <= g < |starts| ==> starts[g] <= |commits|)
      && (forall g :: 0 <= g < |folds| ==> starts[g] <= starts[g + 1])
      && (forall g :: 0 <= g < |folds| ==> FoldedFrom(g))
    }

    /** Compaction `g` folded exactly the runs of its generation. */
    ghost predicate FoldedFrom(g: nat)
      requires g < |folds| && |starts| == |folds| + 1 && starts[g + 1] <= |commits|
    {
      forall e :: folds[g][e] == Folded(Generation(g), 0, e)
    }

    /** The runs of a finished generation. */
    ghost function Generation(g: nat): seq<Run>
      requires g < |folds| && |starts| == |folds| + 1 && starts[g + 1] <= |commits|
    {
      Latest(commits, starts[g], starts[g + 1])
    }

    /** The edges behind the segments of generation `g`. */
    ghost function Stored(g: nat): seq<multiset<EdgeKey>>
      requires g <= |folds|
    {
      if g == 0 then base else [folds[g - 1]] + Stored(g - 1)
    }

    /** Copies of `e` folded from compaction `c` up to `p`. */
    ghost function FoldedBetween(c: nat, p: nat, e: EdgeKey): nat
      requires p <= |folds|
    {
      if p <= c then 0 else folds[p - 1][e] + FoldedBetween(c, p - 1, e)
    }

    /** What the compactions before generation `g` changed for `e`, as far as `runs` on top do not hide it: older
        copies that resurfaced, less copies that their own run tombstoned. */
    ghost function Drift(g: nat, runs: seq<Run>, dir: Direction, e: EdgeKey): int
      requires Valid() && g <= |folds|
      decreases g
    {
      if g == 0 || HiddenBy(runs, |runs|, e) then 0
      else
        var folded := Generation(g - 1);
        (if HiddenBy(folded, |folded|, e) then Total(Stored(g - 1), e) else 0) - OwnHidden(folded, 0, dir, e)
        + Drift(g - 1, folded, dir, e)
    }
  }

  // ---- One sequence of runs on top of another ---------------------------------------------------

  lemma {:induction false} DeadOnTop(a: seq<Run>, b: seq<Run>, j: nat)
    requires j <= |b|
    ensures DeadNodes(a + b, |a| + j) == DeadNodes(a, |a|) + DeadNodes(b, j)
    ensures DeadEdges(a + b, |a| + j) == DeadEdges(a, |a|) + DeadEdges(b, j)
  {
    if j == 0 {
      DeadFront(a, b, |a|);
    } else {
      DeadOnTop(a, b, j - 1);
      assert (a + b)[|a| + j - 1] == b[j - 1];
    }
  }

  lemma {:induction false} DeadFront(a: seq<Run>, b: seq<Run>, i: nat)
    requires i <= |a|
    ensures DeadNodes(a + b, i) == DeadNodes(a, i) && DeadEdges(a + b, i) == DeadEdges(a, i)
  {
    if i != 0 {
      DeadFront(a, b, i - 1);
      assert (a + b)[i - 1] == a[i - 1];
    }
  }

  lemma HiddenOnTop(a: seq<Run>, b: seq<Run>, j: nat, e: EdgeKey)
    requires j <= |b|
    ensures HiddenBy(a + b, |a| + j, e) <==> HiddenBy(a, |a|, e) || HiddenBy(b, j, e)
  {
    DeadOnTop(a, b, j);
  }

  lemma {:induction false} BelowShows(a: seq<Run>, b: seq<Run>, j: nat, dir: Direction, e: EdgeKey)
    requires j <= |b|
    ensures RunsShow(a + b, |a| + j, dir, e) == if HiddenBy(a, |a|, e) then 0 else RunsShow(b, j, dir, e)
    decreases |b| - j
  {
    hide HiddenBy;
    if j < |b| {
      BelowShows(a, b, j + 1, dir, e);
      HiddenOnTop(a, b, j, e);
      assert (a + b)[|a| + j] == b[j];
    }
  }

  lemma {:induction false} OnTopShows(a: seq<Run>, b: seq<Run>, i: nat, dir: Direction, e: EdgeKey)
    requires i <= |a|
    ensures RunsShow(a + b, i, dir, e) == RunsShow(a, i, dir, e) + if HiddenBy(a, |a|, e) then 0 else RunsShow(b, 0, dir, e)
    decreases |a| - i
  {
    hide HiddenBy;
    if i == |a| {
      BelowShows(a, b, 0, dir, e);
    } else {
      OnTopShows(a, b, i + 1, dir, e);
      HiddenInFront(a, b, i, e);
      assert (a + b)[i] == a[i];
    }
  }

  lemma HiddenInFront(a: seq<Run>, b: seq<Run>, i: nat, e: EdgeKey)
    requires i <= |a|
    ensures HiddenBy(a + b, i, e) <==> HiddenBy(a, i, e)
  {
    DeadFront(a, b, i);
  }

  /** Newer runs show their own edges, and let through what is below unless they hide it. */
  lemma ShownOnTop(a: seq<Run>, b: seq<Run>, stored: seq<multiset<EdgeKey>>, dir: Direction, e: EdgeKey)
    ensures Shown(a + b, stored, dir, e) == RunsShow(a, 0, dir, e) + if HiddenBy(a, |a|, e) then 0 else Shown(b, stored, dir, e)
  {
    hide HiddenBy, RunsShow;
    OnTopShows(a, b, 0, dir, e);
    HiddenOnTop(a, b, |b|, e);
  }

  // ---- The store against its commits ------------------------------------------------------------------

  /**
   * What a store shows after any commits and compactions is what its commits alone would show over the edges it
   * began with, changed by exactly the drift.
   */
  lemma {:induction false} ToldByCommits(h: Chronicle, g: nat, runs: seq<Run>, dir: Direction, e: EdgeKey)
    requires h.Valid() && g <= |h.folds|
    ensures Shown(runs, h.Stored(g), dir, e)
         == Shown(runs + Latest(h.commits, 0, h.starts[g]), h.base, dir, e) + h.Drift(g, runs, dir, e)
    decreases g
  {
    hide Shown, HiddenBy, RunsShow, OwnHidden;
    if g == 0 {
      assert runs + [] == runs;
    } else {
      var folded, older := h.Generation(g - 1), Latest(h.commits, 0, h.starts[g - 1]);
      assert Latest(h.commits, 0, h.starts[g]) == folded + older by { LatestSplit(h.commits, 0, h.starts[g - 1], h.starts[g]); }
      ToldByCommits(h, g - 1, folded, dir, e);
      CompactedBelow(h, g, dir, e);
      NothingOnTop(runs, h.Stored(g), dir, e);
      ShownOnTop(runs, folded + older, h.base, dir, e);
    }
  }

  lemma NothingOnTop(runs: seq<Run>, stored: seq<multiset<EdgeKey>>, dir: Direction, e: EdgeKey)
    ensures Shown(runs, stored, dir, e) == RunsShow(runs, 0, dir, e) + if HiddenBy(runs, |runs|, e) then 0 else Shown([], stored, dir, e)
  {
    hide Shown, HiddenBy, RunsShow;
    assert runs + [] == runs;
    ShownOnTop(runs, [], stored, dir, e);
  }

  lemma CompactedBelow(h: Chronicle, g: nat, dir: Direction, e: EdgeKey)
    requires h.Valid() && 0 < g <= |h.folds|
    ensures var folded := h.Generation(g - 1);
            Shown([], h.Stored(g), dir, e) + OwnHidden(folded, 0, dir, e)
            == Shown(folded, h.Stored(g - 1), dir, e) + if HiddenBy(folded, |folded|, e) then Total(h.Stored(g - 1), e) else 0
  {
    hide Shown, HiddenBy, OwnHidden, Folded;
    assert h.FoldedFrom(g - 1);
    CompactionLaw(h.Generation(g - 1), h.Stored(g - 1), h.folds[g - 1], dir, e);
  }

  /** Clean commits whose compactions hid nothing older leave no drift: the store tells its commits. */
  ghost predicate Harmless(h: Chronicle, e: EdgeKey)
    requires h.Valid()
  {
    && Clean(h.commits)
    && forall g :: 0 <= g < |h.folds| ==> (HiddenBy(h.Generation(g), |h.Generation(g)|, e) ==> Total(h.Stored(g), e) == 0)
  }

  lemma {:induction false} CleanSlice(runs: seq<Run>, a: nat, b: nat)
    requires Clean(runs) && b <= |runs|
    ensures Clean(Latest(runs, a, b))
  {
    hide Run.EdgeClean, Run.NodeClean;
    if a < b { CleanSlice(runs, a, b - 1); }
  }

  lemma {:induction false} NoDrift(h: Chronicle, g: nat, runs: seq<Run>, dir: Direction, e: EdgeKey)
    requires h.Valid() && g <= |h.folds| && Harmless(h, e)
    ensures h.Drift(g, runs, dir, e) == 0
    decreases g
  {
    hide HiddenBy, OwnHidden, Clean, Total;
    if g > 0 {
      CleanSlice(h.commits, h.starts[g - 1], h.starts[g]);
      CleanHidesNothing(h.Generation(g - 1), 0, dir, e);
      NoDrift(h, g - 1, h.Generation(g - 1), dir, e);
    }
  }

  // ---- Segments of a later generation ---------------------------------------------------------------------

  lemma {:induction false} StoredGrows(h: Chronicle, c: nat, p: nat, e: EdgeKey)
    requires c <= p <= |h.folds|
    ensures Total(h.Stored(p), e) == Total(h.Stored(c), e) + h.FoldedBetween(c, p, e)
  {
    if c < p {
      StoredGrows(h, c, p - 1, e);
      assert h.Stored(p)[1..] == h.Stored(p - 1);
    }
  }

  /** Runs over the segments of a later generation show, besides, what was folded between, unless they hide it. */
  lemma LaterSegments(h: Chronicle, c: nat, p: nat, runs: seq<Run>, dir: Direction, e: EdgeKey)
    requires c <= p <= |h.folds|
    ensures Shown(runs, h.Stored(p), dir, e)
         == Shown(runs, h.Stored(c), dir, e) + if HiddenBy(runs, |runs|, e) then 0 else h.FoldedBetween(c, p, e)
  {
    hide HiddenBy, RunsShow, Total;
    StoredGrows(h, c, p, e);
  }
}
