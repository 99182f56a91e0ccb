/**
 * frontend/src/components/PlayerScores.tsx: the leaderboard. Rows are sorted by
 * descending score with a stable sort (Array.prototype.sort is stable), ranked
 * from 1, and the viewer's own row is highlighted.
 */
module PlayerScores {
  import opened Wrappers
  import opened ClientModels
  import opened Seqs

  /** The sort comparator: positive when `b` belongs before `a`. */
  function Compare(a: ScoreUpdate, b: ScoreUpdate): (r: int)
    ensures r == 0 <==> a.score == b.score
    ensures r > 0 <==> a.score < b.score
    ensures -1 <= r <= 1
  {
    if a.score < b.score then 1
    else if a.score > b.score then -1
    else 0
  }

  /** The comparator is antisymmetric. */
  lemma CompareAntisymmetric(a: ScoreUpdate, b: ScoreUpdate)
    ensures Compare(a, b) == -Compare(b, a)
  {
  }

  /** Non-increasing in score. */
  predicate Descending(s: seq<ScoreUpdate>) {
    forall i, j :: 0 <= i < j < |s| ==> s[i].score >= s[j].score
  }

  /** The rows with score `k`, in their order in `s`. */
  function WithScore(s: seq<ScoreUpdate>, k: int): seq<ScoreUpdate> {
    if |s| == 0 then [] else Keep(s[0], k) + WithScore(s[1..], k)
  }

  /** `y` alone if it has score `k`, else nothing. */
  function Keep(y: ScoreUpdate, k: int): seq<ScoreUpdate> {
    if y.score == k then [y] else []
  }

  /** Places `x` before the first row it does not score below, keeping ties in arrival order. */
  function Insert(x: ScoreUpdate, r: seq<ScoreUpdate>): (s: seq<ScoreUpdate>)
    ensures |s| == |r| + 1
    ensures multiset(s) == multiset(r) + multiset{x}
  {
    if |r| == 0 then [x]
    else if x.score >= r[0].score then [x] + r
    else
      assert r == [r[0]] + r[1..];
      [r[0]] + Insert(x, r[1..])
  }

  /** Inserting into a descending list keeps it descending. */
  lemma {:induction false} InsertDescending(x: ScoreUpdate, r: seq<ScoreUpdate>)
    requires Descending(r)
    ensures Descending(Insert(x, r))
    decreases |r|
  {
    if |r| == 0 {
    } else if x.score >= r[0].score {
      ConsDescending(x, r);
    } else {
      InsertDescending(x, r[1..]);
      InsertBelow(x, r[1..], r[0].score);
      ConsDescending(r[0], Insert(x, r[1..]));
    }
  }

  /** A row scoring at least every row of a descending list can head it. */
  lemma ConsDescending(a: ScoreUpdate, t: seq<ScoreUpdate>)
    requires Descending(t)
    requires forall i :: 0 <= i < |t| ==> t[i].score <= a.score
    ensures Descending([a] + t)
  {
    var s := [a] + t;
    forall i, j | 0 <= i < j < |s|
      ensures s[i].score >= s[j].score
    {
      assert s[j] == t[j - 1];
      if i > 0 {
        assert s[i] == t[i - 1];
      }
    }
  }

  /** Inserting a row scoring at most `bound` into rows scoring at most `bound` keeps that bound. */
  lemma {:induction false} InsertBelow(x: ScoreUpdate, r: seq<ScoreUpdate>, bound: int)
    requires x.score <= bound
    requires forall i :: 0 <= i < |r| ==> r[i].score <= bound
    ensures forall i :: 0 <= i < |Insert(x, r)| ==> Insert(x, r)[i].score <= bound
    decreases |r|
  {
    if |r| > 0 && x.score < r[0].score {
      InsertBelow(x, r[1..], bound);
      var s := Insert(x, r);
      forall i | 0 <= i < |s|
        ensures s[i].score <= bound
      {
        if i > 0 {
          assert s[i] == Insert(x, r[1..])[i - 1];
        }
      }
    }
  }

  /** `sortedScores()`: the stable descending sort of the rows. */
  function Sorted(s: seq<ScoreUpdate>): (t: seq<ScoreUpdate>)
    ensures |t| == |s|
    ensures multiset(t) == multiset(s)
    ensures Descending(t)
  {
    if |s| == 0 then []
    else
      assert s == [s[0]] + s[1..];
      InsertDescending(s[0], Sorted(s[1..]));
      Insert(s[0], Sorted(s[1..]))
  }

  lemma {:induction false} WithScoreConcat(a: seq<ScoreUpdate>, b: seq<ScoreUpdate>, k: int)
    ensures WithScore(a + b, k) == WithScore(a, k) + WithScore(b, k)
    decreases |a|
  {
    if |a| == 0 {
      assert a + b == b;
    } else {
      assert (a + b)[1..] == a[1..] + b;
      WithScoreConcat(a[1..], b, k);
    }
  }

  /** Inserting keeps the relative order of equally scored rows, `x` ahead of its ties in `r`. */
  lemma {:induction false} InsertStable(x: ScoreUpdate, r: seq<ScoreUpdate>, k: int)
    ensures WithScore(Insert(x, r), k) == WithScore([x] + r, k)
    decreases |r|
  {
    WithScoreCons(x, r, k);
    if |r| > 0 && x.score < r[0].score {
      var head, tail := r[0], r[1..];
      InsertStable(x, tail, k);
      InsertPassing(x, r);
      WithScoreCons(head, Insert(x, tail), k);
      WithScoreCons(x, tail, k);
      var wx, wh, wt := Keep(x, k), Keep(head, k), WithScore(tail, k);
      assert wx == [] || wh == [];
      assert wh + (wx + wt) == wx + (wh + wt);
    }
  }

  /** A row that scores below the head goes somewhere after it. */
  lemma InsertPassing(x: ScoreUpdate, r: seq<ScoreUpdate>)
    requires |r| > 0 && x.score < r[0].score
    ensures Insert(x, r) == [r[0]] + Insert(x, r[1..])
  {
  }

  /** Selecting from a list with `y` in front. */
  lemma WithScoreCons(y: ScoreUpdate, t: seq<ScoreUpdate>, k: int)
    ensures WithScore([y] + t, k) == Keep(y, k) + WithScore(t, k)
  {
    assert ([y] + t)[1..] == t;
  }

  /** The sort is stable: rows of equal score keep their input order. */
  lemma {:induction false} SortedStable(s: seq<ScoreUpdate>, k: int)
    ensures WithScore(Sorted(s), k) == WithScore(s, k)
    decreases |s|
  {
    if |s| > 0 {
      SortedStable(s[1..], k);
      InsertStable(s[0], Sorted(s[1..]), k);
      WithScoreConcat([s[0]], Sorted(s[1..]), k);
      WithScoreConcat([s[0]], s[1..], k);
      assert s == [s[0]] + s[1..];
    }
  }

  /** One rendered list item. */
  datatype Row = Row(rank: nat, name: string, score: int, highlighted: bool)

  /** Whether a row belongs to the viewer: its `sessionId` equals the viewer's. */
  predicate Highlighted(player: ScoreUpdate, viewer: Option<string>) {
    viewer == Some(player.sessionId)
  }

  /** The rendered list: ranks 1..n over the sorted rows, the viewer's rows highlighted. */
  function Rows(scores: seq<ScoreUpdate>, viewer: Option<string>): (rows: seq<Row>)
    ensures |rows| == |scores|
    ensures forall i :: 0 <= i < |rows| ==> rows[i].rank == i + 1
    ensures forall i, j :: 0 <= i < j < |rows| ==> rows[i].score >= rows[j].score
    ensures forall i :: 0 <= i < |rows| ==>
      exists p :: p in scores && rows[i].name == p.name && rows[i].score == p.score
                  && (rows[i].highlighted <==> Highlighted(p, viewer))
    ensures forall i :: 0 <= i < |rows| ==>
      rows[i].name == Sorted(scores)[i].name && rows[i].score == Sorted(scores)[i].score
      && (rows[i].highlighted <==> Highlighted(Sorted(scores)[i], viewer))
  {
    var sorted := Sorted(scores);
    SortedFromInput(scores);
    seq(|sorted|, i requires 0 <= i < |sorted| =>
      Row(i + 1, sorted[i].name, sorted[i].score, Highlighted(sorted[i], viewer)))
  }

  /** Each row of the sorted list is one of the input rows. */
  lemma SortedFromInput(scores: seq<ScoreUpdate>)
    ensures forall i :: 0 <= i < |Sorted(scores)| ==> Sorted(scores)[i] in scores
  {
    var sorted := Sorted(scores);
    forall i | 0 <= i < |sorted|
      ensures sorted[i] in scores
    {
      assert sorted[i] in multiset(sorted);
    }
  }

  /** Every input row is rendered exactly as often as it occurs. */
  lemma RowsArePermutation(scores: seq<ScoreUpdate>, p: ScoreUpdate)
    ensures multiset(Sorted(scores))[p] == multiset(scores)[p]
  {
  }

  /** What a list item shows, leaving out its rank. */
  datatype Shown = Shown(name: string, score: int, highlighted: bool)

  function ShownRow(r: Row): Shown {
    Shown(r.name, r.score, r.highlighted)
  }

  /** What the viewer sees of one input row. */
  function ShowFor(viewer: Option<string>): ScoreUpdate -> Shown {
    (p: ScoreUpdate) => Shown(p.name, p.score, Highlighted(p, viewer))
  }

  /** Each input row is shown, with its own highlight, exactly as often as it occurs. */
  lemma RowsShowEachPlayerOnce(scores: seq<ScoreUpdate>, viewer: Option<string>)
    ensures multiset(MapSeq(ShownRow, Rows(scores, viewer))) == multiset(MapSeq(ShowFor(viewer), scores))
  {
    var sorted := Sorted(scores);
    assert MapSeq(ShownRow, Rows(scores, viewer)) == MapSeq(ShowFor(viewer), sorted);
    MapSeqMultiset(ShowFor(viewer), sorted, scores);
  }

  /** Sorting an already sorted leaderboard changes nothing. */
  lemma {:induction false} SortedIdempotent(s: seq<ScoreUpdate>)
    requires Descending(s)
    ensures Sorted(s) == s
    decreases |s|
  {
    if |s| > 0 {
      SortedIdempotent(s[1..]);
    }
  }

  /** The worked example: scores 5, 9, 9 display as 9, 9, 5 with the nines in arrival order. */
  lemma TiesKeepArrivalOrder()
    ensures Sorted([ScoreUpdate("A", 5, "a"), ScoreUpdate("B", 9, "b"), ScoreUpdate("C", 9, "c")])
         == [ScoreUpdate("B", 9, "b"), ScoreUpdate("C", 9, "c"), ScoreUpdate("A", 5, "a")]
  {
  }
}
