/**
 * The order of the steps in a run. Link integrity alone does not make a run a
 * list: a step whose forward and backward links both name itself is
 * well-formed, has no run head and never shows in the menu. A ranking of the
 * steps along the forward links rules such cycles out; the panel's handlers
 * keep a ranked collection ranked, and in a ranked collection every step
 * reaches, by backward links, a head of its tutorial listed in the menu.
 */
module RunOrder {
  import opened Wrappers
  import opened TutorialModel
  import opened LinkModel

  /** `rank` numbers the steps so that every forward link goes to a larger
      number. */
  predicate Ranked(ts: seq<Tutorial>, rank: seq<nat>) {
    && |rank| == |ts|
    && forall i, j :: 0 <= i < |ts| && 0 <= j < |ts| && ts[i].nextSection == Some(ts[j].slug) ==>
         rank[i] < rank[j]
  }

  /** No run of forward links returns to a step it has left. */
  ghost predicate Acyclic(ts: seq<Tutorial>) {
    exists rank :: Ranked(ts, rank)
  }

  /** A step linked to itself in both directions is well-formed but forms a
      run without a head: it is missing from the menu. */
  lemma SelfLinkedStepIsUnlisted()
    ensures var t := Tutorial("a", "t", "", "", "", "", false, None, "en", "a",
                              true, Some("a"), true, Some("a"), []);
      && WellFormed([t])
      && MenuHeads([t]) == []
      && !Acyclic([t])
  {
    var t := Tutorial("a", "t", "", "", "", "", false, None, "en", "a",
                      true, Some("a"), true, Some("a"), []);
    assert Slugs([t]) == {"a"} by { SlugsCons([t]); }
    assert !IsRunHead(t);
    forall rank ensures !Ranked([t], rank) {
      if |rank| == 1 {
        assert [t][0].nextSection == Some([t][0].slug);
      }
    }
  }

  /** The ranking after "Add before": old steps move to even numbers, the new
      step sits just below the anchor. */
  function BeforeRank(ts: seq<Tutorial>, rank: seq<nat>, anchor: nat): (r: seq<nat>)
    requires |rank| == |ts| && anchor < |ts|
    ensures |r| == |ts| + 1
    ensures forall k :: 0 <= k < |ts| ==> r[k] == 2 * rank[k] + 2
    ensures r[|ts|] == 2 * rank[anchor] + 1
  {
    seq(|ts| + 1, k requires 0 <= k <= |ts| => if k < |ts| then 2 * rank[k] + 2 else 2 * rank[anchor] + 1)
  }

  /** The ranking after "Add after": the new step sits just above the anchor. */
  function AfterRank(ts: seq<Tutorial>, rank: seq<nat>, anchor: nat): (r: seq<nat>)
    requires |rank| == |ts| && anchor < |ts|
    ensures |r| == |ts| + 1
    ensures forall k :: 0 <= k < |ts| ==> r[k] == 2 * rank[k] + 2
    ensures r[|ts|] == 2 * rank[anchor] + 3
  {
    seq(|ts| + 1, k requires 0 <= k <= |ts| => if k < |ts| then 2 * rank[k] + 2 else 2 * rank[anchor] + 3)
  }

  /** The ranking after "Delete": the anchor's number is dropped. */
  function DeleteRank(ts: seq<Tutorial>, rank: seq<nat>, anchor: nat): (r: seq<nat>)
    requires |rank| == |ts| && anchor < |ts|
    ensures |r| == |ts| - 1
    ensures forall k :: 0 <= k < |ts| - 1 ==> r[k] == rank[Before(anchor, k)]
  {
    rank[..anchor] + rank[anchor + 1..]
  }

  /** A fresh key is not the target of any old link. */
  lemma FreshKeyUnlinked(ts: seq<Tutorial>, key: string, i: nat)
    requires WellFormed(ts) && key !in Slugs(ts) && i < |ts|
    ensures ts[i].nextSection != Some(key) && ts[i].prevSection != Some(key)
  {
  }

  /** One forward link after "Add before" rises in `BeforeRank`. */
  lemma BeforeEdgeRises(ts: seq<Tutorial>, rank: seq<nat>, anchor: nat, i: nat, j: nat)
    requires WellFormed(ts) && Ranked(ts, rank) && anchor < |ts|
    requires NewStepKey(ts, anchor) !in Slugs(ts)
    requires i <= |ts| && j <= |ts|
    requires AddBefore(ts, anchor)[i].nextSection == Some(AddBefore(ts, anchor)[j].slug)
    ensures BeforeRank(ts, rank, anchor)[i] < BeforeRank(ts, rank, anchor)[j]
  {
    var r := AddBefore(ts, anchor);
    var key := NewStepKey(ts, anchor);
    PredecessorFound(ts, anchor);
    if i < |ts| {
      AddBeforeLinks(ts, anchor, i);
      FreshKeyUnlinked(ts, key, i);
      if j < |ts| {
        assert r[j].slug == ts[j].slug;
        assert ts[j].slug in Slugs(ts);
        assert ts[i].nextSection == Some(ts[j].slug);
      } else {
        assert Predecessor(ts, anchor) == Some(i);
        assert ts[i].nextSection == Some(ts[anchor].slug);
      }
    } else {
      assert r[i].nextSection == Some(ts[anchor].slug);
      assert ts[anchor].slug in Slugs(ts);
      if j < |ts| {
        assert ts[j].slug == ts[anchor].slug;
        SlugIdentifies(ts, j, anchor);
      }
    }
  }

  /** One forward link after "Add after" rises in `AfterRank`. */
  lemma AfterEdgeRises(ts: seq<Tutorial>, rank: seq<nat>, anchor: nat, i: nat, j: nat)
    requires WellFormed(ts) && Ranked(ts, rank) && anchor < |ts|
    requires NewStepKey(ts, anchor) !in Slugs(ts)
    requires i <= |ts| && j <= |ts|
    requires AddAfter(ts, anchor)[i].nextSection == Some(AddAfter(ts, anchor)[j].slug)
    ensures AfterRank(ts, rank, anchor)[i] < AfterRank(ts, rank, anchor)[j]
  {
    var r := AddAfter(ts, anchor);
    var key := NewStepKey(ts, anchor);
    if i < |ts| {
      AddAfterLinks(ts, anchor, i);
      FreshKeyUnlinked(ts, key, i);
      if j < |ts| {
        assert r[j].slug == ts[j].slug;
        assert ts[j].slug in Slugs(ts);
        assert ts[i].nextSection == Some(ts[j].slug);
      } else {
        assert i == anchor;
      }
    } else {
      assert r[i].nextSection == ts[anchor].nextSection;
      FreshKeyUnlinked(ts, key, anchor);
      if j < |ts| {
        assert ts[anchor].nextSection == Some(ts[j].slug);
      }
    }
  }

  /** A forward link between two surviving steps after the neighbour repair
      of "Delete" rises in the old ranking: it is an old link, or the
      predecessor's link that now skips the anchor. */
  lemma RepairedEdgeRises(ts: seq<Tutorial>, rank: seq<nat>, anchor: nat, i: nat, j: nat)
    requires WellFormed(ts) && Ranked(ts, rank) && anchor < |ts| && i < |ts| && j < |ts|
    requires RepairNeighbours(ts, anchor)[i].nextSection == Some(ts[j].slug)
    ensures rank[i] < rank[j]
  {
    RepairLinks(ts, anchor, i);
    PredecessorFound(ts, anchor);
    if Predecessor(ts, anchor) == Some(i) {
      assert ts[i].nextSection == Some(ts[anchor].slug);
      assert ts[anchor].nextSection == Some(ts[j].slug);
    } else {
      assert ts[i].nextSection == Some(ts[j].slug);
    }
  }

  /** One forward link after "Delete" rises in `DeleteRank`. */
  lemma DeleteEdgeRises(ts: seq<Tutorial>, rank: seq<nat>, anchor: nat, k: nat, l: nat)
    requires WellFormed(ts) && Ranked(ts, rank) && anchor < |ts|
    requires k < |ts| - 1 && l < |ts| - 1
    requires Delete(ts, anchor)[k].nextSection == Some(Delete(ts, anchor)[l].slug)
    ensures DeleteRank(ts, rank, anchor)[k] < DeleteRank(ts, rank, anchor)[l]
  {
    var i := Before(anchor, k);
    var j := Before(anchor, l);
    DeleteAt(ts, anchor, k);
    DeleteAt(ts, anchor, l);
    assert RepairNeighbours(ts, anchor)[j].slug == ts[j].slug;
    RepairedEdgeRises(ts, rank, anchor, i, j);
  }

  /** "Add before" keeps a ranked collection ranked when its key is fresh. */
  lemma AddBeforeAcyclic(ts: seq<Tutorial>, anchor: nat)
    requires WellFormed(ts) && Acyclic(ts) && anchor < |ts|
    requires NewStepKey(ts, anchor) !in Slugs(ts)
    ensures Acyclic(AddBefore(ts, anchor))
  {
    var rank :| Ranked(ts, rank);
    var r := AddBefore(ts, anchor);
    var rank' := BeforeRank(ts, rank, anchor);
    forall i, j | 0 <= i < |r| && 0 <= j < |r| && r[i].nextSection == Some(r[j].slug)
      ensures rank'[i] < rank'[j]
    {
      BeforeEdgeRises(ts, rank, anchor, i, j);
    }
    assert Ranked(r, rank');
  }

  /** "Add after" keeps a ranked collection ranked when its key is fresh. */
  lemma AddAfterAcyclic(ts: seq<Tutorial>, anchor: nat)
    requires WellFormed(ts) && Acyclic(ts) && anchor < |ts|
    requires NewStepKey(ts, anchor) !in Slugs(ts)
    ensures Acyclic(AddAfter(ts, anchor))
  {
    var rank :| Ranked(ts, rank);
    var r := AddAfter(ts, anchor);
    var rank' := AfterRank(ts, rank, anchor);
    forall i, j | 0 <= i < |r| && 0 <= j < |r| && r[i].nextSection == Some(r[j].slug)
      ensures rank'[i] < rank'[j]
    {
      AfterEdgeRises(ts, rank, anchor, i, j);
    }
    assert Ranked(r, rank');
  }

  /** "Delete" keeps a ranked collection ranked. */
  lemma DeleteAcyclic(ts: seq<Tutorial>, anchor: nat)
    requires WellFormed(ts) && Acyclic(ts) && anchor < |ts|
    ensures Acyclic(Delete(ts, anchor))
  {
    var rank :| Ranked(ts, rank);
    var r := Delete(ts, anchor);
    var rank' := DeleteRank(ts, rank, anchor);
    forall k, l | 0 <= k < |r| && 0 <= l < |r| && r[k].nextSection == Some(r[l].slug)
      ensures rank'[k] < rank'[l]
    {
      DeleteEdgeRises(ts, rank, anchor, k, l);
    }
    assert Ranked(r, rank');
  }

  /** A new tutorial is a run of one: a ranked collection stays ranked. */
  lemma NewTutorialAcyclic(ts: seq<Tutorial>, name: string)
    requires WellFormed(ts) && Acyclic(ts)
    requires NewTutorialKey(name) !in Slugs(ts)
    ensures Acyclic(ts + [NewTutorialStep(name)])
  {
    var rank :| Ranked(ts, rank);
    var t := NewTutorialStep(name);
    var r := ts + [t];
    var rank' := rank + [0];
    forall i, j | 0 <= i < |r| && 0 <= j < |r| && r[i].nextSection == Some(r[j].slug)
      ensures rank'[i] < rank'[j]
    {
      assert i < |ts| by { assert Valid(t); }
      assert r[i] == ts[i];
      FreshKeyUnlinked(ts, t.slug, i);
      if j < |ts| {
        assert r[j] == ts[j];
      }
    }
    assert Ranked(r, rank');
  }

  /** A walk along backward links: each step's `prevSection` names the next
      step of the walk. */
  predicate BackwardWalk(ts: seq<Tutorial>, path: seq<nat>) {
    && (forall k :: 0 <= k < |path| ==> path[k] < |ts|)
    && (forall k :: 0 <= k < |path| - 1 ==> LinksBack(ts, path[k], path[k + 1]))
  }

  /** Step `i`'s `prevSection` names step `p`. */
  predicate LinksBack(ts: seq<Tutorial>, i: nat, p: nat) {
    i < |ts| && p < |ts| && ts[i].prevSection == Some(ts[p].slug)
  }

  /** A backward link followed by a walk is a walk. */
  lemma WalkCons(ts: seq<Tutorial>, i: nat, rest: seq<nat>)
    requires BackwardWalk(ts, rest) && |rest| >= 1 && i < |ts|
    requires ts[i].prevSection == Some(ts[rest[0]].slug)
    ensures BackwardWalk(ts, [i] + rest)
  {
    var path := [i] + rest;
    assert forall k :: 0 < k < |path| ==> path[k] == rest[k - 1];
  }

  /** A step with a predecessor links back to a step of the same tutorial
      with a smaller rank. */
  lemma PredecessorRanksLower(ts: seq<Tutorial>, rank: seq<nat>, i: nat) returns (p: nat)
    requires WellFormed(ts) && Ranked(ts, rank) && i < |ts| && ts[i].hasPrevSection
    ensures p < |ts| && ts[i].prevSection == Some(ts[p].slug)
    ensures rank[p] < rank[i] && ts[p].name == ts[i].name
  {
    assert Valid(ts[i]);
    PredecessorFound(ts, i);
    p := Predecessor(ts, i).value;
  }

  /** In a well-formed ranked collection every step reaches, by backward
      links, a run head of the same tutorial, and that head is in the menu. */
  lemma {:induction false} EveryStepReachesHead(ts: seq<Tutorial>, rank: seq<nat>, i: nat)
    returns (path: seq<nat>)
    requires WellFormed(ts) && Ranked(ts, rank) && i < |ts|
    ensures |path| >= 1 && path[0] == i && BackwardWalk(ts, path)
    ensures IsRunHead(ts[path[|path| - 1]])
    ensures ts[path[|path| - 1]].name == ts[i].name
    ensures ts[path[|path| - 1]] in MenuHeads(ts)
    decreases rank[i]
  {
    if !ts[i].hasPrevSection {
      path := [i];
      assert ts[i] in ts;
    } else {
      var p := PredecessorRanksLower(ts, rank, i);
      var rest := EveryStepReachesHead(ts, rank, p);
      WalkCons(ts, i, rest);
      path := [i] + rest;
      assert path[|path| - 1] == rest[|rest| - 1];
    }
  }

  /** With at least one step, a well-formed ranked collection has a
      non-empty menu. */
  lemma MenuNonEmpty(ts: seq<Tutorial>)
    requires WellFormed(ts) && Acyclic(ts) && |ts| > 0
    ensures |MenuHeads(ts)| > 0
  {
    var rank :| Ranked(ts, rank);
    var path := EveryStepReachesHead(ts, rank, 0);
  }
}
