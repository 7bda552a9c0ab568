/**
 * The data effect of the tutorials panel's handlers: opening a step by slug,
 * the menu of run heads, "Add before", "Add after", "Delete" and "Add new
 * tutorial". The collection is the panel's `tutorials` state; records are
 * values and a record's identity is its position in the collection.
 */
module LinkModel {
  import opened Wrappers
  import opened JsStrings
  import opened TutorialModel

  /** The image every record created by the panel gets. */
  const DefaultIcon := "image-5dd9b5a5f02940ee7f8e21d25b9b51516ae09ec8-800x399-png"
  /** The author every record created by the panel gets. */
  const DefaultAuthor := "Hoa"
  const Compatibility: seq<string> := ["microbitV1", "microbitV2"]

  /** `ts.find(t => t.slug.current == s)`, as the index of the first match. */
  function FindBySlug(ts: seq<Tutorial>, s: string): (r: Option<nat>)
    ensures r.Some? ==> r.value < |ts| && ts[r.value].slug == s
    ensures r.Some? ==> forall k :: 0 <= k < r.value ==> ts[k].slug != s
    ensures r.None? <==> s !in Slugs(ts)
  {
    if ts == [] then None
    else if ts[0].slug == s then Some(0)
    else
      match FindBySlug(ts[1..], s)
      case None =>
        assert Slugs(ts) == {ts[0].slug} + Slugs(ts[1..]) by { SlugsCons(ts); }
        None
      case Some(k) =>
        assert Slugs(ts) == {ts[0].slug} + Slugs(ts[1..]) by { SlugsCons(ts); }
        Some(k + 1)
  }

  lemma SlugsCons(ts: seq<Tutorial>)
    requires ts != []
    ensures Slugs(ts) == {ts[0].slug} + Slugs(ts[1..])
  {
    forall s | s in Slugs(ts) ensures s in {ts[0].slug} + Slugs(ts[1..]) {
      var i :| 0 <= i < |ts| && ts[i].slug == s;
      if i > 0 { assert ts[1..][i - 1].slug == s; }
    }
    forall s | s in Slugs(ts[1..]) ensures s in Slugs(ts) {
      var i :| 0 <= i < |ts[1..]| && ts[1..][i].slug == s;
      assert ts[i + 1].slug == s;
    }
  }

  /** In a collection with unique slugs the lookup finds the one step that
      carries the slug. */
  lemma FindBySlugUnique(ts: seq<Tutorial>, j: nat)
    requires UniqueSlugs(ts) && j < |ts|
    ensures FindBySlug(ts, ts[j].slug) == Some(j)
  {
    assert ts[j].slug in Slugs(ts);
    var r := FindBySlug(ts, ts[j].slug);
    SlugIdentifies(ts, r.value, j);
  }

  /** The open step: the first record whose slug equals the anchor id; no
      anchor means the menu is shown. */
  function OpenStep(ts: seq<Tutorial>, anchorId: Option<string>): (r: Option<nat>)
    ensures anchorId.None? ==> r.None?
    ensures anchorId.Some? ==> r == FindBySlug(ts, anchorId.value)
  {
    match anchorId
    case None => None
    case Some(s) => FindBySlug(ts, s)
  }

  /** The menu: `ts.filter(t => !t.hasPrevSection)`. */
  function MenuHeads(ts: seq<Tutorial>): (r: seq<Tutorial>)
    ensures |r| <= |ts|
    ensures forall t :: t in r <==> t in ts && IsRunHead(t)
  {
    if ts == [] then []
    else
      var rest := MenuHeads(ts[1..]);
      assert forall t :: t in ts <==> t == ts[0] || t in ts[1..];
      if IsRunHead(ts[0]) then [ts[0]] + rest else rest
  }

  /** The menu keeps collection order: the menu of a concatenation is the
      concatenation of the menus. */
  lemma {:induction false} MenuHeadsAppend(a: seq<Tutorial>, b: seq<Tutorial>)
    ensures MenuHeads(a + b) == MenuHeads(a) + MenuHeads(b)
  {
    if a == [] {
      assert a + b == b;
    } else {
      assert (a + b)[1..] == a[1..] + b;
      MenuHeadsAppend(a[1..], b);
    }
  }

  /** `name.replace(" ", "-")`: only the first space is replaced. */
  function KeyBase(name: string): string {
    ReplaceFirst(name, ' ', '-')
  }

  /** The `_id` and slug given to a step added next to `anchor`: its tutorial
      name with the first space replaced, a dash and the collection size. */
  function NewStepKey(ts: seq<Tutorial>, anchor: nat): string
    requires anchor < |ts|
  {
    KeyBase(ts[anchor].name) + "-" + NatToString(|ts|)
  }

  /** The record "Add before" creates: it takes the anchor's place in front
      of the anchor. */
  function StepBefore(ts: seq<Tutorial>, anchor: nat): (n: Tutorial)
    requires anchor < |ts|
    ensures n.slug == n.id == NewStepKey(ts, anchor)
    ensures n.name == ts[anchor].name
    ensures n.nextSection == Some(ts[anchor].slug) && n.hasNextSection
    ensures n.prevSection == ts[anchor].prevSection && n.hasPrevSection == ts[anchor].hasPrevSection
    ensures !n.hasHint && n.hint.None?
  {
    var key := NewStepKey(ts, anchor);
    Tutorial(key, ts[anchor].name, DefaultIcon, DefaultAuthor,
             "New tutorial step", "New tutorial content before what was there before",
             false, None, "en", key,
             true, Some(ts[anchor].slug),
             ts[anchor].hasPrevSection, ts[anchor].prevSection,
             Compatibility)
  }

  /** The record "Add after" creates. */
  function StepAfter(ts: seq<Tutorial>, anchor: nat): (n: Tutorial)
    requires anchor < |ts|
    ensures n.slug == n.id == NewStepKey(ts, anchor)
    ensures n.name == ts[anchor].name
    ensures n.prevSection == Some(ts[anchor].slug) && n.hasPrevSection
    ensures n.nextSection == ts[anchor].nextSection && n.hasNextSection == ts[anchor].hasNextSection
    ensures !n.hasHint && n.hint.None?
  {
    var key := NewStepKey(ts, anchor);
    Tutorial(key, ts[anchor].name, DefaultIcon, DefaultAuthor,
             "New tutorial step", "New tutorial content after what was there before",
             false, None, "en", key,
             ts[anchor].hasNextSection, ts[anchor].nextSection,
             true, Some(ts[anchor].slug),
             Compatibility)
  }

  /** The index of the anchor's predecessor, when its `prevSection` is
      defined and resolves. */
  function Predecessor(ts: seq<Tutorial>, anchor: nat): (r: Option<nat>)
    requires anchor < |ts|
    ensures r.Some? ==> r.value < |ts| && ts[anchor].prevSection == Some(ts[r.value].slug)
  {
    match ts[anchor].prevSection
    case None => None
    case Some(s) => FindBySlug(ts, s)
  }

  /** The index of the anchor's successor, when its `nextSection` is defined
      and resolves. */
  function Successor(ts: seq<Tutorial>, anchor: nat): (r: Option<nat>)
    requires anchor < |ts|
    ensures r.Some? ==> r.value < |ts| && ts[anchor].nextSection == Some(ts[r.value].slug)
  {
    match ts[anchor].nextSection
    case None => None
    case Some(s) => FindBySlug(ts, s)
  }

  /** "Add before" on the collection: the predecessor (if found) now points
      forward to the new step, the anchor points back at it, and the new step
      is appended. */
  function AddBefore(ts: seq<Tutorial>, anchor: nat): (r: seq<Tutorial>)
    requires anchor < |ts|
    ensures |r| == |ts| + 1
    ensures r[|ts|] == StepBefore(ts, anchor)
    ensures forall i :: 0 <= i < |ts| ==> r[i].slug == ts[i].slug && r[i].name == ts[i].name
    ensures r[anchor].prevSection == Some(NewStepKey(ts, anchor)) && r[anchor].hasPrevSection
    ensures r[anchor] ==
              (if Predecessor(ts, anchor) == Some(anchor)
               then ts[anchor].(nextSection := Some(NewStepKey(ts, anchor)), hasNextSection := true)
               else ts[anchor]).(prevSection := Some(NewStepKey(ts, anchor)), hasPrevSection := true)
    ensures forall i :: 0 <= i < |ts| && i != anchor && Predecessor(ts, anchor) != Some(i) ==> r[i] == ts[i]
    ensures forall p :: Predecessor(ts, anchor) == Some(p) && p != anchor ==>
              r[p] == ts[p].(nextSection := Some(NewStepKey(ts, anchor)), hasNextSection := true)
  {
    var key := NewStepKey(ts, anchor);
    var ts1 := match Predecessor(ts, anchor)
               case None => ts
               case Some(p) => ts[p := ts[p].(nextSection := Some(key), hasNextSection := true)];
    ts1[anchor := ts1[anchor].(prevSection := Some(key), hasPrevSection := true)] + [StepBefore(ts, anchor)]
  }

  /** "Add after" on the collection, mirroring "Add before". */
  function AddAfter(ts: seq<Tutorial>, anchor: nat): (r: seq<Tutorial>)
    requires anchor < |ts|
    ensures |r| == |ts| + 1
    ensures r[|ts|] == StepAfter(ts, anchor)
    ensures forall i :: 0 <= i < |ts| ==> r[i].slug == ts[i].slug && r[i].name == ts[i].name
    ensures r[anchor].nextSection == Some(NewStepKey(ts, anchor)) && r[anchor].hasNextSection
    ensures r[anchor] ==
              (if Successor(ts, anchor) == Some(anchor)
               then ts[anchor].(prevSection := Some(NewStepKey(ts, anchor)), hasPrevSection := true)
               else ts[anchor]).(nextSection := Some(NewStepKey(ts, anchor)), hasNextSection := true)
    ensures forall i :: 0 <= i < |ts| && i != anchor && Successor(ts, anchor) != Some(i) ==> r[i] == ts[i]
    ensures forall n :: Successor(ts, anchor) == Some(n) && n != anchor ==>
              r[n] == ts[n].(prevSection := Some(NewStepKey(ts, anchor)), hasPrevSection := true)
  {
    var key := NewStepKey(ts, anchor);
    var ts1 := match Successor(ts, anchor)
               case None => ts
               case Some(n) => ts[n := ts[n].(prevSection := Some(key), hasPrevSection := true)];
    ts1[anchor := ts1[anchor].(nextSection := Some(key), hasNextSection := true)] + [StepAfter(ts, anchor)]
  }

  /** The neighbour repair "Delete" performs before the anchor is dropped.
      The branch is chosen by whether `prevSection`/`nextSection` are
      defined; with both defined the successor is repaired only when the
      predecessor was found. */
  function RepairNeighbours(ts: seq<Tutorial>, anchor: nat): (r: seq<Tutorial>)
    requires anchor < |ts|
    ensures |r| == |ts|
    ensures forall i :: 0 <= i < |ts| ==> r[i].slug == ts[i].slug && r[i].name == ts[i].name
  {
    var a := ts[anchor];
    if a.prevSection.Some? then
      if a.nextSection.Some? then
        match Predecessor(ts, anchor)
        case None => ts
        case Some(p) =>
          var ts1 := ts[p := ts[p].(nextSection := a.nextSection)];
          match Successor(ts, anchor)
          case None => ts1
          case Some(n) => ts1[n := ts1[n].(prevSection := a.prevSection)]
      else
        match Predecessor(ts, anchor)
        case None => ts
        case Some(p) => ts[p := ts[p].(nextSection := None, hasNextSection := false)]
    else if a.nextSection.Some? then
      match Successor(ts, anchor)
      case None => ts
      case Some(n) => ts[n := ts[n].(prevSection := None, hasPrevSection := false)]
    else
      ts
  }

  /** "Delete": the neighbours are repaired and exactly the anchor is removed. */
  function Delete(ts: seq<Tutorial>, anchor: nat): (r: seq<Tutorial>)
    requires anchor < |ts|
    ensures |r| == |ts| - 1
    ensures forall i :: 0 <= i < anchor ==> r[i].slug == ts[i].slug
    ensures forall i :: anchor < i < |ts| ==> r[i - 1].slug == ts[i].slug
  {
    var repaired := RepairNeighbours(ts, anchor);
    repaired[..anchor] + repaired[anchor + 1..]
  }

  /** The links of the old steps after "Add before": only the predecessor's
      forward link and the anchor's backward link change, to the new key. */
  lemma AddBeforeLinks(ts: seq<Tutorial>, anchor: nat, i: nat)
    requires anchor < |ts| && i < |ts|
    ensures AddBefore(ts, anchor)[i].nextSection ==
              if Predecessor(ts, anchor) == Some(i) then Some(NewStepKey(ts, anchor)) else ts[i].nextSection
    ensures AddBefore(ts, anchor)[i].hasNextSection ==
              (Predecessor(ts, anchor) == Some(i) || ts[i].hasNextSection)
    ensures AddBefore(ts, anchor)[i].prevSection ==
              if i == anchor then Some(NewStepKey(ts, anchor)) else ts[i].prevSection
    ensures AddBefore(ts, anchor)[i].hasPrevSection == (i == anchor || ts[i].hasPrevSection)
    ensures AddBefore(ts, anchor)[i].hint == ts[i].hint && AddBefore(ts, anchor)[i].hasHint == ts[i].hasHint
  {
  }

  /** The slugs after "Add before" are the old ones and the new key. */
  lemma AddBeforeSlugs(ts: seq<Tutorial>, anchor: nat)
    requires anchor < |ts|
    ensures Slugs(AddBefore(ts, anchor)) == Slugs(ts) + {NewStepKey(ts, anchor)}
  {
    var r := AddBefore(ts, anchor);
    forall s | s in Slugs(r) ensures s in Slugs(ts) + {NewStepKey(ts, anchor)} {
      var i :| 0 <= i < |r| && r[i].slug == s;
      if i < |ts| { assert ts[i].slug == s; }
    }
    forall s | s in Slugs(ts) ensures s in Slugs(r) {
      var i :| 0 <= i < |ts| && ts[i].slug == s;
      assert r[i].slug == s;
    }
    assert r[|ts|].slug == NewStepKey(ts, anchor);
  }

  /** When the anchor has a predecessor in a well-formed collection, the
      lookup finds it and it points forward at the anchor. */
  lemma PredecessorFound(ts: seq<Tutorial>, anchor: nat)
    requires WellFormed(ts) && anchor < |ts|
    ensures ts[anchor].prevSection.Some? <==> Predecessor(ts, anchor).Some?
    ensures Predecessor(ts, anchor).Some? ==>
              ts[Predecessor(ts, anchor).value].nextSection == Some(ts[anchor].slug)
              && ts[Predecessor(ts, anchor).value].name == ts[anchor].name
  {
    if ts[anchor].prevSection.Some? {
      assert ts[anchor].prevSection.value in Slugs(ts);
    }
  }

  /** When the anchor has a successor in a well-formed collection, the
      lookup finds it and it points back at the anchor. */
  lemma SuccessorFound(ts: seq<Tutorial>, anchor: nat)
    requires WellFormed(ts) && anchor < |ts|
    ensures ts[anchor].nextSection.Some? <==> Successor(ts, anchor).Some?
    ensures Successor(ts, anchor).Some? ==>
              ts[Successor(ts, anchor).value].prevSection == Some(ts[anchor].slug)
              && ts[Successor(ts, anchor).value].name == ts[anchor].name
  {
    if ts[anchor].nextSection.Some? {
      assert ts[anchor].nextSection.value in Slugs(ts);
    }
  }

  lemma AddBeforeForward(ts: seq<Tutorial>, anchor: nat, i: nat, j: nat)
    requires WellFormed(ts) && anchor < |ts|
    requires NewStepKey(ts, anchor) !in Slugs(ts)
    requires i <= |ts| && j <= |ts|
    requires AddBefore(ts, anchor)[i].nextSection == Some(AddBefore(ts, anchor)[j].slug)
    ensures AddBefore(ts, anchor)[j].prevSection == Some(AddBefore(ts, anchor)[i].slug)
    ensures AddBefore(ts, anchor)[j].name == AddBefore(ts, anchor)[i].name
  {
    var r := AddBefore(ts, anchor);
    var n := |ts|;
    var pred := Predecessor(ts, anchor);
    PredecessorFound(ts, anchor);
    if i == n {
      assert r[j].slug == ts[anchor].slug;
      if j < n { SlugIdentifies(ts, j, anchor); }
    } else if j == n {
      AddBeforeLinks(ts, anchor, i);
      assert ts[i].nextSection.Some? ==> ts[i].nextSection.value in Slugs(ts);
    } else {
      AddBeforeLinks(ts, anchor, i);
      AddBeforeLinks(ts, anchor, j);
      assert ts[j].slug in Slugs(ts);
      if pred != Some(i) {
        assert ts[i].nextSection == Some(ts[j].slug);
        if j == anchor {
          FindBySlugUnique(ts, i);
        }
      }
    }
  }

  lemma AddBeforeBackward(ts: seq<Tutorial>, anchor: nat, i: nat, j: nat)
    requires WellFormed(ts) && anchor < |ts|
    requires NewStepKey(ts, anchor) !in Slugs(ts)
    requires i <= |ts| && j <= |ts|
    requires AddBefore(ts, anchor)[i].prevSection == Some(AddBefore(ts, anchor)[j].slug)
    ensures AddBefore(ts, anchor)[j].nextSection == Some(AddBefore(ts, anchor)[i].slug)
  {
    var r := AddBefore(ts, anchor);
    var n := |ts|;
    var pred := Predecessor(ts, anchor);
    PredecessorFound(ts, anchor);
    if i == n {
      AddBeforeLinks(ts, anchor, j);
      FindBySlugUnique(ts, j);
    } else if j == n {
      AddBeforeLinks(ts, anchor, i);
      assert ts[i].prevSection.Some? ==> ts[i].prevSection.value in Slugs(ts);
    } else {
      AddBeforeBackwardOld(ts, anchor, i, j);
    }
  }

  /** A backward link between two old steps after "Add before". */
  lemma AddBeforeBackwardOld(ts: seq<Tutorial>, anchor: nat, i: nat, j: nat)
    requires WellFormed(ts) && anchor < |ts|
    requires NewStepKey(ts, anchor) !in Slugs(ts)
    requires i < |ts| && j < |ts|
    requires AddBefore(ts, anchor)[i].prevSection == Some(ts[j].slug)
    ensures AddBefore(ts, anchor)[j].nextSection == Some(ts[i].slug)
  {
    PredecessorFound(ts, anchor);
    AddBeforeLinks(ts, anchor, i);
    AddBeforeLinks(ts, anchor, j);
    assert ts[j].slug in Slugs(ts);
    if i != anchor {
      assert ts[j].nextSection == Some(ts[i].slug);
      if Predecessor(ts, anchor) == Some(j) {
        SlugIdentifies(ts, i, anchor);
      }
    }
  }

  /** The records stay valid and the new key is a fresh slug. */
  lemma AddBeforeValidUnique(ts: seq<Tutorial>, anchor: nat)
    requires WellFormed(ts) && anchor < |ts|
    requires NewStepKey(ts, anchor) !in Slugs(ts)
    ensures forall i :: 0 <= i < |AddBefore(ts, anchor)| ==> Valid(AddBefore(ts, anchor)[i])
    ensures UniqueSlugs(AddBefore(ts, anchor))
  {
    var r := AddBefore(ts, anchor);
    var n := |ts|;
    PredecessorFound(ts, anchor);
    forall i | 0 <= i < |r| ensures Valid(r[i]) {
      if i < n { AddBeforeLinks(ts, anchor, i); }
    }
    forall i, j | 0 <= i < j < |r| ensures r[i].slug != r[j].slug {
      if j == n { assert ts[i].slug in Slugs(ts); }
    }
  }

  lemma AddBeforeLinksResolve(ts: seq<Tutorial>, anchor: nat)
    requires WellFormed(ts) && anchor < |ts|
    ensures LinksResolve(AddBefore(ts, anchor))
  {
    var r := AddBefore(ts, anchor);
    var n := |ts|;
    AddBeforeSlugs(ts, anchor);
    PredecessorFound(ts, anchor);
    forall i | 0 <= i < |r| ensures r[i].nextSection.Some? ==> r[i].nextSection.value in Slugs(r)
    {
      if i < n { AddBeforeLinks(ts, anchor, i); }
      else { assert ts[anchor].slug in Slugs(ts); }
    }
    forall i | 0 <= i < |r| ensures r[i].prevSection.Some? ==> r[i].prevSection.value in Slugs(r)
    {
      if i < n { AddBeforeLinks(ts, anchor, i); }
    }
  }

  lemma AddBeforeLinksAgree(ts: seq<Tutorial>, anchor: nat)
    requires WellFormed(ts) && anchor < |ts|
    requires NewStepKey(ts, anchor) !in Slugs(ts)
    ensures LinksAgree(AddBefore(ts, anchor))
  {
    var r := AddBefore(ts, anchor);
    forall i, j | 0 <= i < |r| && 0 <= j < |r| && r[i].nextSection == Some(r[j].slug)
      ensures r[j].prevSection == Some(r[i].slug) && r[j].name == r[i].name
    {
      AddBeforeForward(ts, anchor, i, j);
    }
    forall i, j | 0 <= i < |r| && 0 <= j < |r| && r[i].prevSection == Some(r[j].slug)
      ensures r[j].nextSection == Some(r[i].slug)
    {
      AddBeforeBackward(ts, anchor, i, j);
    }
  }

  /** "Add before" keeps a well-formed collection well-formed, provided the
      generated key is not already a slug of the collection (the panel does
      not check this). */
  lemma AddBeforeWellFormed(ts: seq<Tutorial>, anchor: nat)
    requires WellFormed(ts) && anchor < |ts|
    requires NewStepKey(ts, anchor) !in Slugs(ts)
    ensures WellFormed(AddBefore(ts, anchor))
  {
    AddBeforeValidUnique(ts, anchor);
    AddBeforeLinksResolve(ts, anchor);
    AddBeforeLinksAgree(ts, anchor);
  }

  /** The links of the old steps after "Add after": only the successor's
      backward link and the anchor's forward link change, to the new key. */
  lemma AddAfterLinks(ts: seq<Tutorial>, anchor: nat, i: nat)
    requires anchor < |ts| && i < |ts|
    ensures AddAfter(ts, anchor)[i].prevSection ==
              if Successor(ts, anchor) == Some(i) then Some(NewStepKey(ts, anchor)) else ts[i].prevSection
    ensures AddAfter(ts, anchor)[i].hasPrevSection ==
              (Successor(ts, anchor) == Some(i) || ts[i].hasPrevSection)
    ensures AddAfter(ts, anchor)[i].nextSection ==
              if i == anchor then Some(NewStepKey(ts, anchor)) else ts[i].nextSection
    ensures AddAfter(ts, anchor)[i].hasNextSection == (i == anchor || ts[i].hasNextSection)
    ensures AddAfter(ts, anchor)[i].hint == ts[i].hint && AddAfter(ts, anchor)[i].hasHint == ts[i].hasHint
  {
  }

  /** The slugs after "Add after" are the old ones and the new key. */
  lemma AddAfterSlugs(ts: seq<Tutorial>, anchor: nat)
    requires anchor < |ts|
    ensures Slugs(AddAfter(ts, anchor)) == Slugs(ts) + {NewStepKey(ts, anchor)}
  {
    var r := AddAfter(ts, anchor);
    forall s | s in Slugs(r) ensures s in Slugs(ts) + {NewStepKey(ts, anchor)} {
      var i :| 0 <= i < |r| && r[i].slug == s;
      if i < |ts| { assert ts[i].slug == s; }
    }
    forall s | s in Slugs(ts) ensures s in Slugs(r) {
      var i :| 0 <= i < |ts| && ts[i].slug == s;
      assert r[i].slug == s;
    }
    assert r[|ts|].slug == NewStepKey(ts, anchor);
  }

  lemma AddAfterForward(ts: seq<Tutorial>, anchor: nat, i: nat, j: nat)
    requires WellFormed(ts) && anchor < |ts|
    requires NewStepKey(ts, anchor) !in Slugs(ts)
    requires i <= |ts| && j <= |ts|
    requires AddAfter(ts, anchor)[i].nextSection == Some(AddAfter(ts, anchor)[j].slug)
    ensures AddAfter(ts, anchor)[j].prevSection == Some(AddAfter(ts, anchor)[i].slug)
    ensures AddAfter(ts, anchor)[j].name == AddAfter(ts, anchor)[i].name
  {
    var r := AddAfter(ts, anchor);
    var n := |ts|;
    var succ := Successor(ts, anchor);
    SuccessorFound(ts, anchor);
    if i == n {
      AddAfterLinks(ts, anchor, j);
      FindBySlugUnique(ts, j);
    } else if j == n {
      AddAfterLinks(ts, anchor, i);
      assert ts[i].nextSection.Some? ==> ts[i].nextSection.value in Slugs(ts);
    } else {
      AddAfterForwardOld(ts, anchor, i, j);
    }
  }

  /** A forward link between two old steps after "Add after". */
  lemma AddAfterForwardOld(ts: seq<Tutorial>, anchor: nat, i: nat, j: nat)
    requires WellFormed(ts) && anchor < |ts|
    requires NewStepKey(ts, anchor) !in Slugs(ts)
    requires i < |ts| && j < |ts|
    requires AddAfter(ts, anchor)[i].nextSection == Some(ts[j].slug)
    ensures AddAfter(ts, anchor)[j].prevSection == Some(ts[i].slug)
    ensures ts[j].name == ts[i].name
  {
    SuccessorFound(ts, anchor);
    AddAfterLinks(ts, anchor, i);
    AddAfterLinks(ts, anchor, j);
    assert ts[j].slug in Slugs(ts);
    if i != anchor {
      assert ts[i].nextSection == Some(ts[j].slug);
      if Successor(ts, anchor) == Some(j) {
        SlugIdentifies(ts, i, anchor);
      }
    }
  }

  lemma AddAfterBackward(ts: seq<Tutorial>, anchor: nat, i: nat, j: nat)
    requires WellFormed(ts) && anchor < |ts|
    requires NewStepKey(ts, anchor) !in Slugs(ts)
    requires i <= |ts| && j <= |ts|
    requires AddAfter(ts, anchor)[i].prevSection == Some(AddAfter(ts, anchor)[j].slug)
    ensures AddAfter(ts, anchor)[j].nextSection == Some(AddAfter(ts, anchor)[i].slug)
  {
    var r := AddAfter(ts, anchor);
    var n := |ts|;
    var succ := Successor(ts, anchor);
    SuccessorFound(ts, anchor);
    if i == n {
      assert r[j].slug == ts[anchor].slug;
      if j < n { SlugIdentifies(ts, j, anchor); }
    } else if j == n {
      AddAfterLinks(ts, anchor, i);
      assert ts[i].prevSection.Some? ==> ts[i].prevSection.value in Slugs(ts);
    } else {
      AddAfterLinks(ts, anchor, i);
      AddAfterLinks(ts, anchor, j);
      assert ts[j].slug in Slugs(ts);
      if succ != Some(i) {
        assert ts[i].prevSection == Some(ts[j].slug);
        if j == anchor {
          FindBySlugUnique(ts, i);
        }
      }
    }
  }

  /** The records stay valid and the new key is a fresh slug. */
  lemma AddAfterValidUnique(ts: seq<Tutorial>, anchor: nat)
    requires WellFormed(ts) && anchor < |ts|
    requires NewStepKey(ts, anchor) !in Slugs(ts)
    ensures forall i :: 0 <= i < |AddAfter(ts, anchor)| ==> Valid(AddAfter(ts, anchor)[i])
    ensures UniqueSlugs(AddAfter(ts, anchor))
  {
    var r := AddAfter(ts, anchor);
    var n := |ts|;
    SuccessorFound(ts, anchor);
    forall i | 0 <= i < |r| ensures Valid(r[i]) {
      if i < n { AddAfterLinks(ts, anchor, i); }
    }
    forall i, j | 0 <= i < j < |r| ensures r[i].slug != r[j].slug {
      if j == n { assert ts[i].slug in Slugs(ts); }
    }
  }

  lemma AddAfterLinksResolve(ts: seq<Tutorial>, anchor: nat)
    requires WellFormed(ts) && anchor < |ts|
    ensures LinksResolve(AddAfter(ts, anchor))
  {
    var r := AddAfter(ts, anchor);
    var n := |ts|;
    AddAfterSlugs(ts, anchor);
    SuccessorFound(ts, anchor);
    forall i | 0 <= i < |r| ensures r[i].nextSection.Some? ==> r[i].nextSection.value in Slugs(r)
    {
      if i < n { AddAfterLinks(ts, anchor, i); }
    }
    forall i | 0 <= i < |r| ensures r[i].prevSection.Some? ==> r[i].prevSection.value in Slugs(r)
    {
      if i < n { AddAfterLinks(ts, anchor, i); }
      else { assert ts[anchor].slug in Slugs(ts); }
    }
  }

  lemma AddAfterLinksAgree(ts: seq<Tutorial>, anchor: nat)
    requires WellFormed(ts) && anchor < |ts|
    requires NewStepKey(ts, anchor) !in Slugs(ts)
    ensures LinksAgree(AddAfter(ts, anchor))
  {
    var r := AddAfter(ts, anchor);
    forall i, j | 0 <= i < |r| && 0 <= j < |r| && r[i].nextSection == Some(r[j].slug)
      ensures r[j].prevSection == Some(r[i].slug) && r[j].name == r[i].name
    {
      AddAfterForward(ts, anchor, i, j);
    }
    forall i, j | 0 <= i < |r| && 0 <= j < |r| && r[i].prevSection == Some(r[j].slug)
      ensures r[j].nextSection == Some(r[i].slug)
    {
      AddAfterBackward(ts, anchor, i, j);
    }
  }

  /** "Add after" keeps a well-formed collection well-formed, provided the
      generated key is not already a slug of the collection. */
  lemma AddAfterWellFormed(ts: seq<Tutorial>, anchor: nat)
    requires WellFormed(ts) && anchor < |ts|
    requires NewStepKey(ts, anchor) !in Slugs(ts)
    ensures WellFormed(AddAfter(ts, anchor))
  {
    AddAfterValidUnique(ts, anchor);
    AddAfterLinksResolve(ts, anchor);
    AddAfterLinksAgree(ts, anchor);
  }

  /** The neighbour repair of "Delete" changes only the four link fields of
      any record, whatever the collection. */
  lemma RepairKeepsOtherFields(ts: seq<Tutorial>, anchor: nat, i: nat)
    requires anchor < |ts| && i < |ts|
    ensures var r := RepairNeighbours(ts, anchor);
      r[i] == ts[i].(nextSection := r[i].nextSection, hasNextSection := r[i].hasNextSection,
                     prevSection := r[i].prevSection, hasPrevSection := r[i].hasPrevSection)
  {
    var a := ts[anchor];
    var r := RepairNeighbours(ts, anchor);
    var p := Predecessor(ts, anchor);
    var n := Successor(ts, anchor);
    if a.prevSection.Some? && a.nextSection.Some? && p.Some? {
      var ts1 := ts[p.value := ts[p.value].(nextSection := a.nextSection)];
      assert ts1[i] == ts[i].(nextSection := ts1[i].nextSection);
      if n.Some? {
        assert r == ts1[n.value := ts1[n.value].(prevSection := a.prevSection)];
      } else {
        assert r == ts1;
      }
    } else if a.prevSection.Some? && a.nextSection.None? && p.Some? {
      assert r == ts[p.value := ts[p.value].(nextSection := None, hasNextSection := false)];
    } else if a.prevSection.None? && a.nextSection.Some? && n.Some? {
      assert r == ts[n.value := ts[n.value].(prevSection := None, hasPrevSection := false)];
    } else {
      assert r == ts;
    }
  }

  /** On a well-formed collection the neighbour repair of "Delete" gives the
      predecessor the anchor's forward link and the successor the anchor's
      backward link (both undefined when the anchor had none); nothing else
      changes. */
  lemma RepairLinks(ts: seq<Tutorial>, anchor: nat, i: nat)
    requires WellFormed(ts) && anchor < |ts| && i < |ts|
    ensures RepairNeighbours(ts, anchor)[i].nextSection ==
              if Predecessor(ts, anchor) == Some(i) then ts[anchor].nextSection else ts[i].nextSection
    ensures RepairNeighbours(ts, anchor)[i].hasNextSection ==
              if Predecessor(ts, anchor) == Some(i) then ts[anchor].hasNextSection else ts[i].hasNextSection
    ensures RepairNeighbours(ts, anchor)[i].prevSection ==
              if Successor(ts, anchor) == Some(i) then ts[anchor].prevSection else ts[i].prevSection
    ensures RepairNeighbours(ts, anchor)[i].hasPrevSection ==
              if Successor(ts, anchor) == Some(i) then ts[anchor].hasPrevSection else ts[i].hasPrevSection
    ensures RepairNeighbours(ts, anchor)[i].hint == ts[i].hint
    ensures RepairNeighbours(ts, anchor)[i].hasHint == ts[i].hasHint
  {
    PredecessorFound(ts, anchor);
    SuccessorFound(ts, anchor);
    assert Valid(ts[anchor]);
    var p := Predecessor(ts, anchor);
    if p.Some? {
      assert Valid(ts[p.value]);
    }
  }

  /** The whole record at position `i` after the neighbour repair: the old
      record with only the links `RepairLinks` describes replaced. */
  lemma RepairRecord(ts: seq<Tutorial>, anchor: nat, i: nat)
    requires WellFormed(ts) && anchor < |ts| && i < |ts|
    ensures RepairNeighbours(ts, anchor)[i] ==
              ts[i].(nextSection := if Predecessor(ts, anchor) == Some(i) then ts[anchor].nextSection else ts[i].nextSection,
                     hasNextSection := if Predecessor(ts, anchor) == Some(i) then ts[anchor].hasNextSection else ts[i].hasNextSection,
                     prevSection := if Successor(ts, anchor) == Some(i) then ts[anchor].prevSection else ts[i].prevSection,
                     hasPrevSection := if Successor(ts, anchor) == Some(i) then ts[anchor].hasPrevSection else ts[i].hasPrevSection)
  {
    RepairKeepsOtherFields(ts, anchor, i);
    RepairLinks(ts, anchor, i);
  }

  /** Nothing in a well-formed collection points at the anchor except its
      own neighbours. */
  lemma OnlyNeighboursPointAt(ts: seq<Tutorial>, anchor: nat, i: nat)
    requires WellFormed(ts) && anchor < |ts| && i < |ts|
    ensures ts[i].nextSection == Some(ts[anchor].slug) ==> Predecessor(ts, anchor) == Some(i)
    ensures ts[i].prevSection == Some(ts[anchor].slug) ==> Successor(ts, anchor) == Some(i)
  {
    if ts[i].nextSection == Some(ts[anchor].slug) {
      FindBySlugUnique(ts, i);
    }
    if ts[i].prevSection == Some(ts[anchor].slug) {
      FindBySlugUnique(ts, i);
    }
  }

  lemma DeleteForward(ts: seq<Tutorial>, anchor: nat, i: nat, j: nat)
    requires WellFormed(ts) && anchor < |ts| && i < |ts| && j < |ts| && i != anchor && j != anchor
    requires RepairNeighbours(ts, anchor)[i].nextSection == Some(ts[j].slug)
    ensures RepairNeighbours(ts, anchor)[j].prevSection == Some(ts[i].slug)
    ensures ts[j].name == ts[i].name
  {
    var p := Predecessor(ts, anchor);
    var n := Successor(ts, anchor);
    PredecessorFound(ts, anchor);
    SuccessorFound(ts, anchor);
    RepairLinks(ts, anchor, i);
    RepairLinks(ts, anchor, j);
    OnlyNeighboursPointAt(ts, anchor, j);
    if p == Some(i) {
      FindBySlugUnique(ts, j);
    } else {
      assert ts[i].nextSection == Some(ts[j].slug);
      if n == Some(j) {
        SlugIdentifies(ts, i, anchor);
      }
    }
  }

  lemma DeleteBackward(ts: seq<Tutorial>, anchor: nat, i: nat, j: nat)
    requires WellFormed(ts) && anchor < |ts| && i < |ts| && j < |ts| && i != anchor && j != anchor
    requires RepairNeighbours(ts, anchor)[i].prevSection == Some(ts[j].slug)
    ensures RepairNeighbours(ts, anchor)[j].nextSection == Some(ts[i].slug)
  {
    var p := Predecessor(ts, anchor);
    var n := Successor(ts, anchor);
    PredecessorFound(ts, anchor);
    SuccessorFound(ts, anchor);
    RepairLinks(ts, anchor, i);
    RepairLinks(ts, anchor, j);
    OnlyNeighboursPointAt(ts, anchor, j);
    if n == Some(i) {
      FindBySlugUnique(ts, j);
    } else {
      assert ts[i].prevSection == Some(ts[j].slug);
      if p == Some(j) {
        SlugIdentifies(ts, i, anchor);
      }
    }
  }

  /** The surviving links after "Delete" never name the deleted step. */
  lemma DeleteResolves(ts: seq<Tutorial>, anchor: nat, i: nat)
    requires WellFormed(ts) && anchor < |ts| && i < |ts| && i != anchor
    ensures RepairNeighbours(ts, anchor)[i].nextSection.Some? ==>
              exists j :: 0 <= j < |ts| && j != anchor && RepairNeighbours(ts, anchor)[i].nextSection == Some(ts[j].slug)
    ensures RepairNeighbours(ts, anchor)[i].prevSection.Some? ==>
              exists j :: 0 <= j < |ts| && j != anchor && RepairNeighbours(ts, anchor)[i].prevSection == Some(ts[j].slug)
  {
    var r := RepairNeighbours(ts, anchor);
    if r[i].nextSection.Some? {
      var j := DeleteResolvesForward(ts, anchor, i);
    }
    if r[i].prevSection.Some? {
      var j := DeleteResolvesBackward(ts, anchor, i);
    }
  }

  /** The step a surviving forward link names after the repair. */
  lemma DeleteResolvesForward(ts: seq<Tutorial>, anchor: nat, i: nat) returns (j: nat)
    requires WellFormed(ts) && anchor < |ts| && i < |ts| && i != anchor
    requires RepairNeighbours(ts, anchor)[i].nextSection.Some?
    ensures j < |ts| && j != anchor && RepairNeighbours(ts, anchor)[i].nextSection == Some(ts[j].slug)
  {
    var p := Predecessor(ts, anchor);
    var n := Successor(ts, anchor);
    PredecessorFound(ts, anchor);
    SuccessorFound(ts, anchor);
    RepairLinks(ts, anchor, i);
    if p == Some(i) {
      j := n.value;
      OnlyNeighboursPointAt(ts, anchor, anchor);
    } else {
      assert ts[i].nextSection.value in Slugs(ts);
      j :| 0 <= j < |ts| && ts[j].slug == ts[i].nextSection.value;
      if j == anchor { OnlyNeighboursPointAt(ts, anchor, i); }
    }
  }

  /** The step a surviving backward link names after the repair. */
  lemma DeleteResolvesBackward(ts: seq<Tutorial>, anchor: nat, i: nat) returns (j: nat)
    requires WellFormed(ts) && anchor < |ts| && i < |ts| && i != anchor
    requires RepairNeighbours(ts, anchor)[i].prevSection.Some?
    ensures j < |ts| && j != anchor && RepairNeighbours(ts, anchor)[i].prevSection == Some(ts[j].slug)
  {
    var p := Predecessor(ts, anchor);
    var n := Successor(ts, anchor);
    PredecessorFound(ts, anchor);
    SuccessorFound(ts, anchor);
    RepairLinks(ts, anchor, i);
    if n == Some(i) {
      j := p.value;
      OnlyNeighboursPointAt(ts, anchor, anchor);
    } else {
      assert ts[i].prevSection.value in Slugs(ts);
      j :| 0 <= j < |ts| && ts[j].slug == ts[i].prevSection.value;
      if j == anchor { OnlyNeighboursPointAt(ts, anchor, i); }
    }
  }

  /** The position, before the deletion of `anchor`, of the step found at
      position `k` after it. */
  function Before(anchor: nat, k: nat): nat {
    if k < anchor then k else k + 1
  }

  lemma DeleteAt(ts: seq<Tutorial>, anchor: nat, k: nat)
    requires anchor < |ts| && k < |ts| - 1
    ensures Delete(ts, anchor)[k] == RepairNeighbours(ts, anchor)[Before(anchor, k)]
  {
    var r := RepairNeighbours(ts, anchor);
    if k < anchor {
      assert Delete(ts, anchor)[k] == r[..anchor][k];
    } else {
      assert Delete(ts, anchor)[k] == r[anchor + 1..][k - anchor];
    }
  }

  /** Each step that survives "Delete" keeps every field but its links:
      title, content, id, icon, author, hint, language and compatibility. */
  lemma DeleteKeepsOtherFields(ts: seq<Tutorial>, anchor: nat, k: nat)
    requires anchor < |ts| && k < |ts| - 1
    ensures var d := Delete(ts, anchor)[k];
      d == ts[Before(anchor, k)].(nextSection := d.nextSection, hasNextSection := d.hasNextSection,
                                  prevSection := d.prevSection, hasPrevSection := d.hasPrevSection)
  {
    DeleteAt(ts, anchor, k);
    RepairKeepsOtherFields(ts, anchor, Before(anchor, k));
  }

  lemma DeleteSlugs(ts: seq<Tutorial>, anchor: nat, j: nat)
    requires anchor < |ts| && j < |ts| && j != anchor
    ensures ts[j].slug in Slugs(Delete(ts, anchor))
  {
    var k := if j < anchor then j else j - 1;
    DeleteAt(ts, anchor, k);
    assert Delete(ts, anchor)[k].slug == ts[j].slug;
  }

  lemma DeleteValidUnique(ts: seq<Tutorial>, anchor: nat)
    requires WellFormed(ts) && anchor < |ts|
    ensures forall k :: 0 <= k < |Delete(ts, anchor)| ==> Valid(Delete(ts, anchor)[k])
    ensures UniqueSlugs(Delete(ts, anchor))
  {
    var d := Delete(ts, anchor);
    forall k | 0 <= k < |d| ensures Valid(d[k]) {
      DeleteAt(ts, anchor, k);
      RepairLinks(ts, anchor, Before(anchor, k));
    }
    forall k, l | 0 <= k < l < |d| ensures d[k].slug != d[l].slug {
      DeleteAt(ts, anchor, k);
      DeleteAt(ts, anchor, l);
      assert ts[Before(anchor, k)].slug != ts[Before(anchor, l)].slug;
    }
  }

  lemma DeleteLinksResolve(ts: seq<Tutorial>, anchor: nat)
    requires WellFormed(ts) && anchor < |ts|
    ensures LinksResolve(Delete(ts, anchor))
  {
    var r := RepairNeighbours(ts, anchor);
    var d := Delete(ts, anchor);
    forall k | 0 <= k < |d|
      ensures d[k].nextSection.Some? ==> d[k].nextSection.value in Slugs(d)
      ensures d[k].prevSection.Some? ==> d[k].prevSection.value in Slugs(d)
    {
      var i := Before(anchor, k);
      DeleteAt(ts, anchor, k);
      DeleteResolves(ts, anchor, i);
      if d[k].nextSection.Some? {
        var j :| 0 <= j < |ts| && j != anchor && r[i].nextSection == Some(ts[j].slug);
        DeleteSlugs(ts, anchor, j);
      }
      if d[k].prevSection.Some? {
        var j :| 0 <= j < |ts| && j != anchor && r[i].prevSection == Some(ts[j].slug);
        DeleteSlugs(ts, anchor, j);
      }
    }
  }

  lemma DeleteLinksAgree(ts: seq<Tutorial>, anchor: nat)
    requires WellFormed(ts) && anchor < |ts|
    ensures LinksAgree(Delete(ts, anchor))
  {
    var d := Delete(ts, anchor);
    forall k, l | 0 <= k < |d| && 0 <= l < |d| && d[k].nextSection == Some(d[l].slug)
      ensures d[l].prevSection == Some(d[k].slug) && d[l].name == d[k].name
    {
      DeleteAt(ts, anchor, k);
      DeleteAt(ts, anchor, l);
      DeleteForward(ts, anchor, Before(anchor, k), Before(anchor, l));
    }
    forall k, l | 0 <= k < |d| && 0 <= l < |d| && d[k].prevSection == Some(d[l].slug)
      ensures d[l].nextSection == Some(d[k].slug)
    {
      DeleteAt(ts, anchor, k);
      DeleteAt(ts, anchor, l);
      DeleteBackward(ts, anchor, Before(anchor, k), Before(anchor, l));
    }
  }

  /** "Delete" keeps a well-formed collection well-formed: the former
      neighbours of the deleted step are linked to each other, and no link
      is left dangling. */
  lemma DeleteWellFormed(ts: seq<Tutorial>, anchor: nat)
    requires WellFormed(ts) && anchor < |ts|
    ensures WellFormed(Delete(ts, anchor))
  {
    DeleteValidUnique(ts, anchor);
    DeleteLinksResolve(ts, anchor);
    DeleteLinksAgree(ts, anchor);
  }

  /** Deleting an interior step links its former neighbours to each other. */
  lemma DeleteJoinsNeighbours(ts: seq<Tutorial>, anchor: nat)
    requires WellFormed(ts) && anchor < |ts|
    requires ts[anchor].hasPrevSection && ts[anchor].hasNextSection
    ensures Predecessor(ts, anchor).Some? && Successor(ts, anchor).Some?
    ensures RepairNeighbours(ts, anchor)[Predecessor(ts, anchor).value].nextSection
              == Some(ts[Successor(ts, anchor).value].slug)
    ensures RepairNeighbours(ts, anchor)[Successor(ts, anchor).value].prevSection
              == Some(ts[Predecessor(ts, anchor).value].slug)
  {
    assert Valid(ts[anchor]);
    PredecessorFound(ts, anchor);
    SuccessorFound(ts, anchor);
    RepairLinks(ts, anchor, Predecessor(ts, anchor).value);
    RepairLinks(ts, anchor, Successor(ts, anchor).value);
  }

  /** Deleting the head of a run of two or more steps makes its successor a
      run head, listed in the menu. */
  lemma DeleteHeadPromotesSuccessor(ts: seq<Tutorial>, anchor: nat)
    requires WellFormed(ts) && anchor < |ts|
    requires IsRunHead(ts[anchor]) && ts[anchor].hasNextSection
    ensures Successor(ts, anchor).Some? && Successor(ts, anchor).value != anchor
    ensures RepairNeighbours(ts, anchor)[Successor(ts, anchor).value] in MenuHeads(Delete(ts, anchor))
  {
    assert Valid(ts[anchor]);
    SuccessorFound(ts, anchor);
    var n := Successor(ts, anchor).value;
    OnlyNeighboursPointAt(ts, anchor, anchor);
    RepairLinks(ts, anchor, n);
    var k := if n < anchor then n else n - 1;
    DeleteAt(ts, anchor, k);
    assert Delete(ts, anchor)[k] == RepairNeighbours(ts, anchor)[n];
  }

  /** Deleting the only step of a run changes no other step. */
  lemma DeleteSingleton(ts: seq<Tutorial>, anchor: nat)
    requires WellFormed(ts) && anchor < |ts|
    requires !ts[anchor].hasPrevSection && !ts[anchor].hasNextSection
    ensures Delete(ts, anchor) == ts[..anchor] + ts[anchor + 1..]
  {
    assert Valid(ts[anchor]);
  }

  /** "Delete" picks its branch by whether the links are defined, not by the
      flags, so it relies on the record invariants: a run head that still
      carries a `prevSection` value (as the parser produces) takes the
      two-neighbour branch, finds no predecessor and repairs nothing, and
      its successor keeps pointing at the deleted slug. */
  lemma DeleteNeedsRecordInvariant()
    ensures
      var head := Tutorial("1", "t", "", "", "", "", false, None, "en", "t-1",
                           true, Some("t-2"), false, Some("nil"), []);
      var tail := Tutorial("2", "t", "", "", "", "", false, None, "en", "t-2",
                           false, Some("nil"), true, Some("t-1"), []);
      && Delete([head, tail], 0) == [tail]
      && !IsRunHead(tail)
      && tail.prevSection.value !in Slugs([tail])
  {
    var head := Tutorial("1", "t", "", "", "", "", false, None, "en", "t-1",
                         true, Some("t-2"), false, Some("nil"), []);
    var tail := Tutorial("2", "t", "", "", "", "", false, None, "en", "t-2",
                         false, Some("nil"), true, Some("t-1"), []);
    assert Slugs([head, tail]) == {"t-1", "t-2"} by { SlugsCons([head, tail]); SlugsCons([tail]); }
    assert Predecessor([head, tail], 0) == None;
    assert Slugs([tail]) == {"t-2"} by { SlugsCons([tail]); }
  }

  /** Appending a step adds its slug to the slugs of the collection. */
  lemma SlugsAppend(ts: seq<Tutorial>, t: Tutorial)
    ensures Slugs(ts + [t]) == Slugs(ts) + {t.slug}
  {
    var r := ts + [t];
    forall s | s in Slugs(r) ensures s in Slugs(ts) + {t.slug} {
      var i :| 0 <= i < |r| && r[i].slug == s;
      if i < |ts| { assert ts[i].slug == s; }
    }
    forall s | s in Slugs(ts) ensures s in Slugs(r) {
      var i :| 0 <= i < |ts| && ts[i].slug == s;
      assert r[i].slug == s;
    }
    assert r[|ts|].slug == t.slug;
  }

  /** A newly created tutorial is a run of one, listed in the menu, and the
      collection stays well-formed provided its key is not already a slug. */
  lemma NewTutorialWellFormed(ts: seq<Tutorial>, name: string)
    requires WellFormed(ts)
    requires NewTutorialKey(name) !in Slugs(ts)
    ensures WellFormed(ts + [NewTutorialStep(name)])
    ensures NewTutorialStep(name) in MenuHeads(ts + [NewTutorialStep(name)])
  {
    var t := NewTutorialStep(name);
    var r := ts + [t];
    SlugsAppend(ts, t);
    assert forall i :: 0 <= i < |ts| ==> r[i] == ts[i];
    forall i, j | 0 <= i < j < |r| ensures r[i].slug != r[j].slug {
      if j == |ts| { assert ts[i].slug in Slugs(ts); }
    }
    NewTutorialLinksAgree(ts, name);
    assert r[|ts|] == t;
  }

  /** The new tutorial has no neighbours, and no old step points at it. */
  lemma NewTutorialLinksAgree(ts: seq<Tutorial>, name: string)
    requires WellFormed(ts)
    requires NewTutorialKey(name) !in Slugs(ts)
    ensures LinksAgree(ts + [NewTutorialStep(name)])
  {
    var t := NewTutorialStep(name);
    var r := ts + [t];
    assert forall i :: 0 <= i < |ts| ==> r[i] == ts[i];
    forall i, j | 0 <= i < |r| && 0 <= j < |r| && r[i].nextSection == Some(r[j].slug)
      ensures r[j].prevSection == Some(r[i].slug) && r[j].name == r[i].name
    {
      if i < |ts| { assert ts[i].nextSection.Some? ==> ts[i].nextSection.value in Slugs(ts); }
    }
    forall i, j | 0 <= i < |r| && 0 <= j < |r| && r[i].prevSection == Some(r[j].slug)
      ensures r[j].nextSection == Some(r[i].slug)
    {
      if i < |ts| { assert ts[i].prevSection.Some? ==> ts[i].prevSection.value in Slugs(ts); }
    }
  }

  /** A name without surrounding white space or blanks is its own key base. */
  lemma PlainNameKey(name: string)
    requires name != [] && !IsWhite(name[0]) && !IsWhite(name[|name| - 1])
    requires ' ' !in name
    ensures Trim(name) == name
    ensures NewTutorialKey(name) == name + "-1"
  {
    TrimUntouched(name);
    ReplaceFirstAbsent(name, ' ', '-');
  }

  /** The key the dialog derives from the name "my-tut". */
  lemma MyTutKey()
    ensures Trim("my-tut") == "my-tut"
    ensures NewTutorialKey("my-tut") == "my-tut-1"
  {
    var name := "my-tut";
    assert !IsWhite(name[0]) && !IsWhite(name[|name| - 1]);
    assert ' ' !in name by {
      assert forall i :: 0 <= i < |name| ==> name[i] != ' ';
    }
    PlainNameKey(name);
  }

  /** The acceptance test compares ids and names but not slugs: a tutorial
      named "my-tut" is accepted next to a parsed step of "My Tut" whose slug
      is "my-tut-1", and the two steps then share a slug. */
  lemma NewTutorialMayDuplicateSlug()
    ensures
      var parsed := Tutorial("1", "My Tut", "nil", "nil", "nil", "", false, Some("nil"), "en", "my-tut-1",
                             false, Some("nil"), false, Some("nil"), Compatibility);
      && AcceptsNewTutorial([parsed], "my-tut")
      && NewTutorialStep("my-tut").slug == parsed.slug
      && !UniqueSlugs([parsed] + [NewTutorialStep("my-tut")])
  {
    var parsed := Tutorial("1", "My Tut", "nil", "nil", "nil", "", false, Some("nil"), "en", "my-tut-1",
                           false, Some("nil"), false, Some("nil"), Compatibility);
    MyTutKey();
    assert parsed.id != "my-tut-1";
    assert parsed.name != "my-tut" by {
      assert parsed.name[0] == 'M';
    }
    var r := [parsed] + [NewTutorialStep("my-tut")];
    assert r[0].slug == r[1].slug;
  }

  /** The key of a step added next to the only step of a tutorial created
      in an empty collection is `name-1`, the key of that step. */
  lemma FirstAddKeyCollides(name: string)
    requires name != [] && !IsWhite(name[0]) && !IsWhite(name[|name| - 1])
    requires ' ' !in name
    ensures AcceptsNewTutorial([], name)
    ensures WellFormed([NewTutorialStep(name)])
    ensures NewStepKey([NewTutorialStep(name)], 0) == NewTutorialStep(name).slug
  {
    PlainNameKey(name);
    ReplaceFirstAbsent(name, ' ', '-');
    assert NatToString(1) == "1";
    NewTutorialWellFormed([], name);
    assert [] + [NewTutorialStep(name)] == [NewTutorialStep(name)];
  }

  /** "Add before" keys the new step by name and collection size, not by a
      fresh value: on a new tutorial alone in the collection it reuses the
      key of that tutorial's step, and the slugs are no longer unique. */
  lemma AddBeforeMayDuplicateSlug(name: string)
    requires name != [] && !IsWhite(name[0]) && !IsWhite(name[|name| - 1])
    requires ' ' !in name
    ensures WellFormed([NewTutorialStep(name)])
    ensures !UniqueSlugs(AddBefore([NewTutorialStep(name)], 0))
  {
    FirstAddKeyCollides(name);
    var r := AddBefore([NewTutorialStep(name)], 0);
    assert r[0].slug == r[1].slug;
  }

  /** The same collision for "Add after". */
  lemma AddAfterMayDuplicateSlug(name: string)
    requires name != [] && !IsWhite(name[0]) && !IsWhite(name[|name| - 1])
    requires ' ' !in name
    ensures WellFormed([NewTutorialStep(name)])
    ensures !UniqueSlugs(AddAfter([NewTutorialStep(name)], 0))
  {
    FirstAddKeyCollides(name);
    var r := AddAfter([NewTutorialStep(name)], 0);
    assert r[0].slug == r[1].slug;
  }

  /** The `_id` and slug of a new tutorial's first step. */
  function NewTutorialKey(name: string): string {
    KeyBase(Trim(name)) + "-1"
  }

  /** `ts.find(t => t._id == id)`, as an index. */
  function FindById(ts: seq<Tutorial>, id: string): (r: Option<nat>)
    ensures r.Some? ==> r.value < |ts| && ts[r.value].id == id
    ensures r.None? <==> forall k :: 0 <= k < |ts| ==> ts[k].id != id
  {
    if ts == [] then None
    else if ts[0].id == id then Some(0)
    else
      match FindById(ts[1..], id)
      case None => None
      case Some(k) => Some(k + 1)
  }

  /** `ts.find(t => t.name == name)`, as an index. */
  function FindByName(ts: seq<Tutorial>, name: string): (r: Option<nat>)
    ensures r.Some? ==> r.value < |ts| && ts[r.value].name == name
    ensures r.None? <==> forall k :: 0 <= k < |ts| ==> ts[k].name != name
  {
    if ts == [] then None
    else if ts[0].name == name then Some(0)
    else
      match FindByName(ts[1..], name)
      case None => None
      case Some(k) => Some(k + 1)
  }

  /** Whether "Add new tutorial" accepts the entered name: it is not blank,
      no record has the id the new step would get, and no record already has
      that tutorial name. */
  function AcceptsNewTutorial(ts: seq<Tutorial>, name: string): (ok: bool)
    ensures ok <==>
      && Trim(name) != ""
      && (forall k :: 0 <= k < |ts| ==> ts[k].id != NewTutorialKey(name))
      && (forall k :: 0 <= k < |ts| ==> ts[k].name != Trim(name))
  {
    Trim(name) != "" && FindById(ts, NewTutorialKey(name)).None? && FindByName(ts, Trim(name)).None?
  }

  /** The single step of a new tutorial: a run of one, with no links. */
  function NewTutorialStep(name: string): (t: Tutorial)
    ensures t.id == t.slug == NewTutorialKey(name) && t.name == Trim(name)
    ensures Valid(t) && IsRunHead(t) && !t.hasNextSection
  {
    var key := NewTutorialKey(name);
    Tutorial(key, Trim(name), DefaultIcon, DefaultAuthor,
             "New tutorial step", "New tutorial content",
             false, None, "en", key,
             false, None, false, None,
             Compatibility)
  }

  /** The panel's collection of steps (its `tutorials` state). Each handler
      updates the anchor and neighbour records and publishes the collection. */
  class TutorialCollection {
    var tutorials: seq<Tutorial>

    constructor (initial: seq<Tutorial>)
      ensures tutorials == initial
    {
      tutorials := initial;
    }

    /** The record the anchor id opens, if any. */
    method Open(anchorId: Option<string>) returns (r: Option<nat>)
      ensures r.Some? ==> r.value < |tutorials| && anchorId == Some(tutorials[r.value].slug)
      ensures r.Some? ==> forall k :: 0 <= k < r.value ==> Some(tutorials[k].slug) != anchorId
      ensures r.None? ==> anchorId.None? || anchorId.value !in Slugs(tutorials)
    {
      r := OpenStep(tutorials, anchorId);
    }

    /** "Add before" the open step `anchor`. */
    method AddStepBefore(anchor: nat)
      requires anchor < |tutorials|
      modifies this
      ensures tutorials == AddBefore(old(tutorials), anchor)
    {
      var active := tutorials[anchor];
      var newStep := StepBefore(tutorials, anchor);
      var published := tutorials;
      if active.prevSection.Some? {
        var prev := FindBySlug(published, active.prevSection.value);
        if prev.Some? {
          published := published[prev.value := published[prev.value].(nextSection := Some(newStep.slug), hasNextSection := true)];
        }
      }
      published := published[anchor := published[anchor].(prevSection := Some(newStep.slug), hasPrevSection := true)];
      tutorials := published + [newStep];
    }

    /** "Add after" the open step `anchor`. */
    method AddStepAfter(anchor: nat)
      requires anchor < |tutorials|
      modifies this
      ensures tutorials == AddAfter(old(tutorials), anchor)
    {
      var active := tutorials[anchor];
      var newStep := StepAfter(tutorials, anchor);
      var published := tutorials;
      if active.nextSection.Some? {
        var next := FindBySlug(published, active.nextSection.value);
        if next.Some? {
          published := published[next.value := published[next.value].(prevSection := Some(newStep.slug), hasPrevSection := true)];
        }
      }
      published := published[anchor := published[anchor].(nextSection := Some(newStep.slug), hasNextSection := true)];
      tutorials := published + [newStep];
    }

    /** "Delete" the open step `anchor`. */
    method DeleteStep(anchor: nat)
      requires anchor < |tutorials|
      modifies this
      ensures tutorials == Delete(old(tutorials), anchor)
    {
      var active := tutorials[anchor];
      var all := tutorials;
      if active.prevSection.Some? {
        if active.nextSection.Some? {
          var prev := FindBySlug(all, active.prevSection.value);
          if prev.Some? {
            all := all[prev.value := all[prev.value].(nextSection := active.nextSection)];
            var next := FindBySlug(tutorials, active.nextSection.value);
            if next.Some? {
              all := all[next.value := all[next.value].(prevSection := active.prevSection)];
            }
          }
        } else {
          var prev := FindBySlug(all, active.prevSection.value);
          if prev.Some? {
            all := all[prev.value := all[prev.value].(nextSection := None, hasNextSection := false)];
          }
        }
      } else if active.nextSection.Some? {
        var next := FindBySlug(all, active.nextSection.value);
        if next.Some? {
          all := all[next.value := all[next.value].(prevSection := None, hasPrevSection := false)];
        }
      }
      tutorials := all[..anchor] + all[anchor + 1..];
    }

    /** "Add new tutorial" with the entered name; `accepted` tells whether the
        collection grew. */
    method AddNewTutorial(name: string) returns (accepted: bool)
      modifies this
      ensures accepted == AcceptsNewTutorial(old(tutorials), name)
      ensures tutorials == if accepted then old(tutorials) + [NewTutorialStep(name)] else old(tutorials)
    {
      var trimmed := Trim(name);
      accepted := trimmed != "" && FindById(tutorials, KeyBase(trimmed) + "-1").None?
                  && FindByName(tutorials, trimmed).None?;
      if accepted {
        tutorials := tutorials + [NewTutorialStep(name)];
      }
    }
  }
}
