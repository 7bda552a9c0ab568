/**
 * One tutorial step (the `Tutorial` record) and the invariants its
 * declaration states in comments, plus the link integrity a collection of
 * steps has to keep: a tutorial is a doubly-linked list whose links are slug
 * references, stored in one flat collection.
 */
module TutorialModel {
  import opened Wrappers

  /** One step of a tutorial. `icon` is the asset reference of the step's
      image and `slug`, `nextSection`, `prevSection` are the `current` string
      of the slug objects. */
  datatype Tutorial = Tutorial(
    id: string,
    name: string,              // shared by every step of one tutorial
    icon: string,
    author: string,
    stepTitle: string,         // per step
    content: string,           // per step
    hasHint: bool,
    hint: Option<string>,
    language: string,
    slug: string,
    hasNextSection: bool,
    nextSection: Option<string>,
    hasPrevSection: bool,
    prevSection: Option<string>,
    compatibility: seq<string>)

  /** The record invariants: each optional field is defined exactly when its
      flag is set. (The comment on the `hasPrevSection` flag repeats the one
      on `hasNextSection`; the paired reading is the one intended.) */
  predicate Valid(t: Tutorial) {
    && (t.hint.Some? <==> t.hasHint)
    && (t.nextSection.Some? <==> t.hasNextSection)
    && (t.prevSection.Some? <==> t.hasPrevSection)
  }

  /** The slugs present in a collection. */
  function Slugs(ts: seq<Tutorial>): set<string> {
    set i | 0 <= i < |ts| :: ts[i].slug
  }

  predicate UniqueSlugs(ts: seq<Tutorial>) {
    forall i, j :: 0 <= i < j < |ts| ==> ts[i].slug != ts[j].slug
  }

  /** Every defined link names a step of the collection. */
  predicate LinksResolve(ts: seq<Tutorial>) {
    && (forall i :: 0 <= i < |ts| && ts[i].nextSection.Some? ==> ts[i].nextSection.value in Slugs(ts))
    && (forall i :: 0 <= i < |ts| && ts[i].prevSection.Some? ==> ts[i].prevSection.value in Slugs(ts))
  }

  /** A step's successor points back at it, and its predecessor forward at it;
      linked steps belong to the same tutorial. */
  predicate LinksAgree(ts: seq<Tutorial>) {
    && (forall i, j :: 0 <= i < |ts| && 0 <= j < |ts| && ts[i].nextSection == Some(ts[j].slug) ==>
          ts[j].prevSection == Some(ts[i].slug) && ts[j].name == ts[i].name)
    && (forall i, j :: 0 <= i < |ts| && 0 <= j < |ts| && ts[i].prevSection == Some(ts[j].slug) ==>
          ts[j].nextSection == Some(ts[i].slug))
  }

  /** A collection of steps forming independent doubly-linked runs. */
  predicate WellFormed(ts: seq<Tutorial>) {
    && (forall i :: 0 <= i < |ts| ==> Valid(ts[i]))
    && UniqueSlugs(ts)
    && LinksResolve(ts)
    && LinksAgree(ts)
  }

  /** A run head: a step without a predecessor, listed in the tutorials menu. */
  predicate IsRunHead(t: Tutorial) {
    !t.hasPrevSection
  }

  /** In a well-formed collection the slug of a step identifies it. */
  lemma SlugIdentifies(ts: seq<Tutorial>, i: nat, j: nat)
    requires UniqueSlugs(ts) && i < |ts| && j < |ts|
    requires ts[i].slug == ts[j].slug
    ensures i == j
  {
  }
}
