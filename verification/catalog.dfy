/** The catalog step of `recommend_training_plan`: the stored training
    records become the list shown to the generative model and the
    title-to-id map used later to resolve exercise names. */
module Catalog {
  import opened Base

  /** A stored training record. `id` is the record's `_id` rendered as a
      string; the other keys may be absent or `null`. */
  datatype TrainingDoc = TrainingDoc(
    id: string,
    title: Field<string>,
    goal: Field<string>,
    level: Field<string>,
    description: Field<string>)

  /** One entry of the list shown to the model; `None` is JSON `null`. */
  datatype CatalogEntry = CatalogEntry(
    title: string,
    goal: Option<string>,
    level: Option<string>,
    description: Option<string>)

  /** A record takes part only when its title is truthy: present, not
      `null`, not the empty string. */
  predicate Listed(t: TrainingDoc)
  {
    t.title.Val? && t.title.value != []
  }

  /** The record is listed under title `k`. */
  predicate TitledAs(t: TrainingDoc, k: string)
  {
    Listed(t) && t.title.value == k
  }

  /** The entry built for a listed record. */
  function Entry(t: TrainingDoc): (e: CatalogEntry)
    requires Listed(t)
    ensures e.title == t.title.value
    ensures e.goal == Get(t.goal) && e.level == Get(t.level)
    ensures e.description == GetOr(t.description, "")
  {
    CatalogEntry(t.title.value, Get(t.goal), Get(t.level), GetOr(t.description, ""))
  }

  /** The reference projection: the entries of the listed records, in
      catalog order. */
  function Project(docs: seq<TrainingDoc>): (r: seq<CatalogEntry>)
    ensures |r| <= |docs|
    ensures forall e :: e in r ==> exists i :: 0 <= i < |docs| && Listed(docs[i]) && e == Entry(docs[i])
  {
    if |docs| == 0 then []
    else
      var last := docs[|docs| - 1];
      var r := Project(docs[..|docs| - 1]);
      assert forall e :: e in r ==> exists i :: 0 <= i < |docs| - 1 && Listed(docs[i]) && e == Entry(docs[i]);
      r + (if Listed(last) then [Entry(last)] else [])
  }

  /** The catalog loop: skips untitled records, projects the rest in order,
      and records each title's id, a later record overwriting an earlier one
      with the same title. */
  method BuildCatalog(docs: seq<TrainingDoc>) returns (list: seq<CatalogEntry>, ids: map<string, string>)
    ensures list == Project(docs)
    ensures |list| <= |docs|
    ensures forall i :: 0 <= i < |docs| && Listed(docs[i]) ==> docs[i].title.value in ids
    ensures forall k :: k in ids ==> exists i :: 0 <= i < |docs| && TitledAs(docs[i], k) && ids[k] == docs[i].id
    ensures forall i :: (0 <= i < |docs| && Listed(docs[i])
                         && (forall j :: i < j < |docs| ==> !TitledAs(docs[j], docs[i].title.value)))
                         ==> ids[docs[i].title.value] == docs[i].id
    ensures ids.Keys == set e | e in list :: e.title
  {
    list := [];
    ids := map[];
    var n := 0;
    while n < |docs|
      invariant n <= |docs|
      invariant list == Project(docs[..n])
      invariant forall i :: 0 <= i < n && Listed(docs[i]) ==> docs[i].title.value in ids
      invariant forall k :: k in ids ==> exists i :: 0 <= i < n && TitledAs(docs[i], k) && ids[k] == docs[i].id
      invariant forall i :: (0 <= i < n && Listed(docs[i])
                             && (forall j :: i < j < n ==> !TitledAs(docs[j], docs[i].title.value)))
                             ==> ids[docs[i].title.value] == docs[i].id
    {
      var t := docs[n];
      assert docs[..n + 1][..n] == docs[..n];
      if Listed(t) {
        list := list + [Entry(t)];
        ids := ids[t.title.value := t.id];
      }
      n := n + 1;
    }
    assert docs[..n] == docs;
    KeysAreListedTitles(docs, list, ids);
  }

  /** The map's keys are exactly the titles in the projected list. */
  lemma {:induction false} KeysAreListedTitles(docs: seq<TrainingDoc>, list: seq<CatalogEntry>, ids: map<string, string>)
    requires list == Project(docs)
    requires forall i :: 0 <= i < |docs| && Listed(docs[i]) ==> docs[i].title.value in ids
    requires forall k :: k in ids ==> exists i :: 0 <= i < |docs| && TitledAs(docs[i], k)
    ensures ids.Keys == set e | e in list :: e.title
  {
    forall k | k in ids
      ensures exists e :: e in list && e.title == k
    {
      var i :| 0 <= i < |docs| && TitledAs(docs[i], k);
      ProjectContains(docs, i);
    }
  }

  /** Every listed record's entry appears in the projection. */
  lemma {:induction false} ProjectContains(docs: seq<TrainingDoc>, i: nat)
    requires i < |docs| && Listed(docs[i])
    ensures Entry(docs[i]) in Project(docs)
    decreases |docs|
  {
    if i < |docs| - 1 {
      assert docs[..|docs| - 1][i] == docs[i];
      ProjectContains(docs[..|docs| - 1], i);
    }
  }
}
