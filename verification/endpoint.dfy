/** The parse-and-persist step of `recommend_training_plan`: the model's
    text is parsed, each plan is materialised and inserted, and the reply
    carries one new id per plan. */
module Endpoint {
  import opened Base
  import opened Plan

  /** The error text of the 400 reply for output that is not JSON. */
  const MalformedMessage: string := "AI trả về không đúng JSON"

  /** One document of the `trainingplans` collection with its `_id`. */
  datatype Stored = Stored(id: Oid, doc: PlanDoc)

  /** The `trainingplans` collection, append-only, together with the
      position of the id generator: ids from `next` on were never handed out. */
  datatype Db = Db(plans: seq<Stored>, next: nat)

  /** What `json.loads` gives back: failure, an object (of which only the
      `plans` key is read), or some other JSON value. */
  datatype Loaded = NotJson | JsonObject(plans: Field<seq<LogicalPlan>>) | JsonOther

  /** The endpoint's reply: 200 with the new ids and the parsed plans, 400
      with the raw model output, or 500 for an exception the handler does
      not catch. */
  datatype Reply =
    | Created(planIds: seq<Oid>, plans: seq<LogicalPlan>)
    | MalformedResponse(error: string, raw: string)
    | ServerError

  /** The outcome of the list comprehension over the plans: the ids it
      returned so far, the collection afterwards, and whether it raised. */
  datatype SaveRun = SaveRun(ids: seq<Oid>, db: Db, raised: bool)

  function Status(r: Reply): (code: int)
    ensures r.Created? <==> code == 200
    ensures r.MalformedResponse? <==> code == 400
  {
    match r
    case Created(_, _) => 200
    case MalformedResponse(_, _) => 400
    case ServerError => 500
  }

  // ---------------------------------------------------------------------------
  // Ids of the collection

  /** Every generated id in the collection, in generation order. */
  function AllIds(plans: seq<Stored>): seq<nat>
  {
    if |plans| == 0 then []
    else AllIds(plans[..|plans| - 1]) + PlanIds(plans[|plans| - 1].doc) + [plans[|plans| - 1].id.n]
  }

  /** No id occurs twice in the collection and the generator is past all of them. */
  ghost predicate Fresh(db: Db)
  {
    Distinct(AllIds(db.plans)) && Below(AllIds(db.plans), db.next)
  }

  // ---------------------------------------------------------------------------
  // Saving

  /** `insert_one`: the document is appended under a newly generated `_id`. */
  function Insert(db: Db, doc: PlanDoc): (r: (Oid, Db))
    ensures r.0 == Oid(db.next) && r.1.next == db.next + 1
    ensures r.1.plans == db.plans + [Stored(r.0, doc)]
  {
    (Oid(db.next), Db(db.plans + [Stored(Oid(db.next), doc)], db.next + 1))
  }

  /** `save_plan_to_db`: materialise, then insert; nothing is inserted when
      materialising raises. */
  function SavePlan(p: LogicalPlan, ids: map<string, string>, db: Db): (r: Outcome<(Oid, Db)>)
    ensures r.Raised? <==> !Materialisable(p)
    ensures r.Returned? ==> SavedInOrder(db.plans, r.value.1.plans, [p], [r.value.0], ids)
    ensures r.Returned? && Fresh(db) ==> Fresh(r.value.1)
  {
    match Materialise(p, ids, db.next)
    case Raised => Raised
    case Returned(doc) =>
      var hi := db.next + PlanIdCount(p);
      var r := Insert(Db(db.plans, hi), doc);
      assert r.1.plans[..|db.plans|] == db.plans;
      InsertKeepsFresh(db, doc, hi);
      Returned(r)
  }

  lemma InsertKeepsFresh(db: Db, doc: PlanDoc, hi: nat)
    requires db.next <= hi && PlanIds(doc) == Range(db.next, hi)
    ensures var plans := db.plans + [Stored(Oid(hi), doc)];
      Fresh(db) ==> Fresh(Db(plans, hi + 1))
  {
    var plans := db.plans + [Stored(Oid(hi), doc)];
    assert plans[..|plans| - 1] == db.plans;
    RangeAppend(db.next, hi, hi + 1);
    assert AllIds(plans) == AllIds(db.plans) + Range(db.next, hi + 1);
    if Fresh(db) {
      AppendFreshRange(AllIds(db.plans), db.next, hi + 1);
    }
  }

  /** Every plan materialises without raising. */
  predicate AllMaterialisable(ps: seq<LogicalPlan>)
  {
    forall i :: 0 <= i < |ps| ==> Materialisable(ps[i])
  }

  /** `after` is `before` plus one stored document per id of `planIds`: the
      i-th carries the i-th id and is the materialised i-th plan. */
  ghost predicate SavedInOrder(before: seq<Stored>, after: seq<Stored>, ps: seq<LogicalPlan>, planIds: seq<Oid>, ids: map<string, string>)
  {
    && |planIds| <= |ps|
    && |after| == |before| + |planIds|
    && after[..|before|] == before
    && forall i :: 0 <= i < |planIds| ==>
         after[|before| + i].id == planIds[i] && PlanMatches(ps[i], after[|before| + i].doc, ids)
  }

  /** `[save_plan_to_db(p, training_map) for p in plans]`: plans are saved one
      after the other; the first plan that raises stops the comprehension,
      and the plans saved before it stay in the collection. */
  function SaveAll(ps: seq<LogicalPlan>, ids: map<string, string>, db: Db): (r: SaveRun)
    ensures !r.raised <==> AllMaterialisable(ps)
    ensures !r.raised ==> |r.ids| == |ps|
    ensures r.raised ==> |r.ids| < |ps| && !Materialisable(ps[|r.ids|])
    ensures SavedInOrder(db.plans, r.db.plans, ps, r.ids, ids)
    decreases |ps|, 1
  {
    if |ps| == 0 then
      assert db.plans[..|db.plans|] == db.plans;
      SaveRun([], db, false)
    else
      var first := SavePlan(ps[0], ids, db);
      if first.Raised? then
        assert db.plans[..|db.plans|] == db.plans;
        SaveRun([], db, true)
      else
        var (id, db1) := first.value;
        var rest := SaveAll(ps[1..], ids, db1);
        SaveAllStep(ps, ids, db);
        SaveRun([id] + rest.ids, rest.db, rest.raised)
  }

  /** The recursive case of `SaveAll`: a plan that saves is followed by the
      run over the remaining plans. */
  lemma SaveAllStep(ps: seq<LogicalPlan>, ids: map<string, string>, db: Db)
    requires |ps| > 0 && SavePlan(ps[0], ids, db).Returned?
    ensures var (id, db1) := SavePlan(ps[0], ids, db).value;
      var rest := SaveAll(ps[1..], ids, db1);
      && (!rest.raised <==> AllMaterialisable(ps))
      && (rest.raised ==> 1 + |rest.ids| < |ps| && !Materialisable(ps[1 + |rest.ids|]))
      && SavedInOrder(db.plans, rest.db.plans, ps, [id] + rest.ids, ids)
    decreases |ps|, 0
  {
    var (id, db1) := SavePlan(ps[0], ids, db).value;
    SaveAllCons(ps, ids, db, id, db1, SaveAll(ps[1..], ids, db1));
  }

  /** The comprehension hands out only fresh ids, however far it gets. */
  lemma {:induction false} SaveAllKeepsFresh(ps: seq<LogicalPlan>, ids: map<string, string>, db: Db)
    ensures Fresh(db) ==> Fresh(SaveAll(ps, ids, db).db)
    decreases |ps|
  {
    if |ps| > 0 {
      var first := SavePlan(ps[0], ids, db);
      if first.Returned? {
        SaveAllKeepsFresh(ps[1..], ids, first.value.1);
      }
    }
  }

  lemma SaveAllCons(ps: seq<LogicalPlan>, ids: map<string, string>, db: Db, id: Oid, db1: Db, rest: SaveRun)
    requires |ps| > 0 && Materialisable(ps[0])
    requires SavedInOrder(db.plans, db1.plans, [ps[0]], [id], ids)
    requires !rest.raised <==> AllMaterialisable(ps[1..])
    requires rest.raised ==> |rest.ids| < |ps[1..]| && !Materialisable(ps[1..][|rest.ids|])
    requires !rest.raised ==> |rest.ids| == |ps[1..]|
    requires SavedInOrder(db1.plans, rest.db.plans, ps[1..], rest.ids, ids)
    ensures !rest.raised <==> AllMaterialisable(ps)
    ensures rest.raised ==> 1 + |rest.ids| < |ps| && !Materialisable(ps[1 + |rest.ids|])
    ensures SavedInOrder(db.plans, rest.db.plans, ps, [id] + rest.ids, ids)
  {
    var ids' := [id] + rest.ids;
    assert rest.db.plans[..|db.plans|] == rest.db.plans[..|db1.plans|][..|db.plans|];
    if AllMaterialisable(ps[1..]) {
      forall i | 1 <= i < |ps| ensures Materialisable(ps[i]) {
        assert ps[i] == ps[1..][i - 1];
      }
    }
    if rest.raised {
      assert ps[1..][|rest.ids|] == ps[1 + |rest.ids|];
    }
    forall i | 0 <= i < |ids'|
      ensures rest.db.plans[|db.plans| + i].id == ids'[i]
      ensures PlanMatches(ps[i], rest.db.plans[|db.plans| + i].doc, ids)
    {
      if i == 0 {
        assert rest.db.plans[|db.plans|] == rest.db.plans[..|db1.plans|][|db.plans|];

      } else {
        assert ids'[i] == rest.ids[i - 1] && ps[i] == ps[1..][i - 1];
        assert |db.plans| + i == |db1.plans| + (i - 1);
      }
    }
  }

  // ---------------------------------------------------------------------------
  // The handler

  /** Lines 175-185 of the handler: parse the model output with `loads`,
      reply 400 with the raw text when it is not JSON, otherwise save every
      plan of `plans` (an absent key meaning none) and reply with their ids. */
  function Handle(aiOutput: string, loads: string -> Loaded, ids: map<string, string>, db: Db): (r: (Reply, Db))
    ensures r.0.MalformedResponse? <==> loads(aiOutput).NotJson?
    ensures r.0.MalformedResponse? ==> r.0.raw == aiOutput && r.0.error == MalformedMessage && r.1 == db
    ensures r.0.Created? ==> loads(aiOutput).JsonObject? && ListOr(loads(aiOutput).plans) == Some(r.0.plans)
    ensures r.0.Created? ==> |r.0.planIds| == |r.0.plans|
    ensures r.0.Created? ==> SavedInOrder(db.plans, r.1.plans, r.0.plans, r.0.planIds, ids)
    ensures r.0.Created? <==> loads(aiOutput).JsonObject? && ListOr(loads(aiOutput).plans).Some?
                              && AllMaterialisable(ListOr(loads(aiOutput).plans).value)
    ensures loads(aiOutput).JsonObject? && ListOr(loads(aiOutput).plans).Some?
            ==> r.1 == SaveAll(ListOr(loads(aiOutput).plans).value, ids, db).db
    ensures !(loads(aiOutput).JsonObject? && ListOr(loads(aiOutput).plans).Some?) ==> r.1 == db
    ensures |r.1.plans| >= |db.plans| && r.1.plans[..|db.plans|] == db.plans
    ensures Fresh(db) ==> Fresh(r.1)
  {
    match loads(aiOutput)
    case NotJson => (MalformedResponse(MalformedMessage, aiOutput), db)
    case JsonOther => (ServerError, db)
    case JsonObject(field) =>
      match ListOr(field)
      case None => (ServerError, db)
      case Some(ps) =>
        var run := SaveAll(ps, ids, db);
        SaveAllKeepsFresh(ps, ids, db);
        if run.raised then (ServerError, run.db) else (Created(run.ids, ps), run.db)
  }

  /** Output without a `plans` key is a success with no ids and no insert. */
  lemma NoPlansKey(aiOutput: string, loads: string -> Loaded, ids: map<string, string>, db: Db)
    requires loads(aiOutput) == JsonObject(Missing)
    ensures Handle(aiOutput, loads, ids, db) == (Created([], []), db)
  {
  }

  /** Every returned id is fresh: the ids of one reply are pairwise
      distinct, none of them occurs anywhere in the collection as it was
      before the request, and in particular none is an earlier plan's `_id`. */
  lemma ReturnedIdsFresh(aiOutput: string, loads: string -> Loaded, ids: map<string, string>, db: Db)
    requires Fresh(db)
    ensures var r := Handle(aiOutput, loads, ids, db);
      r.0.Created? ==> Distinct(r.0.planIds)
    ensures var r := Handle(aiOutput, loads, ids, db);
      r.0.Created? ==> forall i :: 0 <= i < |r.0.planIds| ==> r.0.planIds[i].n !in AllIds(db.plans)
    ensures var r := Handle(aiOutput, loads, ids, db);
      r.0.Created? ==> forall i, k :: 0 <= i < |r.0.planIds| && 0 <= k < |db.plans| ==> r.0.planIds[i] != db.plans[k].id
  {
    var r := Handle(aiOutput, loads, ids, db);
    if r.0.Created? {
      SavedIdsNew(db.plans, r.1.plans, r.0.plans, r.0.planIds, ids);
      forall i, k | 0 <= i < |r.0.planIds| && 0 <= k < |db.plans|
        ensures r.0.planIds[i] != db.plans[k].id
      {
        StoredIdIn(db.plans, k);
      }
    }
  }

  /** Documents saved into a collection whose ids are distinct carry ids
      that are pairwise distinct and new to the collection before them. */
  lemma SavedIdsNew(before: seq<Stored>, after: seq<Stored>, ps: seq<LogicalPlan>, planIds: seq<Oid>, ids: map<string, string>)
    requires SavedInOrder(before, after, ps, planIds, ids)
    requires Distinct(AllIds(after))
    ensures Distinct(planIds)
    ensures forall i :: 0 <= i < |planIds| ==> planIds[i].n !in AllIds(before)
  {
    StoredIdsDistinct(after);
    forall i, j | 0 <= i < j < |planIds|
      ensures planIds[i] != planIds[j]
    {
      assert planIds[i] == after[|before| + i].id && planIds[j] == after[|before| + j].id;
    }
    forall i | 0 <= i < |planIds|
      ensures planIds[i].n !in AllIds(before)
    {
      assert after[..|before|] == before;
      LaterIdNew(after, |before|, |before| + i);
    }
  }

  /** With distinct ids, the `_id` of a later document does not occur
      among the ids of the documents before it. */
  lemma LaterIdNew(plans: seq<Stored>, b: nat, k: nat)
    requires Distinct(AllIds(plans))
    requires b <= k < |plans|
    ensures plans[k].id.n !in AllIds(plans[..b])
  {
    var full := AllIds(plans);
    var pre := AllIds(plans[..b]);
    StoredIdIn(plans, k);
    StoredIdPosPast(plans, b, k);
    AllIdsPrefix(plans, b);
    var pos := StoredIdPos(plans, k);
    assert pos >= |pre| && full[pos] == plans[k].id.n;
    forall m | 0 <= m < |pre|
      ensures pre[m] != plans[k].id.n
    {
      assert full[m] == full[..|pre|][m] == pre[m];
      assert full[m] != full[pos];
    }
  }

  /** The k-th document's `_id` comes after every id of the documents before
      position `b <= k`. */
  lemma StoredIdPosPast(plans: seq<Stored>, b: nat, k: nat)
    requires b <= k < |plans|
    ensures StoredIdPos(plans, k) >= |AllIds(plans[..b])|
  {
    var q := plans[..k + 1];
    assert q[..|q| - 1] == plans[..k];
    assert |AllIds(q)| >= |AllIds(plans[..k])| + 1;
    assert plans[..k][..b] == plans[..b];
    AllIdsPrefix(plans[..k], b);
  }

  /** Distinct generated ids make the stored documents' `_id`s distinct. */
  lemma StoredIdsDistinct(plans: seq<Stored>)
    requires Distinct(AllIds(plans))
    ensures forall i, j :: 0 <= i < j < |plans| ==> plans[i].id != plans[j].id
  {
    forall i, j | 0 <= i < j < |plans|
      ensures plans[i].id != plans[j].id
    {
      StoredIdIn(plans, i);
      StoredIdIn(plans, j);
      StoredIdPosMono(plans, i, j);
    }
  }

  /** The position of the k-th stored document's `_id` in `AllIds`. */
  function StoredIdPos(plans: seq<Stored>, k: nat): nat
    requires k < |plans|
  {
    |AllIds(plans[..k + 1])| - 1
  }

  lemma {:induction false} AllIdsPrefix(plans: seq<Stored>, k: nat)
    requires k <= |plans|
    ensures |AllIds(plans[..k])| <= |AllIds(plans)|
    ensures AllIds(plans)[..|AllIds(plans[..k])|] == AllIds(plans[..k])
    decreases |plans|
  {
    if k < |plans| {
      var init := plans[..|plans| - 1];
      assert init[..k] == plans[..k];
      AllIdsPrefix(init, k);
    } else {
      assert plans[..k] == plans;
    }
  }

  lemma StoredIdIn(plans: seq<Stored>, k: nat)
    requires k < |plans|
    ensures StoredIdPos(plans, k) < |AllIds(plans)|
    ensures AllIds(plans)[StoredIdPos(plans, k)] == plans[k].id.n
  {
    var pre := plans[..k + 1];
    assert pre[..|pre| - 1] == plans[..k];
    AllIdsPrefix(plans, k + 1);
    assert AllIds(pre)[|AllIds(pre)| - 1] == plans[k].id.n;
  }

  lemma StoredIdPosMono(plans: seq<Stored>, i: nat, j: nat)
    requires i < j < |plans|
    ensures StoredIdPos(plans, i) < StoredIdPos(plans, j)
  {
    var pj := plans[..j + 1];
    assert pj[..i + 1] == plans[..i + 1];
    assert pj[..|pj| - 1] == plans[..j];
    AllIdsPrefix(pj, i + 1);
    assert plans[..j][..i + 1] == plans[..i + 1];
    AllIdsPrefix(plans[..j], i + 1);
  }
}
