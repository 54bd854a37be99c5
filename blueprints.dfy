/** The blueprint routes: list, active blueprint, upsert by name, publish, and the
    per-blueprint history log. Both collections live in one `BlueprintStore`. */
module Blueprints {
  import opened Wrappers
  import opened Json
  import opened Http
  import opened Tables
  import opened BlueprintSchema
  import opened HistorySchema

  predicate DistinctIds(bs: seq<Blueprint>) {
    forall i, j :: 0 <= i < j < |bs| ==> bs[i].id != bs[j].id
  }

  predicate NamesUnique(bs: seq<Blueprint>) {
    forall i, j :: 0 <= i < j < |bs| ==> bs[i].name != bs[j].name
  }

  predicate AtMostOnePublished(bs: seq<Blueprint>) {
    forall i, j :: 0 <= i < j < |bs| && bs[i].isPublished ==> !bs[j].isPublished
  }

  /** No route changes `version` or `author`: every blueprint keeps its defaults. */
  predicate DefaultsKept(bs: seq<Blueprint>) {
    forall b :: b in bs ==> b.version == InitialVersion && b.author == DefaultAuthor
  }

  predicate HasName(name: string, b: Blueprint) { b.name == name }
  predicate HasId(id: ObjectId, b: Blueprint) { b.id == id }
  predicate EntryFor(id: ObjectId, e: HistoryEntry) { e.blueprintId == id }

  /** The filters `{name}` and `{_id}`. */
  function Named(name: string): Blueprint -> bool {
    b => HasName(name, b)
  }

  function WithId(id: ObjectId): Blueprint -> bool {
    b => HasId(id, b)
  }

  /** The History filter `{blueprint_id: id}`. */
  function ForBlueprint(id: ObjectId): HistoryEntry -> bool {
    e => EntryFor(id, e)
  }

  /** The sort `{updated_at: -1}`. */
  predicate UpdatedNoEarlier(a: Blueprint, b: Blueprint) { a.updatedAt >= b.updatedAt }

  /** The sort `{timestamp: -1}`. */
  predicate LoggedNoEarlier(a: HistoryEntry, b: HistoryEntry) { a.timestamp >= b.timestamp }

  function CountNamed(bs: seq<Blueprint>, name: string): nat {
    Count(bs, Named(name))
  }

  /** The blueprint table and the saved blueprint after a save of `(name, structure)`,
      or `None` when validation rejects it. A new blueprint gets `freshId`. */
  function Upsert(bs: seq<Blueprint>, name: string, structure: Option<Json>, freshId: ObjectId, now: Time)
    : Option<(seq<Blueprint>, Blueprint)>
  {
    match FirstIndex(bs, Named(name))
    case Some(i) =>
      (match Restructure(bs[i], structure, now)
       case Some(b) => Some((bs[i := b], b))
       case None => None)
    case None =>
      (match NewBlueprint(freshId, name, structure, now)
       case Some(b) => Some((bs + [b], b))
       case None => None)
  }

  /** `updateMany({}, {is_published: false})`: every flag cleared, nothing else touched
      (no save hook runs). */
  function UnpublishAll(bs: seq<Blueprint>): seq<Blueprint> {
    seq(|bs|, i requires 0 <= i < |bs| => bs[i].(isPublished := false))
  }

  /** The blueprint table after a publish of the blueprint at position `i`. */
  function Published(bs: seq<Blueprint>, i: nat, now: Time): seq<Blueprint>
    requires i < |bs|
  {
    UnpublishAll(bs)[i := MarkPublished(UnpublishAll(bs)[i], now)]
  }

  /** The query `findOne({is_published: true}).sort({updated_at: -1})`. */
  function NewestPublished(bs: seq<Blueprint>): (r: Option<Blueprint>)
    ensures r.Some? ==> r.value in bs && r.value.isPublished
    ensures r.Some? ==> forall b :: b in bs && b.isPublished ==> b.updatedAt <= r.value.updatedAt
    ensures r.None? <==> forall b :: b in bs ==> !b.isPublished
  {
    if bs == [] then None
    else
      assert bs == [bs[0]] + bs[1..];
      var rest := NewestPublished(bs[1..]);
      if !bs[0].isPublished then rest
      else if rest.Some? && rest.value.updatedAt > bs[0].updatedAt then rest
      else Some(bs[0])
  }

  lemma NewerFirstOrders()
    ensures TotalPreorder(UpdatedNoEarlier)
    ensures TotalPreorder(LoggedNoEarlier)
  {
  }

  /** Saving a name that exists rewrites only that blueprint's structure and
      `updated_at`, keeping its id and its published state, so no second blueprint
      with that name appears. */
  lemma {:induction false} UpsertExisting(bs: seq<Blueprint>, name: string, structure: Option<Json>, freshId: ObjectId,
                                          now: Time, i: nat)
    requires i < |bs| && bs[i].name == name && StructureGiven(structure)
    requires NamesUnique(bs)
    ensures var r := Upsert(bs, name, structure, freshId, now);
      && r.Some?
      && r.value.0 == bs[i := bs[i].(structure := structure.value, updatedAt := now)]
      && r.value.1 == r.value.0[i]
      && CountNamed(r.value.0, name) == CountNamed(bs, name) == 1
  {
    var f := FirstIndex(bs, Named(name));
    assert f == Some(i);
    var r := Upsert(bs, name, structure, freshId, now).value.0;
    CountSingle(bs, name, i);
    assert NamesUnique(r);
    CountSingle(r, name, i);
  }

  /** A name held by exactly one blueprint is counted once. */
  lemma {:induction false} CountSingle(bs: seq<Blueprint>, name: string, i: nat)
    requires i < |bs| && bs[i].name == name && NamesUnique(bs)
    ensures CountNamed(bs, name) == 1
    decreases |bs|
  {
    assert bs == [bs[0]] + bs[1..];
    if i == 0 {
      assert forall b :: b in bs[1..] ==> !HasName(name, b);
    } else {
      assert bs[1..][i - 1] == bs[i];
      CountSingle(bs[1..], name, i - 1);
    }
  }

  /** Saving a new name appends exactly one blueprint: unpublished, version 1, with
      that name and structure and a fresh id; the others are untouched. */
  lemma {:induction false} UpsertNew(bs: seq<Blueprint>, name: string, structure: Option<Json>, freshId: ObjectId,
                                     now: Time)
    requires forall b :: b in bs ==> b.name != name
    requires NameGiven(name) && StructureGiven(structure)
    ensures var r := Upsert(bs, name, structure, freshId, now);
      && r.Some?
      && r.value.0 == bs + [r.value.1]
      && r.value.1 == Blueprint(freshId, name, structure.value, false, InitialVersion, DefaultAuthor, now, now)
      && CountNamed(r.value.0, name) == 1
  {
    assert FirstIndex(bs, Named(name)).None?;
    var r := Upsert(bs, name, structure, freshId, now).value;
    CountAppend(bs, r.1, Named(name));
  }

  /** In a store with unique names, every successful save leaves exactly one
      blueprint with the saved name, whether it existed before or not. */
  lemma SavedNameIsUnique(bs: seq<Blueprint>, name: string, structure: Option<Json>, freshId: ObjectId, now: Time)
    requires NamesUnique(bs) && Upsert(bs, name, structure, freshId, now).Some?
    ensures CountNamed(Upsert(bs, name, structure, freshId, now).value.0, name) == 1
  {
    match FirstIndex(bs, Named(name))
    case Some(i) =>
      UpsertExisting(bs, name, structure, freshId, now, i);
    case None =>
      forall b | b in bs ensures b.name != name {
        var j :| 0 <= j < |bs| && bs[j] == b;
        assert !Named(name)(bs[j]);
      }
      UpsertNew(bs, name, structure, freshId, now);
  }

  /** A save succeeds exactly when validation passes: `structure` given, and `name`
      given unless a blueprint already holds it. */
  lemma UpsertFails(bs: seq<Blueprint>, name: string, structure: Option<Json>, freshId: ObjectId, now: Time)
    requires forall b :: b in bs ==> WellFormed(b)
    ensures Upsert(bs, name, structure, freshId, now).Some? <==> NameGiven(name) && StructureGiven(structure)
  {
    var f := FirstIndex(bs, Named(name));
    if f.Some? {
      assert bs[f.value] in bs;
    }
  }

  /** Upsert keeps every store invariant: distinct ids (given a fresh id), unique
      names, well-formed documents with default version and author, and at most one
      published blueprint. */
  lemma {:induction false} UpsertKeepsInvariants(bs: seq<Blueprint>, name: string, structure: Option<Json>,
                                                 freshId: ObjectId, now: Time)
    requires forall b :: b in bs ==> b.id < freshId && WellFormed(b)
    requires Upsert(bs, name, structure, freshId, now).Some?
    ensures var r := Upsert(bs, name, structure, freshId, now).value.0;
      && (DistinctIds(bs) ==> DistinctIds(r))
      && (NamesUnique(bs) ==> NamesUnique(r))
      && (AtMostOnePublished(bs) ==> AtMostOnePublished(r))
      && (DefaultsKept(bs) ==> DefaultsKept(r))
      && (forall b :: b in r ==> b.id <= freshId && WellFormed(b))
      && (forall b :: b in r ==> b.id < freshId) == FirstIndex(bs, Named(name)).Some?
  {
    var r := Upsert(bs, name, structure, freshId, now).value;
    match FirstIndex(bs, Named(name))
    case Some(i) =>
      assert bs[i] in bs;
      ReplaceKeepsInvariants(bs, i, r.1);
    case None =>
      AppendKeepsInvariants(bs, r.1);
      assert r.1 in r.0;
  }

  /** Rewriting one blueprint without touching its id, name, flag, version or author
      keeps every invariant of the table. */
  lemma ReplaceKeepsInvariants(bs: seq<Blueprint>, i: nat, b: Blueprint)
    requires i < |bs|
    requires b.id == bs[i].id && b.name == bs[i].name && b.isPublished == bs[i].isPublished
    requires b.version == bs[i].version && b.author == bs[i].author
    ensures var r := bs[i := b];
      && (DistinctIds(bs) ==> DistinctIds(r))
      && (NamesUnique(bs) ==> NamesUnique(r))
      && (AtMostOnePublished(bs) ==> AtMostOnePublished(r))
      && (DefaultsKept(bs) ==> DefaultsKept(r))
      && (forall x :: x in r ==> x == b || x in bs)
  {
    var r := bs[i := b];
    assert forall j :: 0 <= j < |r| ==>
      r[j].id == bs[j].id && r[j].name == bs[j].name && r[j].isPublished == bs[j].isPublished;
    forall x | x in r ensures x == b || x in bs {
      var j :| 0 <= j < |r| && r[j] == x;
      if j != i {
        assert bs[j] == x;
      }
    }
  }

  /** Appending an unpublished blueprint under a name no other blueprint holds keeps
      names unique and at most one blueprint published. */
  lemma AppendKeepsInvariants(bs: seq<Blueprint>, b: Blueprint)
    requires forall x :: x in bs ==> x.name != b.name
    requires !b.isPublished
    ensures var r := bs + [b];
      && (NamesUnique(bs) ==> NamesUnique(r))
      && (AtMostOnePublished(bs) ==> AtMostOnePublished(r))
      && (forall x :: x in r ==> x == b || x in bs)
      && ((forall x :: x in bs ==> x.id != b.id) && DistinctIds(bs) ==> DistinctIds(r))
  {
    var r := bs + [b];
    assert forall j :: 0 <= j < |bs| ==> r[j] == bs[j] && bs[j] in bs;
    assert r[|bs|] == b;
  }

  /** A save stamps the saved blueprint with `now`: when the clock has not gone
      backwards it is among the most recently updated, so it heads the list. */
  lemma SavedIsNewest(bs: seq<Blueprint>, name: string, structure: Option<Json>, freshId: ObjectId, now: Time)
    requires forall b :: b in bs ==> b.updatedAt <= now
    requires Upsert(bs, name, structure, freshId, now).Some?
    ensures var r := Upsert(bs, name, structure, freshId, now).value;
      r.1 in r.0 && r.1.updatedAt == now && forall b :: b in r.0 ==> b.updatedAt <= r.1.updatedAt
  {
    var r := Upsert(bs, name, structure, freshId, now).value;
    match FirstIndex(bs, Named(name))
    case Some(i) =>
      assert r.0[i] == r.1;
      assert forall b :: b in r.0 ==> b == r.1 || b in bs;
    case None =>
      assert r.0 == bs + [r.1];
  }

  /** The publish route's `save()` runs the pre-save hook, so under a clock that never
      runs backwards the just-published blueprint is no older than any other; the
      `updateMany` before it stamps nothing. */
  lemma PublishedIsNewest(bs: seq<Blueprint>, i: nat, now: Time)
    requires i < |bs| && forall b :: b in bs ==> b.updatedAt <= now
    ensures var r := Published(bs, i, now);
      r[i].updatedAt == now && forall b :: b in r ==> b.updatedAt <= r[i].updatedAt
  {
    var r := Published(bs, i, now);
    forall b | b in r ensures b.updatedAt <= now {
      var j :| 0 <= j < |r| && r[j] == b;
      if j != i {
        assert bs[j] in bs;
      }
    }
  }

  /** After a publish of position `i`, that blueprint is the only published one, and
      every blueprint keeps its id, name and structure. */
  lemma {:induction false} PublishIsExclusive(bs: seq<Blueprint>, i: nat, now: Time)
    requires i < |bs| && DistinctIds(bs)
    ensures var r := Published(bs, i, now);
      && |r| == |bs|
      && (forall j :: 0 <= j < |r| ==> (r[j].isPublished <==> r[j].id == bs[i].id))
      && (forall j :: 0 <= j < |r| ==> r[j].id == bs[j].id && r[j].name == bs[j].name
                                       && r[j].structure == bs[j].structure)
      && (forall j :: 0 <= j < |r| && j != i ==> r[j] == bs[j].(isPublished := false))
      && AtMostOnePublished(r)
      && DistinctIds(r)
  {
    var r := Published(bs, i, now);
    assert forall j :: 0 <= j < |r| && j != i ==> r[j] == bs[j].(isPublished := false);
    assert r[i] == MarkPublished(bs[i].(isPublished := false), now);
  }

  /** After a publish, the active-blueprint query returns exactly the published
      blueprint, whatever the clock says. */
  lemma {:induction false} PublishedIsActive(bs: seq<Blueprint>, i: nat, now: Time)
    requires i < |bs| && DistinctIds(bs)
    ensures NewestPublished(Published(bs, i, now)) == Some(Published(bs, i, now)[i])
  {
    var r := Published(bs, i, now);
    PublishIsExclusive(bs, i, now);
    var a := NewestPublished(r);
    assert r[i] in r && r[i].isPublished;
    var k :| 0 <= k < |r| && r[k] == a.value;
    assert r[k].id == bs[i].id;
    assert k == i;
  }

  /** A publish that finds no target leaves no blueprint published, so the
      active-blueprint query then answers 404. */
  lemma {:induction false} FailedPublishUnpublishesAll(bs: seq<Blueprint>)
    ensures |UnpublishAll(bs)| == |bs|
    ensures NewestPublished(UnpublishAll(bs)) == None
    ensures forall j :: 0 <= j < |bs| ==> UnpublishAll(bs)[j] == bs[j].(isPublished := false)
  {
    var r := UnpublishAll(bs);
    assert forall b :: b in r ==> !b.isPublished;
  }

  /** Clearing the flags moves no blueprint, so `findById` finds the same position
      before and after. */
  lemma UnpublishKeepsPositions(bs: seq<Blueprint>, id: ObjectId)
    ensures FirstIndex(UnpublishAll(bs), WithId(id)) == FirstIndex(bs, WithId(id))
  {
    var r := UnpublishAll(bs);
    var p := WithId(id);
    var x, y := FirstIndex(r, p), FirstIndex(bs, p);
    assert forall j :: 0 <= j < |bs| ==> (p(r[j]) <==> p(bs[j]));
    if x.Some? && y.Some? {
      assert !(x.value < y.value) && !(y.value < x.value);
    }
  }

  /** Appending one entry for a blueprint grows that blueprint's history by exactly
      one and leaves every other blueprint's history count alone. */
  lemma {:induction false} HistoryGrowsByOne(h: seq<HistoryEntry>, e: HistoryEntry, other: ObjectId)
    requires other != e.blueprintId
    ensures Count(h + [e], ForBlueprint(e.blueprintId)) == Count(h, ForBlueprint(e.blueprintId)) + 1
    ensures Count(h + [e], ForBlueprint(other)) == Count(h, ForBlueprint(other))
  {
    CountAppend(h, e, ForBlueprint(e.blueprintId));
    CountAppend(h, e, ForBlueprint(other));
  }

  /** What every route keeps true of the two collections: distinct ids, unique
      names, at most one published blueprint, default version and author,
      well-formed documents, and every id below the next one to be handed out. */
  ghost predicate StoreInvariant(bs: seq<Blueprint>, h: seq<HistoryEntry>, next: ObjectId) {
    && DistinctIds(bs)
    && NamesUnique(bs)
    && AtMostOnePublished(bs)
    && DefaultsKept(bs)
    && (forall b :: b in bs ==> b.id < next && WellFormed(b))
    && (forall e :: e in h ==> e.id < next)
  }

  /** A successful save followed by logging one entry under an id at or above every
      id in use keeps the invariant. */
  lemma SaveKeepsInvariant(bs: seq<Blueprint>, h: seq<HistoryEntry>, next: ObjectId, name: string,
                           structure: Option<Json>, now: Time, entry: HistoryEntry)
    requires StoreInvariant(bs, h, next) && next <= entry.id
    requires Upsert(bs, name, structure, next, now).Some?
    ensures StoreInvariant(Upsert(bs, name, structure, next, now).value.0, h + [entry], entry.id + 1)
  {
    UpsertKeepsInvariants(bs, name, structure, next, now);
  }

  /** Clearing every flag keeps the invariant. */
  lemma UnpublishKeepsInvariant(bs: seq<Blueprint>, h: seq<HistoryEntry>, next: ObjectId)
    requires StoreInvariant(bs, h, next)
    ensures StoreInvariant(UnpublishAll(bs), h, next)
  {
    var u := UnpublishAll(bs);
    forall b | b in u ensures b.id < next && WellFormed(b) && b.version == InitialVersion && b.author == DefaultAuthor {
      var j :| 0 <= j < |u| && u[j] == b;
      assert bs[j] in bs;
    }
  }

  /** A successful publish followed by logging one entry under an id at or above
      every id in use keeps the invariant. */
  lemma PublishKeepsInvariant(bs: seq<Blueprint>, h: seq<HistoryEntry>, next: ObjectId, i: nat, now: Time,
                              entry: HistoryEntry)
    requires StoreInvariant(bs, h, next) && i < |bs| && next <= entry.id
    ensures StoreInvariant(Published(bs, i, now), h + [entry], entry.id + 1)
  {
    UnpublishKeepsInvariant(bs, h, next);
    var u := UnpublishAll(bs);
    var r := Published(bs, i, now);
    assert u[i] in u;
    forall x | x in r ensures x == r[i] || x in u {
      var j :| 0 <= j < |r| && r[j] == x;
      if j != i {
        assert u[j] == x;
      }
    }
    assert forall j :: 0 <= j < |r| ==> r[j].id == u[j].id;
  }

  /** The blueprint collection and the History collection. */
  class BlueprintStore {
    var blueprints: seq<Blueprint>
    var history: seq<HistoryEntry>
    var nextId: ObjectId

    ghost predicate Valid()
      reads this
    {
      StoreInvariant(blueprints, history, nextId)
    }

    constructor ()
      ensures Valid()
      ensures blueprints == [] && history == []
    {
      blueprints, history, nextId := [], [], 0;
    }

    /** A fresh ObjectId. */
    method Allocate() returns (id: ObjectId)
      modifies this`nextId
      ensures id == old(nextId) && nextId == id + 1
    {
      id := nextId;
      nextId := nextId + 1;
    }

    /** GET /: every blueprint, most recently updated first. */
    method List() returns (r: seq<Blueprint>)
      ensures multiset(r) == multiset(blueprints)
      ensures Sorted(r, UpdatedNoEarlier)
    {
      NewerFirstOrders();
      r := Sort(blueprints, UpdatedNoEarlier);
    }

    /** GET /active: a published blueprint updated no earlier than any other published
        one, or 404 when none is published. */
    method Active() returns (reply: Reply<Blueprint>)
      ensures reply.Fail? <==> forall b :: b in blueprints ==> !b.isPublished
      ensures reply.Fail? ==> reply == Fail(404, Message("No published blueprint found"))
      ensures reply.Ok? ==> && reply.status == 200 && reply.body in blueprints && reply.body.isPublished
                            && forall b :: b in blueprints && b.isPublished ==> b.updatedAt <= reply.body.updatedAt
    {
      var found := NewestPublished(blueprints);
      if found.None? {
        return Fail(404, Message("No published blueprint found"));
      }
      reply := Ok(200, found.value);
    }

    /** POST /: upsert by name, then log a 'save' entry carrying the submitted
        structure. A rejected save (500) changes nothing. */
    method Save(name: string, structure: Option<Json>, now: Time) returns (reply: Reply<Blueprint>)
      requires Valid()
      modifies this
      ensures Valid()
      ensures var saved := Upsert(old(blueprints), name, structure, old(nextId), now);
        if saved.None? then
          && reply == Fail(500, Caught(""))
          && blueprints == old(blueprints) && history == old(history)
        else
          && blueprints == saved.value.0
          && reply == Ok(200, saved.value.1)
          && nextId > old(nextId)
          && history == old(history) + [HistoryEntry(nextId - 1, saved.value.1.id, structure.value, now, Action.Save)]
    {
      ghost var before, freshId := blueprints, nextId;
      var found := FirstIndex(blueprints, Named(name));
      var blueprint: Blueprint;
      if found.Some? {
        var updated := Restructure(blueprints[found.value], structure, now);
        if updated.None? {
          return Fail(500, Caught(""));
        }
        blueprint := updated.value;
        blueprints := blueprints[found.value := blueprint];
      } else {
        var id := Allocate();
        var created := NewBlueprint(id, name, structure, now);
        if created.None? {
          return Fail(500, Caught(""));
        }
        blueprint := created.value;
        blueprints := blueprints + [blueprint];
      }
      assert Upsert(before, name, structure, freshId, now) == Some((blueprints, blueprint));
      var entryId := Allocate();
      var entry := NewEntry(entryId, Some(blueprint.id), structure, Some(ActionName(Action.Save)), now);
      SaveKeepsInvariant(before, history, freshId, name, structure, now, entry.value);
      history := history + [entry.value];
      reply := Ok(200, blueprint);
    }

    /** POST /publish/:id: clear every flag, then set the target's and log a
        'publish' entry carrying its structure. An id that names no blueprint fails
        with 500 after the flags are already cleared, and logs nothing. */
    method Publish(id: IdParam, now: Time) returns (reply: Reply<Blueprint>)
      requires Valid()
      modifies this
      ensures Valid()
      ensures var target := if id.Cast? then FirstIndex(old(blueprints), WithId(id.oid)) else None;
        if target.None? then
          && reply == Fail(500, Caught(""))
          && blueprints == UnpublishAll(old(blueprints)) && history == old(history)
        else
          && blueprints == Published(old(blueprints), target.value, now)
          && reply == Ok(200, blueprints[target.value])
          && history == old(history) + [HistoryEntry(old(nextId), id.oid, old(blueprints)[target.value].structure,
                                                     now, Action.Publish)]
    {
      ghost var before := blueprints;
      UnpublishKeepsInvariant(blueprints, history, nextId);
      blueprints := UnpublishAll(blueprints);
      if id.Uncastable? {
        return Fail(500, Caught(""));
      }
      UnpublishKeepsPositions(before, id.oid);
      var found := FirstIndex(blueprints, WithId(id.oid));
      if found.None? {
        return Fail(500, Caught(""));
      }
      var i := found.value;
      var blueprint := MarkPublished(blueprints[i], now);
      blueprints := blueprints[i := blueprint];
      assert blueprints == Published(before, i, now);
      var entryId := Allocate();
      var entry := NewEntry(entryId, Some(blueprint.id), Some(blueprint.structure), Some(ActionName(Action.Publish)), now);
      PublishKeepsInvariant(before, history, entryId, i, now, entry.value);
      history := history + [entry.value];
      reply := Ok(200, blueprint);
    }

    /** GET /history/:id: that blueprint's entries and no others, newest first; an id
        that does not cast fails with 500. */
    method HistoryOf(id: IdParam) returns (reply: Reply<seq<HistoryEntry>>)
      ensures id.Uncastable? <==> reply.Fail?
      ensures reply.Fail? ==> reply == Fail(500, Caught(""))
      ensures reply.Ok? ==> && reply.status == 200
                            && multiset(reply.body) == multiset(Filter(history, ForBlueprint(id.oid)))
                            && (forall e :: e in reply.body <==> e in history && e.blueprintId == id.oid)
                            && Sorted(reply.body, LoggedNoEarlier)
    {
      if id.Uncastable? {
        return Fail(500, Caught(""));
      }
      NewerFirstOrders();
      var kept := Filter(history, ForBlueprint(id.oid));
      var entries := Sort(kept, LoggedNoEarlier);
      SameRows(entries, kept);
      FilterMembers(history, ForBlueprint(id.oid));
      reply := Ok(200, entries);
    }
  }
}
