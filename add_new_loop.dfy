/**
 * The loop of `POST /api/categories/add-new` for any list of candidate
 * categories: `findOne({ name })` for each, and `create` when no category
 * has that name once trimmed. A failing call stops the loop; the categories it
 * created before stay.
 */
module AddNewLoop {
  import opened Wrappers
  import opened Text
  import opened CategoryModel
  import opened Store
  import Seqs

  /**
   * Whether a stored category has this name: what `findOne({ name })`
   * finds, with the query value trimmed by the path's setter.
   */
  predicate HasName(stored: seq<CategoryFields>, name: string) {
    exists j :: 0 <= j < |stored| && stored[j].name == Trim(name)
  }

  /** What one iteration does with a seed, given what is stored by then. */
  datatype Step = Skip | Create(f: CategoryFields) | Reject

  /**
   * A seed whose name is found is skipped; otherwise it is created, unless
   * it fails validation or a unique index, which ends the request.
   */
  function StepOf(stored: seq<CategoryFields>, seed: CategorySeed): Step {
    if HasName(stored, seed.name) then Skip
    else
      var v := CategoryModel.Validate(SeedInput(seed));
      if v.Failure? || Clash(stored, v.value) then Reject else Create(v.value)
  }

  /** What the loop over the seeds does: the categories it adds, and whether it got to the end. */
  datatype Outcome = Outcome(added: seq<CategoryFields>, complete: bool)

  /** The loop, one step per seed, stopping at the first rejected one. */
  function Added(stored: seq<CategoryFields>, seeds: seq<CategorySeed>): (r: Outcome)
    ensures |r.added| <= |seeds|
    decreases |seeds|
  {
    if seeds == [] then Outcome([], true)
    else
      var step := StepOf(stored, seeds[0]);
      if step.Skip? then Added(stored, seeds[1..])
      else if step.Reject? then Outcome([], false)
      else
        var rest := Added(stored + [step.f], seeds[1..]);
        Outcome([step.f] + rest.added, rest.complete)
  }

  /** The loop creates `f` from `seed`: its name is missing and it validates to `f`. */
  predicate Creates(stored: seq<CategoryFields>, seed: CategorySeed, f: CategoryFields) {
    !HasName(stored, seed.name) && CategoryModel.Validate(SeedInput(seed)) == Success(f)
  }

  /** A seed the loop must create and cannot: its name is missing, and it fails validation or a unique index. */
  predicate Rejected(stored: seq<CategoryFields>, seed: CategorySeed) {
    !HasName(stored, seed.name) &&
    (CategoryModel.Validate(SeedInput(seed)).Failure? || Clash(stored, CategoryModel.Validate(SeedInput(seed)).value))
  }

  /** Surrounding whitespace on a looked-up name makes no difference: " X " finds a stored "X". */
  lemma LookupIgnoresPadding(stored: seq<CategoryFields>, name: string)
    ensures HasName(stored, name) <==> HasName(stored, Trim(name))
  {
    TrimIdempotent(name);
  }

  /** A name stored stays stored when more categories are added. */
  lemma HasNameExtend(stored: seq<CategoryFields>, extra: seq<CategoryFields>, name: string)
    requires HasName(stored, name)
    ensures HasName(stored + extra, name)
  {
    var j :| 0 <= j < |stored| && stored[j].name == Trim(name);
    assert (stored + extra)[j] == stored[j];
  }

  /**
   * Each added category is a seed as validation leaves it, and a seed
   * whose name was already stored is never added again.
   */
  lemma {:induction false} AddedFromSeeds(stored: seq<CategoryFields>, seeds: seq<CategorySeed>, i: nat)
    requires i < |Added(stored, seeds).added|
    ensures exists k :: 0 <= k < |seeds| && Creates(stored, seeds[k], Added(stored, seeds).added[i])
    decreases |seeds|
  {
    var r := Added(stored, seeds);
    var step := StepOf(stored, seeds[0]);
    if step.Skip? {
      AddedFromSeeds(stored, seeds[1..], i);
      var k :| 0 <= k < |seeds[1..]| && Creates(stored, seeds[1..][k], r.added[i]);
      assert seeds[1..][k] == seeds[k + 1];
    } else if i == 0 {
      assert Creates(stored, seeds[0], r.added[0]);
    } else {
      var next := stored + [step.f];
      AddedFromSeeds(next, seeds[1..], i - 1);
      var k :| 0 <= k < |seeds[1..]| && Creates(next, seeds[1..][k], Added(next, seeds[1..]).added[i - 1]);
      assert seeds[1..][k] == seeds[k + 1];
      if HasName(stored, seeds[k + 1].name) {
        HasNameExtend(stored, [step.f], seeds[k + 1].name);
      }
      assert Creates(stored, seeds[k + 1], r.added[i]);
    }
  }

  /**
   * A loop that got to the end left every seed's name stored, as the
   * setter trims it: found there already, or created.
   */
  lemma {:induction false} CompleteMeansPresent(stored: seq<CategoryFields>, seeds: seq<CategorySeed>, k: nat)
    requires Added(stored, seeds).complete && k < |seeds|
    ensures HasName(stored + Added(stored, seeds).added, seeds[k].name)
    decreases |seeds|
  {
    var r := Added(stored, seeds);
    var step := StepOf(stored, seeds[0]);
    if step.Skip? {
      if k == 0 {
        HasNameExtend(stored, r.added, seeds[0].name);
      } else {
        CompleteMeansPresent(stored, seeds[1..], k - 1);
        assert seeds[1..][k - 1] == seeds[k];
      }
    } else {
      var next := stored + [step.f];
      Seqs.ConcatAssoc(stored, [step.f], Added(next, seeds[1..]).added);
      if k == 0 {
        assert (stored + r.added)[|stored|] == step.f;
        assert step.f.name == Trim(seeds[0].name);
      } else {
        CompleteMeansPresent(next, seeds[1..], k - 1);
        assert seeds[1..][k - 1] == seeds[k];
      }
    }
  }

  /** A loop that stopped early stopped at a seed that was missing and could not be created. */
  lemma {:induction false} IncompleteMeansRejected(stored: seq<CategoryFields>, seeds: seq<CategorySeed>)
    requires !Added(stored, seeds).complete
    ensures exists k :: 0 <= k < |seeds| && Rejected(stored + Added(stored, seeds).added, seeds[k])
    decreases |seeds|
  {
    var r := Added(stored, seeds);
    var step := StepOf(stored, seeds[0]);
    if step.Skip? {
      IncompleteMeansRejected(stored, seeds[1..]);
      var k :| 0 <= k < |seeds[1..]| && Rejected(stored + r.added, seeds[1..][k]);
      assert seeds[1..][k] == seeds[k + 1];
    } else if step.Reject? {
      assert stored + r.added == stored;
      assert Rejected(stored, seeds[0]);
    } else {
      var next := stored + [step.f];
      IncompleteMeansRejected(next, seeds[1..]);
      Seqs.ConcatAssoc(stored, [step.f], Added(next, seeds[1..]).added);
      var k :| 0 <= k < |seeds[1..]| && Rejected(stored + r.added, seeds[1..][k]);
      assert seeds[1..][k] == seeds[k + 1];
    }
  }

  /** When every seed's name is stored the loop adds nothing. */
  lemma {:induction false} AllPresentAddsNothing(stored: seq<CategoryFields>, seeds: seq<CategorySeed>)
    requires forall k :: 0 <= k < |seeds| ==> HasName(stored, seeds[k].name)
    ensures Added(stored, seeds) == Outcome([], true)
    decreases |seeds|
  {
    if seeds != [] {
      assert HasName(stored, seeds[0].name);
      forall k | 0 <= k < |seeds[1..]| ensures HasName(stored, seeds[1..][k].name) {
        assert seeds[1..][k] == seeds[k + 1];
      }
      AllPresentAddsNothing(stored, seeds[1..]);
    }
  }

  /** A second request right after a complete one adds nothing: the route is idempotent. */
  lemma AddNewIdempotent(stored: seq<CategoryFields>, seeds: seq<CategorySeed>)
    requires Added(stored, seeds).complete
    ensures Added(stored + Added(stored, seeds).added, seeds) == Outcome([], true)
  {
    forall k | 0 <= k < |seeds| ensures HasName(stored + Added(stored, seeds).added, seeds[k].name) {
      CompleteMeansPresent(stored, seeds, k);
    }
    AllPresentAddsNothing(stored + Added(stored, seeds).added, seeds);
  }

  /** Whether the loop finds no stored category with the seed's name, so that it must create one. */
  function Absent(stored: seq<CategoryFields>): CategorySeed -> bool {
    (seed: CategorySeed) => !HasName(stored, seed.name)
  }

  /** No two seeds have the same name once trimmed. */
  predicate DistinctNames(seeds: seq<CategorySeed>) {
    forall i, j :: 0 <= i < j < |seeds| ==> Trim(seeds[i].name) != Trim(seeds[j].name)
  }

  /**
   * A complete run over seeds with distinct names creates one category per
   * seed whose name was missing at the start, and nothing else: the
   * created names are exactly those seeds' trimmed names, in seed order.
   */
  lemma {:induction false} AddedExactlyAbsent(stored: seq<CategoryFields>, seeds: seq<CategorySeed>)
    requires DistinctNames(seeds)
    requires Added(stored, seeds).complete
    ensures var absent := Seqs.Filter(seeds, Absent(stored));
      |Added(stored, seeds).added| == |absent| &&
      forall i :: 0 <= i < |absent| ==> Added(stored, seeds).added[i].name == Trim(absent[i].name)
    decreases |seeds|
  {
    if seeds != [] {
      var tail := seeds[1..];
      assert DistinctNames(tail) by {
        forall i, j | 0 <= i < j < |tail| ensures Trim(tail[i].name) != Trim(tail[j].name) {
          assert tail[i] == seeds[i + 1] && tail[j] == seeds[j + 1];
        }
      }
      var step := StepOf(stored, seeds[0]);
      if step.Skip? {
        AddedExactlyAbsent(stored, tail);
      } else {
        assert step.Create?;
        var next := stored + [step.f];
        assert step.f.name == Trim(seeds[0].name);
        forall i | 0 <= i < |tail| ensures Absent(next)(tail[i]) == Absent(stored)(tail[i]) {
          assert tail[i] == seeds[i + 1];
          NameNotAdded(stored, step.f, tail[i].name);
        }
        Seqs.FilterAgree(tail, Absent(next), Absent(stored));
        AddedExactlyAbsent(next, tail);
      }
    }
  }

  /** Storing a category with another name does not make a name found. */
  lemma NameNotAdded(stored: seq<CategoryFields>, f: CategoryFields, name: string)
    requires f.name != Trim(name)
    ensures HasName(stored + [f], name) == HasName(stored, name)
  {
    if HasName(stored + [f], name) {
      var j :| 0 <= j < |stored + [f]| && (stored + [f])[j].name == Trim(name);
      assert j < |stored| && stored[j] == (stored + [f])[j];
    }
    if HasName(stored, name) {
      HasNameExtend(stored, [f], name);
    }
  }

  /** The document a step stores: the created one, or none. */
  function Stored(step: Step, id: nat, now: nat): (r: seq<Document<CategoryFields>>)
    ensures |r| <= 1
  {
    if step.Create? then [Document(id, step.f, now)] else []
  }

  /**
   * One iteration: `findOne({ name })`, then `create` when nothing was
   * found. `ok` is false when a call failed.
   */
  method AddSeed(db: Database, seed: CategorySeed, now: nat) returns (ok: bool)
    requires db.Valid()
    modifies db
    ensures db.Valid()
    ensures db.artworks == old(db.artworks) && db.reachable == old(db.reachable)
    ensures !old(db.reachable) ==> !ok && db.categories == old(db.categories) && db.nextId == old(db.nextId)
    ensures old(db.reachable) ==>
      ok == !StepOf(Data(old(db.categories)), seed).Reject? &&
      db.categories == old(db.categories) + Stored(StepOf(Data(old(db.categories)), seed), old(db.nextId), now) &&
      db.nextId == old(db.nextId) + |Stored(StepOf(Data(old(db.categories)), seed), old(db.nextId), now)|
  {
    var found := db.FindCategoryByName(seed.name);
    if found.Failure? {
      return false;
    }
    if found.value.Some? {
      NamePresent(db.categories, seed.name);
      return true;
    }
    NameAbsent(db.categories, seed.name);
    var created := db.CreateCategory(SeedInput(seed), now);
    ok := created.Success?;
  }

  /**
   * `for (const category of seeds)`: one iteration per seed until one
   * fails; what was created before the failure stays.
   */
  method AddSeeds(db: Database, seeds: seq<CategorySeed>, now: nat) returns (ok: bool)
    requires db.Valid()
    modifies db
    ensures db.Valid()
    ensures db.artworks == old(db.artworks) && db.reachable == old(db.reachable)
    ensures !old(db.reachable) && seeds != [] ==>
      !ok && db.categories == old(db.categories) && db.nextId == old(db.nextId)
    ensures old(db.reachable) ==>
      var r := Added(Data(old(db.categories)), seeds);
      db.categories == old(db.categories) + Stamp(r.added, old(db.nextId), now) &&
      db.nextId == old(db.nextId) + |r.added| && ok == r.complete
  {
    ghost var before := db.categories;
    ghost var acc: seq<CategoryFields> := [];
    var id0 := db.nextId;
    StampEmpty(id0, now);
    assert Data(before) + acc == Data(before) && seeds[0..] == seeds;
    var i := 0;
    while i < |seeds|
      invariant 0 <= i <= |seeds|
      invariant db.Valid() && db.artworks == old(db.artworks) && db.reachable == old(db.reachable)
      invariant db.categories == before + Stamp(acc, id0, now) && db.nextId == id0 + |acc|
      invariant Data(db.categories) == Data(before) + acc
      invariant !db.reachable ==> i == 0 && acc == []
      invariant Progress(Data(before), acc, seeds, i)
    {
      var next;
      ghost var acc';
      next, acc' := AddNext(db, before, acc, seeds, i, id0, now);
      if !next {
        return false;
      }
      acc := acc';
      i := i + 1;
    }
    assert seeds[i..] == [] && acc + [] == acc;
    ok := true;
  }

  /**
   * After `i` seeds, `acc` was created and the rest of the run is what the
   * remaining seeds add to the grown store.
   */
  ghost predicate Progress(stored: seq<CategoryFields>, acc: seq<CategoryFields>, seeds: seq<CategorySeed>, i: nat)
    requires i <= |seeds|
  {
    var rest := Added(stored + acc, seeds[i..]);
    Added(stored, seeds) == Outcome(acc + rest.added, rest.complete)
  }

  /**
   * One iteration of the loop, for the `i`-th seed: `acc` holds what the
   * earlier iterations created. Either the seed is skipped or created and
   * the loop goes on with `acc'`, or the iteration fails and `acc` is all
   * the run adds.
   */
  method AddNext(db: Database, ghost before: seq<Document<CategoryFields>>, ghost acc: seq<CategoryFields>,
                 seeds: seq<CategorySeed>, i: nat, id0: nat, now: nat)
    returns (ok: bool, ghost acc': seq<CategoryFields>)
    requires db.Valid() && i < |seeds|
    requires db.categories == before + Stamp(acc, id0, now) && db.nextId == id0 + |acc|
    requires Data(db.categories) == Data(before) + acc
    requires Progress(Data(before), acc, seeds, i)
    modifies db
    ensures db.Valid() && db.artworks == old(db.artworks) && db.reachable == old(db.reachable)
    ensures !old(db.reachable) ==> !ok && db.categories == old(db.categories) && db.nextId == old(db.nextId)
    ensures !ok && old(db.reachable) ==>
      db.categories == old(db.categories) && db.nextId == old(db.nextId) &&
      Added(Data(before), seeds) == Outcome(acc, false)
    ensures ok ==>
      db.categories == before + Stamp(acc', id0, now) && db.nextId == id0 + |acc'| &&
      Data(db.categories) == Data(before) + acc' && Progress(Data(before), acc', seeds, i + 1)
  {
    AddedAdvance(Data(before), acc, seeds, i);
    ghost var step := StepOf(Data(before) + acc, seeds[i]);
    ghost var current := db.categories;
    ghost var id := db.nextId;
    ok := AddSeed(db, seeds[i], now);
    acc' := acc;
    if !ok {
      return;
    }
    assert db.categories == current + Stored(step, id, now);
    if step.Create? {
      CreateStep(before, acc, id0, id, now, current, step.f);
      acc' := acc + [step.f];
    }
  }

  /** One step of `Added` at position `i` of the seeds. */
  lemma NextSeed(stored: seq<CategoryFields>, seeds: seq<CategorySeed>, i: nat)
    requires i < |seeds|
    ensures var step := StepOf(stored, seeds[i]);
      Added(stored, seeds[i..]) ==
        if step.Skip? then Added(stored, seeds[i + 1..])
        else if step.Reject? then Outcome([], false)
        else Outcome([step.f] + Added(stored + [step.f], seeds[i + 1..]).added, Added(stored + [step.f], seeds[i + 1..]).complete)
  {
    assert seeds[i..][0] == seeds[i] && seeds[i..][1..] == seeds[i + 1..];
  }

  /** The loop invariant on `Added` carried over position `i`, for each kind of step. */
  lemma AddedAdvance(stored: seq<CategoryFields>, acc: seq<CategoryFields>, seeds: seq<CategorySeed>, i: nat)
    requires i < |seeds|
    ensures var step := StepOf(stored + acc, seeds[i]);
      var now := Added(stored + acc, seeds[i..]);
      (step.Skip? ==> now == Added(stored + acc, seeds[i + 1..])) &&
      (step.Reject? ==> now == Outcome([], false)) &&
      (step.Create? ==>
        acc + now.added == (acc + [step.f]) + Added(stored + (acc + [step.f]), seeds[i + 1..]).added &&
        now.complete == Added(stored + (acc + [step.f]), seeds[i + 1..]).complete)
  {
    NextSeed(stored + acc, seeds, i);
    var step := StepOf(stored + acc, seeds[i]);
    if step.Create? {
      Seqs.ConcatAssoc(stored, acc, [step.f]);
      Seqs.ConcatAssoc(acc, [step.f], Added(stored + (acc + [step.f]), seeds[i + 1..]).added);
    }
  }

  /** Appending the document for `f` extends the stamped additions by `f`. */
  lemma CreateStep(before: seq<Document<CategoryFields>>, acc: seq<CategoryFields>, id0: nat, id: nat, now: nat,
                   current: seq<Document<CategoryFields>>, f: CategoryFields)
    requires current == before + Stamp(acc, id0, now) && id == id0 + |acc|
    ensures current + [Document(id, f, now)] == before + Stamp(acc + [f], id0, now)
    ensures Data(current + [Document(id, f, now)]) == Data(before) + (acc + [f])
  {
    StampAppend(acc, f, id0, now);
    Seqs.ConcatAssoc(before, Stamp(acc, id0, now), [Document(id, f, now)]);
    Store.DataConcat(before, Stamp(acc + [f], id0, now));
  }

  lemma NameAbsent(docs: seq<Document<CategoryFields>>, name: string)
    requires FindByName(docs, name).None?
    ensures !HasName(Data(docs), name)
  {
  }

  lemma NamePresent(docs: seq<Document<CategoryFields>>, name: string)
    requires FindByName(docs, name).Some?
    ensures HasName(Data(docs), name)
  {
    var i :| 0 <= i < |docs| && docs[i].data.name == Trim(name);
    assert Data(docs)[i].name == Trim(name);
  }

  lemma StampEmpty(id: nat, now: nat)
    ensures Stamp<CategoryFields>([], id, now) == []
  {
  }

  lemma StampAppend(acc: seq<CategoryFields>, f: CategoryFields, id: nat, now: nat)
    ensures Stamp(acc + [f], id, now) == Stamp(acc, id, now) + [Document(id + |acc|, f, now)]
  {
  }
}
