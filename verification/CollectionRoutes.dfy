/** The routes around the stored collection: each loads the state, works on it for seconds, and replaces it as a
    whole.  Any number of them may overlap. */
module CollectionRoutes {
  import opened Wrappers
  import opened CollectionMerge

  /** One replacement of the stored state: the route had read the state that `loaded` earlier stores left, and
      did `steps` on it (none, when it only updates the identifiers beside it). */
  datatype Store = Store(loaded: nat, steps: seq<Event>)

  predicate Legal(ops: seq<Store>) { forall j :: 0 <= j < |ops| ==> ops[j].loaded <= j }

  /** The stored state after the first n stores. */
  function Stored(c: Collection, ops: seq<Store>, n: nat): Collection
    requires Legal(ops) && n <= |ops|
    decreases n
  {
    if n == 0 then c else Run(Stored(c, ops, ops[n - 1].loaded), ops[n - 1].steps)
  }

  /** The stores (numbered from 1) that the n-th state descends from. */
  function Lineage(ops: seq<Store>, n: nat): set<nat>
    requires Legal(ops) && n <= |ops|
    decreases n
  {
    if n == 0 then {} else Lineage(ops, ops[n - 1].loaded) + {n}
  }

  /** What was done along the descent of state n after state m. */
  function Since(ops: seq<Store>, m: nat, n: nat): seq<Event>
    requires Legal(ops) && n <= |ops|
    decreases n
  {
    if n <= m then [] else Since(ops, m, ops[n - 1].loaded) + ops[n - 1].steps
  }

  lemma {:induction false} RunConcat(c: Collection, es: seq<Event>, fs: seq<Event>)
    ensures Run(c, es + fs) == Run(Run(c, es), fs)
    decreases |es|
  {
    if es == [] {
      assert es + fs == fs;
    } else {
      assert (es + fs)[1..] == es[1..] + fs;
      RunConcat(Next(c, es[0]), es[1..], fs);
    }
  }

  lemma {:induction false} LineageWithin(ops: seq<Store>, n: nat)
    requires Legal(ops) && n <= |ops|
    ensures forall m :: m in Lineage(ops, n) ==> 1 <= m <= n
    decreases n
  {
    if n > 0 { LineageWithin(ops, ops[n - 1].loaded); }
  }

  /** A state is the one its ancestor left, and what was done since along the descent: an overlapping run of
      routes is as good as the sequence of those routes alone that the state descends from. */
  lemma {:induction false} StoredFollowsLineage(c: Collection, ops: seq<Store>, m: nat, n: nat)
    requires Legal(ops) && n <= |ops| && (m == 0 || m in Lineage(ops, n))
    ensures m <= n && Stored(c, ops, n) == Run(Stored(c, ops, m), Since(ops, m, n))
    decreases n
  {
    LineageWithin(ops, n);
    if n > m {
      var l := ops[n - 1].loaded;
      LineageWithin(ops, l);
      StoredFollowsLineage(c, ops, m, l);
      RunConcat(Stored(c, ops, m), Since(ops, m, l), ops[n - 1].steps);
    }
  }

  /** Nothing of what a store did is left in a state that does not descend from it. */
  lemma {:induction false} OverwrittenLeavesNothing(c: Collection, ops: seq<Store>, m: nat, n: nat, steps: seq<Event>)
    requires Legal(ops) && 1 <= m <= |ops| && n <= |ops| && m !in Lineage(ops, n)
    ensures var other := ops[m - 1 := ops[m - 1].(steps := steps)];
            Legal(other) && Stored(c, other, n) == Stored(c, ops, n)
    decreases n
  {
    if n > 0 { OverwrittenLeavesNothing(c, ops, m, ops[n - 1].loaded, steps); }
  }

  /** Every later state descends from store m if and only if no later store comes from a state loaded before it. */
  lemma KeptExactly(ops: seq<Store>, m: nat)
    requires Legal(ops) && 1 <= m <= |ops|
    ensures (forall n :: m <= n <= |ops| ==> m in Lineage(ops, n))
            <==> (forall j :: m <= j < |ops| ==> ops[j].loaded >= m)
  {
    if forall j :: m <= j < |ops| ==> ops[j].loaded >= m {
      forall n | m <= n <= |ops| ensures m in Lineage(ops, n) { AllDescend(ops, m, n); }
    } else {
      var j :| m <= j < |ops| && ops[j].loaded < m;
      LineageWithin(ops, ops[j].loaded);
      assert m !in Lineage(ops, j + 1);
    }
  }

  lemma {:induction false} AllDescend(ops: seq<Store>, m: nat, n: nat)
    requires Legal(ops) && 1 <= m <= n <= |ops| && forall j :: m <= j < |ops| ==> ops[j].loaded >= m
    ensures m in Lineage(ops, n)
    decreases n
  {
    if n > m { AllDescend(ops, m, ops[n - 1].loaded); }
  }

  lemma {:induction false} StoredIsConsistent(c: Collection, ops: seq<Store>, n: nat)
    requires Legal(ops) && n <= |ops| && Consistent(c)
    ensures Consistent(Stored(c, ops, n))
    decreases n
  {
    if n > 0 {
      StoredIsConsistent(c, ops, ops[n - 1].loaded);
      RunIsConsistent(Stored(c, ops, ops[n - 1].loaded), ops[n - 1].steps);
    }
  }

  /** With any overlap of routes: an edit that store m left pending is pending in a later state that descends from
      it, with its value, exactly until Discogs holds or accepts it or the field is removed along that descent. */
  lemma EditSurvivesOverlaps(c: Collection, ops: seq<Store>, m: nat, n: nat, id: string)
    requires Legal(ops) && m <= n <= |ops| && m in Lineage(ops, n) && Consistent(c)
    requires Kept(Stored(c, ops, m), Since(ops, m, n), id)
    ensures var before, after := Stored(c, ops, m), Stored(c, ops, n);
            && (Pending(after, id) <==> Pending(before, id) && !Settled(before, Since(ops, m, n), id))
            && (Pending(after, id) ==> Get(after.values, id) == Get(before.values, id))
  {
    hide *;
    StoredFollowsLineage(c, ops, m, n);
    StoredIsConsistent(c, ops, m);
    EditSurvives(Stored(c, ops, m), Since(ops, m, n), id);
  }

  /** With any overlap of routes and whatever they save: of the saves that a state descends from, the last one that
      changes the field decides. */
  lemma LastEditDecidesOverlaps(c: Collection, ops: seq<Store>, n: nat, id: string)
    requires Legal(ops) && n <= |ops| && Consistent(c)
    ensures var es := Since(ops, 0, n);
            var k := LastChange(c, es, id);
            var s, end := Run(c, es[..k]), Stored(c, ops, n);
            && (Pending(end, id) <==> Pending(s, id) && !Settled(s, es[k..], id))
            && (Pending(end, id) ==> Get(end.values, id) == Get(s.values, id))
            && (k > 0 ==> es[k - 1].Edit? && id in es[k - 1].form
                          && Get(s.values, id) == Text.Strip(es[k - 1].form[id]))
  {
    StoredFollowsLineage(c, ops, 0, n);
    assert Stored(c, ops, 0) == c;
    hide *;
    LastEditDecides(c, Since(ops, 0, n), id);
  }

  /** A refresh that read the state before an edit was stored, and stores after it, overwrites the edit whatever it
      was, although the merge promises to keep local edits. */
  lemma OverlappingRefreshLosesEdit(c: Collection, form: map<string, string>, merge: Event)
    ensures var ops := [Store(0, [Edit(form)]), Store(0, [merge])];
            Legal(ops) && Stored(c, ops, 2) == Next(c, merge)
  {
    var ops := [Store(0, [Edit(form)]), Store(0, [merge])];
    assert Stored(c, ops, 0) == c && ops[1].loaded == 0 && ops[1].steps == [merge];
    RunOne(c, merge);
  }

  /** An edit of a field that was in step with Discogs, and a refresh that finds another value there: stored apart,
      the edit stays and is pending; overlapping, the value of Discogs replaces it and nothing is pending. */
  lemma RefreshLosesOrKeeps(c: Collection, form: map<string, string>, username: string, fields: seq<Field>,
                            instance: Option<Instance>, now: int, id: string)
    requires Consistent(c) && id in Ids(c.fields) && id in form && id in Ids(fields) && !Pending(c, id)
    requires var held := Get(NoteValues(Notes(instance)), id);
             Text.Strip(form[id]) != held && Text.Strip(form[id]) != Get(c.remote, id)
    ensures var refresh := Merge(username, fields, instance, now);
            var apart := Stored(c, [Store(0, [Edit(form)]), Store(1, [refresh])], 2);
            var overlapping := Stored(c, [Store(0, [Edit(form)]), Store(0, [refresh])], 2);
            && Get(apart.values, id) == Text.Strip(form[id]) && Pending(apart, id)
            && Get(overlapping.values, id) == Get(NoteValues(Notes(instance)), id) && !Pending(overlapping, id)
  {
    hide *;
    var refresh := Merge(username, fields, instance, now);
    OverlappingRefreshLosesEdit(c, form, refresh);
    SequentialRefresh(c, form, refresh);
    EditedPending(c, form, id);
    MergedHeld(c, username, fields, instance, now, id);
    MergedHeld(Edited(c, form), username, fields, instance, now, id);
  }

  lemma SequentialRefresh(c: Collection, form: map<string, string>, merge: Event)
    ensures var ops := [Store(0, [Edit(form)]), Store(1, [merge])];
            Legal(ops) && Stored(c, ops, 2) == Next(Edited(c, form), merge)
  {
    var ops := [Store(0, [Edit(form)]), Store(1, [merge])];
    assert Stored(c, ops, 0) == c && ops[0].loaded == 0 && ops[0].steps == [Edit(form)];
    assert ops[1].loaded == 1 && ops[1].steps == [merge];
    RunOne(c, Edit(form));
    RunOne(Edited(c, form), merge);
    assert Stored(c, ops, 1) == Edited(c, form);
  }

  lemma EditedPending(c: Collection, form: map<string, string>, id: string)
    requires Consistent(c) && id in Ids(c.fields) && id in form
    ensures var after := Edited(c, form);
            && Consistent(after) && Get(after.values, id) == Text.Strip(form[id])
            && (Pending(after, id) <==> Text.Strip(form[id]) != Get(c.remote, id))
  {
    EditStep(c, form, id);
  }

  lemma MergedHeld(c: Collection, username: string, fields: seq<Field>, instance: Option<Instance>, now: int,
                   id: string)
    requires Consistent(c) && id in Ids(fields)
    ensures var after := Next(c, Merge(username, fields, instance, now));
            var held := Get(NoteValues(Notes(instance)), id);
            && Get(after.values, id) == (if Pending(c, id) then Get(c.values, id) else held)
            && (Pending(after, id) <==> Pending(c, id) && Get(c.values, id) != held)
  {
    hide NoteValues, Pending;
    MergeKeepsEdits(c, username, fields, instance, now, id);
  }
}
