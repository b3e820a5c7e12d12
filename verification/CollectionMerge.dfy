/** Custom fields of a collected copy: three-way merge with Discogs, local edits, write-back. */
module CollectionMerge {
  import opened Text
  import opened Wrappers

  /** A field definition; `info` stands for type, options and position. */
  datatype Field = Field(id: string, name: string, info: string)

  /** One entry of `notes`; an entry without a field id is ignored. */
  datatype Note = Note(fieldId: Option<string>, value: string)

  datatype Instance = Instance(instanceId: Option<int>, folderId: Option<int>, notes: seq<Note>)

  /** The stored state: `values` are the local values, `remote` the last values known to be on Discogs. */
  datatype Collection = Collection(username: string, inCollection: bool, instanceId: Option<int>,
                                   folderId: Option<int>, fields: seq<Field>, values: map<string, string>,
                                   remote: map<string, string>, fetchedAt: int)

  function Get(m: map<string, string>, id: string): string { if id in m then m[id] else "" }

  predicate Truthy(id: Option<int>) { id.Some? && id.value != 0 }

  function Or(a: Option<int>, b: Option<int>): Option<int> { if Truthy(a) then a else b }

  function Ids(fields: seq<Field>): set<string> { set f | f in fields :: f.id }

  /** `collection_view`: an edit that Discogs does not have yet. */
  predicate Pending(c: Collection, id: string) { Get(c.values, id) != Get(c.remote, id) }

  // ---------------------------------------------------------------------------
  // Merging
  // ---------------------------------------------------------------------------

  /** Later notes win. */
  function NoteValues(notes: seq<Note>): map<string, string> {
    if notes == [] then map[]
    else
      var n := notes[|notes| - 1];
      var rest := NoteValues(notes[..|notes| - 1]);
      if n.fieldId.Some? then rest[n.fieldId.value := n.value] else rest
  }

  function Notes(instance: Option<Instance>): seq<Note> { if instance.Some? then instance.value.notes else [] }

  function MergedValue(existing: Option<Collection>, remote: map<string, string>, id: string): string {
    if existing.Some? && id in existing.value.values && existing.value.values[id] != Get(existing.value.remote, id)
    then existing.value.values[id]
    else Get(remote, id)
  }

  function Merged(existing: Option<Collection>, username: string, fields: seq<Field>, instance: Option<Instance>,
                  now: int): Collection {
    var remote := NoteValues(Notes(instance));
    var instanceId := if instance.Some? then instance.value.instanceId else None;
    var folderId := if instance.Some? then instance.value.folderId else None;
    Collection(
      username, instance.Some?,
      Or(instanceId, if existing.Some? then existing.value.instanceId else None),
      Or(folderId, if existing.Some? then existing.value.folderId else None),
      fields,
      MergedValues(existing, remote, Ids(fields)),
      RemoteValues(remote, Ids(fields)),
      now)
  }

  function MergedValues(existing: Option<Collection>, remote: map<string, string>, ids: set<string>)
    : map<string, string>
  {
    map id | id in ids :: MergedValue(existing, remote, id)
  }

  function RemoteValues(remote: map<string, string>, ids: set<string>): map<string, string> {
    map id | id in ids :: Get(remote, id)
  }

  lemma OneMore(existing: Option<Collection>, remote: map<string, string>, ids: set<string>, id: string)
    ensures MergedValues(existing, remote, ids + {id}) ==
            MergedValues(existing, remote, ids)[id := MergedValue(existing, remote, id)]
    ensures RemoteValues(remote, ids + {id}) == RemoteValues(remote, ids)[id := Get(remote, id)]
    ensures MergedValues(existing, remote, {}) == map[] && RemoteValues(remote, {}) == map[]
  {}

  method NotesToValues(notes: seq<Note>) returns (out: map<string, string>)
    ensures out == NoteValues(notes)
  {
    out := map[];
    for i := 0 to |notes|
      invariant out == NoteValues(notes[..i])
    {
      assert notes[..i + 1][..i] == notes[..i];
      if notes[i].fieldId.Some? { out := out[notes[i].fieldId.value := notes[i].value]; }
    }
    assert notes[..|notes|] == notes;
  }

  lemma IdsExtend(fields: seq<Field>, i: nat)
    requires i < |fields|
    ensures Ids(fields[..i + 1]) == Ids(fields[..i]) + {fields[i].id}
  {
    assert fields[..i + 1] == fields[..i] + [fields[i]];
  }

  /** `merge_collection`. */
  method MergeCollection(existing: Option<Collection>, username: string, fields: seq<Field>,
                         instance: Option<Instance>, now: int)
    returns (c: Collection)
    ensures c == Merged(existing, username, fields, instance, now)
  {
    var prevValues := if existing.Some? then existing.value.values else map[];
    var prevRemote := if existing.Some? then existing.value.remote else map[];
    var remote := NotesToValues(Notes(instance));
    var values: map<string, string> := map[];
    var seen: map<string, string> := map[];
    OneMore(existing, remote, {}, "");
    assert Ids(fields[..0]) == {};
    for i := 0 to |fields|
      invariant values == MergedValues(existing, remote, Ids(fields[..i]))
      invariant seen == RemoteValues(remote, Ids(fields[..i]))
    {
      hide MergedValues, RemoteValues, Ids, Get, NoteValues;
      var id := fields[i].id;
      IdsExtend(fields, i);
      OneMore(existing, remote, Ids(fields[..i]), id);
      if id in prevValues && prevValues[id] != Get(prevRemote, id) {
        values := values[id := prevValues[id]];
      } else {
        values := values[id := Get(remote, id)];
      }
      seen := seen[id := Get(remote, id)];
    }
    assert fields[..|fields|] == fields;
    var instanceId := if instance.Some? then instance.value.instanceId else None;
    var folderId := if instance.Some? then instance.value.folderId else None;
    c := Collection(username, instance.Some?,
                    Or(instanceId, if existing.Some? then existing.value.instanceId else None),
                    Or(folderId, if existing.Some? then existing.value.folderId else None),
                    fields, values, seen, now);
  }

  // ---------------------------------------------------------------------------
  // Local edits and write-back
  // ---------------------------------------------------------------------------

  /** The submitted values of these fields replace the stored ones. */
  function Overlay(values: map<string, string>, ids: set<string>, form: map<string, string>): map<string, string> {
    map id | id in values.Keys + (ids * form.Keys) :: if id in ids && id in form then Strip(form[id]) else values[id]
  }

  /** The submitted form is keyed by field id. */
  function Edited(c: Collection, form: map<string, string>): Collection {
    c.(values := Overlay(c.values, Ids(c.fields), form))
  }

  lemma OverlayStep(values: map<string, string>, ids: set<string>, form: map<string, string>, id: string)
    ensures Overlay(values, ids + {id}, form) ==
            if id in form then Overlay(values, ids, form)[id := Strip(form[id])] else Overlay(values, ids, form)
  {}

  /** The saving half of `discogs_collection_save`. */
  method SaveForm(c: Collection, form: map<string, string>) returns (r: Collection)
    ensures r == Edited(c, form)
  {
    var values := c.values;
    assert Overlay(c.values, {}, form) == c.values;
    for i := 0 to |c.fields|
      invariant values == Overlay(c.values, Ids(c.fields[..i]), form)
    {
      hide Overlay, Strip;
      var id := c.fields[i].id;
      IdsExtend(c.fields, i);
      OverlayStep(c.values, Ids(c.fields[..i]), form, id);
      if id in form { values := values[id := Strip(form[id])]; }
    }
    assert c.fields[..|c.fields|] == c.fields;
    r := c.(values := values);
  }

  function PendingOf(c: Collection, fields: seq<Field>): seq<Field> {
    if fields == [] then []
    else (if Pending(c, fields[0].id) then [fields[0]] else []) + PendingOf(c, fields[1..])
  }

  function PendingFields(c: Collection): seq<Field> { PendingOf(c, c.fields) }

  /** The remote values once the local values of these fields were sent. */
  function Sent(values: map<string, string>, remote: map<string, string>, fields: seq<Field>): map<string, string>
    decreases |fields|
  {
    if fields == [] then remote else Sent(values, remote[fields[0].id := Get(values, fields[0].id)], fields[1..])
  }

  function Min(a: nat, b: nat): nat { if a < b then a else b }

  /** Discogs accepts the first `accepted` of the pending fields and then fails. */
  function WrittenBack(c: Collection, accepted: nat): Collection {
    var pending := PendingFields(c);
    if !Truthy(c.instanceId) || !Truthy(c.folderId) || pending == [] then c
    else c.(remote := Sent(c.values, c.remote, pending[..Min(accepted, |pending|)]))
  }

  lemma PendingStep(c: Collection, i: nat)
    requires i < |c.fields|
    ensures PendingOf(c, c.fields[i..])
            == (if Pending(c, c.fields[i].id) then [c.fields[i]] else []) + PendingOf(c, c.fields[i + 1..])
  {
    assert c.fields[i..][1..] == c.fields[i + 1..];
  }

  method CollectPending(c: Collection) returns (pending: seq<Field>)
    ensures pending == PendingFields(c)
  {
    pending := [];
    for i := 0 to |c.fields|
      invariant pending + PendingOf(c, c.fields[i..]) == PendingFields(c)
    {
      hide PendingOf, Pending;
      PendingStep(c, i);
      ghost var rest := PendingOf(c, c.fields[i + 1..]);
      assert pending + ([c.fields[i]] + rest) == pending + [c.fields[i]] + rest;
      if Pending(c, c.fields[i].id) { pending := pending + [c.fields[i]]; }
    }
    assert c.fields[|c.fields|..] == [];
  }

  method Send(values: map<string, string>, before: map<string, string>, pending: seq<Field>, accepted: nat)
    returns (remote: map<string, string>, written: nat)
    ensures written == Min(accepted, |pending|) && remote == Sent(values, before, pending[..written])
  {
    remote, written := before, 0;
    ghost var all := pending[..Min(accepted, |pending|)];
    while written < |pending| && written < accepted
      invariant written <= |all|
      invariant Sent(values, remote, all[written..]) == Sent(values, before, all)
    {
      assert all[written] == pending[written] && all[written..][1..] == all[written + 1..];
      remote := remote[pending[written].id := Get(values, pending[written].id)];
      written := written + 1;
    }
    assert all[written..] == [];
  }

  /** `_write_back`; `written` is the number reported to the user. */
  method WriteBack(c: Collection, accepted: nat) returns (r: Collection, written: nat)
    ensures r == WrittenBack(c, accepted)
    ensures written == if Truthy(c.instanceId) && Truthy(c.folderId) then Min(accepted, |PendingFields(c)|) else 0
  {
    hide PendingOf, Sent;
    var pending := CollectPending(c);
    if !Truthy(c.instanceId) || !Truthy(c.folderId) { return c, 0; }
    if pending == [] { return c, 0; }
    var remote;
    remote, written := Send(c.values, c.remote, pending, accepted);
    r := c.(remote := remote);
  }

  // ---------------------------------------------------------------------------
  // One merge
  // ---------------------------------------------------------------------------

  /** Stored states hold a local and a remote value for exactly their fields. */
  predicate Consistent(c: Collection) { c.values.Keys == Ids(c.fields) == c.remote.Keys }

  /** After a merge a field is pending exactly when it was pending and its local value is not what Discogs now
      holds; then the local value is kept, and every other field of the new definition follows Discogs. */
  lemma MergeKeepsEdits(c: Collection, username: string, fields: seq<Field>, instance: Option<Instance>, now: int,
                        id: string)
    requires Consistent(c)
    ensures var after := Merged(Some(c), username, fields, instance, now);
            var held := Get(NoteValues(Notes(instance)), id);
            && Consistent(after)
            && (Pending(after, id) <==> id in Ids(fields) && Pending(c, id) && Get(c.values, id) != held)
            && (id in Ids(fields) ==> after.remote[id] == held)
            && (id in Ids(fields) ==> after.values[id] == if Pending(c, id) then Get(c.values, id) else held)
  {}

  /** The ids of the copy are those that Discogs gives, when it gives some that are not zero, and else stay; so does the
      rest of the state: it is in the collection when Discogs has an instance. */
  lemma MergeKeepsIds(c: Collection, username: string, fields: seq<Field>, instance: Option<Instance>, now: int)
    ensures var after := Merged(Some(c), username, fields, instance, now);
            && after.username == username && after.fields == fields && after.fetchedAt == now
            && (after.inCollection <==> instance.Some?)
            && (instance.None? ==> after.instanceId == c.instanceId && after.folderId == c.folderId)
            && (instance.Some? ==>
                  var i, f := instance.value.instanceId, instance.value.folderId;
                  && after.instanceId == (if i == None || i == Some(0) then c.instanceId else i)
                  && after.folderId == (if f == None || f == Some(0) then c.folderId else f))
  {}

  /** The first merge takes everything from Discogs. */
  lemma FirstMerge(username: string, fields: seq<Field>, instance: Option<Instance>, now: int, id: string)
    ensures var c := Merged(None, username, fields, instance, now);
            Consistent(c) && !Pending(c, id) && Get(c.values, id) == Get(c.remote, id)
            && (id in Ids(fields) ==> c.values[id] == Get(NoteValues(Notes(instance)), id))
  {}

  /** Merging the same Discogs state again changes only the time stamp, whatever was stored before. */
  lemma MergeTwice(existing: Option<Collection>, username: string, fields: seq<Field>, instance: Option<Instance>,
                   t1: int, t2: int)
    ensures Merged(Some(Merged(existing, username, fields, instance, t1)), username, fields, instance, t2)
            == Merged(existing, username, fields, instance, t2)
  {
    var once := Merged(existing, username, fields, instance, t1);
    var twice := Merged(Some(once), username, fields, instance, t2);
    var direct := Merged(existing, username, fields, instance, t2);
    assert twice.values == direct.values;
    assert twice.remote == direct.remote;
  }

  // ---------------------------------------------------------------------------
  // Write-back
  // ---------------------------------------------------------------------------

  lemma IdsCons(f: Field, rest: seq<Field>)
    ensures Ids([f] + rest) == {f.id} + Ids(rest) && Ids([]) == {}
  {}

  lemma SentStep(values: map<string, string>, remote: map<string, string>, fields: seq<Field>)
    requires fields != []
    ensures Sent(values, remote, fields) == Sent(values, remote[fields[0].id := Get(values, fields[0].id)], fields[1..])
    ensures Sent(values, remote, []) == remote && Ids([]) == {}
  {}

  lemma {:induction false} SentIs(values: map<string, string>, remote: map<string, string>, fields: seq<Field>,
                                  id: string)
    ensures Get(Sent(values, remote, fields), id) == if id in Ids(fields) then Get(values, id) else Get(remote, id)
    ensures Sent(values, remote, fields).Keys == remote.Keys + Ids(fields)
    decreases |fields|
  {
    if fields != [] {
      hide Sent, Ids;
      SentStep(values, remote, fields);
      SentIs(values, remote[fields[0].id := Get(values, fields[0].id)], fields[1..], id);
      IdsCons(fields[0], fields[1..]);
      assert fields == [fields[0]] + fields[1..];
    }
  }

  lemma {:induction false} PendingOfIs(c: Collection, fields: seq<Field>, id: string)
    ensures id in Ids(PendingOf(c, fields)) <==> id in Ids(fields) && Pending(c, id)
  {
    if fields != [] {
      PendingOfIs(c, fields[1..], id);
      assert fields == [fields[0]] + fields[1..];
      var tail := PendingOf(c, fields[1..]);
      assert Ids([fields[0]] + tail) == {fields[0].id} + Ids(tail);
      assert Ids(fields) == {fields[0].id} + Ids(fields[1..]);
    }
  }

  predicate UniqueIds(fields: seq<Field>) { forall i, j :: 0 <= i < j < |fields| ==> fields[i].id != fields[j].id }

  /** Exactly the first k pending fields stop being pending: the others are left, in order. */
  lemma {:induction false} PendingShrinks(c: Collection, after: Collection, fields: seq<Field>, k: nat)
    requires UniqueIds(fields) && k <= |PendingOf(c, fields)|
    requires forall f :: f in fields ==>
               (Pending(after, f.id) <==> Pending(c, f.id) && f.id !in Ids(PendingOf(c, fields)[..k]))
    ensures PendingOf(after, fields) == PendingOf(c, fields)[k..]
  {
    if fields != [] {
      hide Pending, Ids;
      var f, tail := fields[0], fields[1..];
      var rest := PendingOf(c, tail);
      var less := if Pending(c, f.id) && k > 0 then k - 1 else k;
      assert Pending(c, f.id) ==> PendingOf(c, fields) == [f] + rest;
      if Pending(c, f.id) {
        if k > 0 {
          FirstOfMore(f, rest, k);
          assert Pending(after, f.id) <==> false;
        } else {
          assert PendingOf(c, fields)[..k] == rest[..k] == [];
          IdsCons(f, []);
        }
      } else {
        assert PendingOf(c, fields) == rest;
      }
      PendingShrinks(c, after, tail, less);
    }
  }

  lemma FirstOfMore(f: Field, rest: seq<Field>, k: nat)
    requires 0 < k <= |rest| + 1
    ensures Ids(([f] + rest)[..k]) == {f.id} + Ids(rest[..k - 1]) && ([f] + rest)[k..] == rest[k - 1..]
  {
    assert ([f] + rest)[..k] == [f] + rest[..k - 1];
  }

  lemma WrittenPending(c: Collection, accepted: nat, id: string)
    requires Truthy(c.instanceId) && Truthy(c.folderId)
    ensures var after := WrittenBack(c, accepted); var p := PendingFields(c);
            && (Pending(after, id) <==> Pending(c, id) && id !in Ids(p[..Min(accepted, |p|)]))
            && after.values == c.values && after.fields == c.fields
  {
    var p := PendingFields(c);
    if p == [] { assert Ids(p) == {}; } else { SentIs(c.values, c.remote, p[..Min(accepted, |p|)], id); }
  }

  /** Without an instance id and a folder id, none or zero, nothing is sent. */
  lemma NothingSentWithoutIds(c: Collection, accepted: nat)
    requires c.instanceId == None || c.instanceId == Some(0) || c.folderId == None || c.folderId == Some(0)
    ensures WrittenBack(c, accepted) == c
  {}

  /** Writing back takes exactly the accepted fields off the pending list, in order, and changes no local
      value: a failure half-way leaves precisely the rest to be written again. */
  lemma WriteBackShrinks(c: Collection, accepted: nat)
    requires c.instanceId.Some? && c.instanceId.value != 0 && c.folderId.Some? && c.folderId.value != 0
    requires UniqueIds(c.fields)
    ensures var after := WrittenBack(c, accepted); var p := PendingFields(c);
            && PendingFields(after) == (if accepted < |p| then p[accepted..] else [])
            && after.values == c.values && after.fields == c.fields
  {
    assert Truthy(c.instanceId) && Truthy(c.folderId);
    hide WrittenBack, PendingOf, UniqueIds, Pending, Ids, Truthy;
    var after, p := WrittenBack(c, accepted), PendingFields(c);
    WrittenPending(c, accepted, "");
    forall f | f in c.fields
      ensures Pending(after, f.id) <==> Pending(c, f.id) && f.id !in Ids(p[..Min(accepted, |p|)])
    {
      WrittenPending(c, accepted, f.id);
    }
    PendingShrinks(c, after, c.fields, Min(accepted, |p|));
  }

  // ---------------------------------------------------------------------------
  // Runs
  // ---------------------------------------------------------------------------

  datatype Event = Edit(form: map<string, string>)
                 | Write(accepted: nat)
                 | Merge(username: string, fields: seq<Field>, instance: Option<Instance>, now: int)

  function Next(c: Collection, e: Event): Collection {
    match e
    case Edit(form) => Edited(c, form)
    case Write(accepted) => WrittenBack(c, accepted)
    case Merge(username, fields, instance, now) => Merged(Some(c), username, fields, instance, now)
  }

  function Run(c: Collection, es: seq<Event>): Collection
    decreases |es|
  {
    if es == [] then c else Run(Next(c, es[0]), es[1..])
  }

  /** The event removes the field, or Discogs holds or accepts the local value. */
  predicate Settles(c: Collection, e: Event, id: string) {
    match e
    case Edit(_) => false
    case Write(accepted) =>
      var p := PendingFields(c);
      Truthy(c.instanceId) && Truthy(c.folderId) && id in Ids(p[..Min(accepted, |p|)])
    case Merge(_, fields, instance, _) =>
      id !in Ids(fields) || Get(NoteValues(Notes(instance)), id) == Get(c.values, id)
  }

  predicate Settled(c: Collection, es: seq<Event>, id: string)
    decreases |es|
  {
    es != [] && (Settles(c, es[0], id) || Settled(Next(c, es[0]), es[1..], id))
  }

  /** The event does not change the local value: a submitted form may hold the field, as the edit form does for every
      field, with a value that is the stored one once it is stripped. */
  predicate Keeps(c: Collection, e: Event, id: string) {
    e.Edit? && id in Ids(c.fields) && id in e.form ==> Strip(e.form[id]) == Get(c.values, id)
  }

  predicate Kept(c: Collection, es: seq<Event>, id: string)
    decreases |es|
  {
    es == [] || (Keeps(c, es[0], id) && Kept(Next(c, es[0]), es[1..], id))
  }

  lemma PendingAreFields(c: Collection, k: nat)
    requires k <= |PendingFields(c)|
    ensures Ids(PendingFields(c)[..k]) <= Ids(c.fields)
  {
    var p := PendingFields(c);
    forall f | f in p[..k] ensures f.id in Ids(c.fields) {
      assert f in p && f.id in Ids(p);
      PendingOfIs(c, c.fields, f.id);
    }
  }

  lemma WriteStep(c: Collection, accepted: nat, id: string)
    requires Consistent(c)
    ensures var after := WrittenBack(c, accepted);
            && Consistent(after) && after.values == c.values
            && (Pending(after, id) <==> Pending(c, id) && !Settles(c, Write(accepted), id))
  {
    hide PendingOf, Sent, Pending, Ids;
    var p := PendingFields(c);
    var k := Min(accepted, |p|);
    PendingAreFields(c, k);
    if Truthy(c.instanceId) && Truthy(c.folderId) { WrittenPending(c, accepted, id); }
    if p != [] { SentIs(c.values, c.remote, p[..k], id); }
  }

  lemma EditStep(c: Collection, form: map<string, string>, id: string)
    requires Consistent(c)
    ensures var after := Edited(c, form);
            && Consistent(after) && after.remote == c.remote
            && Get(after.values, id) == if id in Ids(c.fields) && id in form then Strip(form[id]) else Get(c.values, id)
  {}

  lemma StepOf(c: Collection, e: Event, id: string)
    requires Consistent(c) && Keeps(c, e, id)
    ensures Consistent(Next(c, e))
    ensures Pending(Next(c, e), id) <==> Pending(c, id) && !Settles(c, e, id)
    ensures Pending(Next(c, e), id) ==> Get(Next(c, e).values, id) == Get(c.values, id)
  {
    match e
    case Edit(form) => EditStep(c, form, id);
    case Write(accepted) => WriteStep(c, accepted, id);
    case Merge(username, fields, instance, now) => MergeKeepsEdits(c, username, fields, instance, now, id);
  }

  /** A local edit survives any run of merges, write-backs and saves that keep its value, exactly until Discogs
      holds or accepts that value or the field is removed; a clean field stays clean. */
  lemma {:induction false} EditSurvives(c: Collection, es: seq<Event>, id: string)
    requires Consistent(c) && Kept(c, es, id)
    ensures Consistent(Run(c, es))
    ensures Pending(Run(c, es), id) <==> Pending(c, id) && !Settled(c, es, id)
    ensures Pending(Run(c, es), id) ==> Get(Run(c, es).values, id) == Get(c.values, id)
    decreases |es|
  {
    if es != [] {
      hide Next, Consistent, Pending, Settles, Keeps;
      StepOf(c, es[0], id);
      EditSurvives(Next(c, es[0]), es[1..], id);
    }
  }

  lemma {:induction false} RunIsConsistent(c: Collection, es: seq<Event>)
    requires Consistent(c)
    ensures Consistent(Run(c, es))
    decreases |es|
  {
    if es != [] {
      hide Consistent, Edited, WrittenBack, Merged;
      match es[0] {
        case Edit(form) => EditStep(c, form, "");
        case Write(accepted) => WriteStep(c, accepted, "");
        case Merge(username, fields, instance, now) => MergeKeepsEdits(c, username, fields, instance, now, "");
      }
      RunIsConsistent(Next(c, es[0]), es[1..]);
    }
  }

  /** How many events there are up to the last save that changes the local value of the field, or 0. */
  function LastChange(c: Collection, es: seq<Event>, id: string): (k: nat)
    ensures k <= |es|
    decreases |es|
  {
    if es == [] then 0
    else
      var k := LastChange(Next(c, es[0]), es[1..], id);
      if k > 0 then k + 1 else if Keeps(c, es[0], id) then 0 else 1
  }

  lemma {:induction false} KeptAfterLastChange(c: Collection, es: seq<Event>, id: string)
    requires Consistent(c)
    ensures var k := LastChange(c, es, id);
            var s := Run(c, es[..k]);
            && Consistent(s) && Run(c, es) == Run(s, es[k..]) && Kept(s, es[k..], id)
            && (k > 0 ==> es[k - 1].Edit? && id in es[k - 1].form && Get(s.values, id) == Strip(es[k - 1].form[id]))
    decreases |es|
  {
    if es == [] {
      assert es[..0] == [] && es[0..] == [];
    } else {
      var next, rest := Next(c, es[0]), es[1..];
      var k := LastChange(next, rest, id);
      RunIsConsistent(c, [es[0]]);
      RunOne(c, es[0]);
      KeptAfterLastChange(next, rest, id);
      assert es[..0] == [] && es[0..] == es && rest[..0] == [] && rest[0..] == rest;
      if k > 0 {
        assert es[..k + 1][0] == es[0] && es[..k + 1][1..] == rest[..k] && es[k + 1..] == rest[k..];
      } else if !Keeps(c, es[0], id) {
        assert es[..1] == [es[0]];
        EditStep(c, es[0].form, id);
      }
    }
  }

  lemma RunOne(c: Collection, e: Event)
    ensures Run(c, [e]) == Next(c, e)
  {
    assert [e][1..] == [] && Run(Next(c, e), []) == Next(c, e);
  }

  /** Over every run, without exception: the last save that changes the field decides.  The field is pending at the
      end if and only if that save left it pending and nothing has settled it since, and then with the saved value. */
  lemma LastEditDecides(c: Collection, es: seq<Event>, id: string)
    requires Consistent(c)
    ensures var k := LastChange(c, es, id);
            var s, end := Run(c, es[..k]), Run(c, es);
            && (Pending(end, id) <==> Pending(s, id) && !Settled(s, es[k..], id))
            && (Pending(end, id) ==> Get(end.values, id) == Get(s.values, id))
            && (k > 0 ==> es[k - 1].Edit? && id in es[k - 1].form && Get(s.values, id) == Strip(es[k - 1].form[id]))
  {
    hide *;
    KeptAfterLastChange(c, es, id);
    EditSurvives(Run(c, es[..LastChange(c, es, id)]), es[LastChange(c, es, id)..], id);
  }

  /** From the first merge on, over any run whose saves keep the value of a field, it is never pending: it shows what
      was last known to be on Discogs. */
  lemma UneditedFollowsDiscogs(username: string, fields: seq<Field>, instance: Option<Instance>, now: int,
                               es: seq<Event>, id: string)
    requires Kept(Merged(None, username, fields, instance, now), es, id)
    ensures var c := Run(Merged(None, username, fields, instance, now), es);
            Consistent(c) && Get(c.values, id) == Get(c.remote, id)
  {
    FirstMerge(username, fields, instance, now, id);
    hide Merged, Consistent, Run;
    EditSurvives(Merged(None, username, fields, instance, now), es, id);
  }

  // ---------------------------------------------------------------------------
  // Saves that resubmit what the form showed
  // ---------------------------------------------------------------------------

  /** Every save leaves the field out or sends back the value that is stored. */
  predicate Resubmits(c: Collection, es: seq<Event>, id: string)
    decreases |es|
  {
    es == []
    || ((es[0].Edit? && id in es[0].form ==> es[0].form[id] == Get(c.values, id))
        && Resubmits(Next(c, es[0]), es[1..], id))
  }

  predicate StaysClean(c: Collection, es: seq<Event>, id: string)
    decreases |es|
  {
    !Pending(c, id) && (es == [] || StaysClean(Next(c, es[0]), es[1..], id))
  }

  /** Sending back the shown value of a clean field makes it pending if and only if stripping changes that value. */
  lemma ResubmittingExactly(c: Collection, form: map<string, string>, id: string)
    requires Consistent(c) && !Pending(c, id) && id in Ids(c.fields) && id in form && form[id] == Get(c.values, id)
    ensures Pending(Edited(c, form), id) <==> Strip(Get(c.values, id)) != Get(c.values, id)
  {
    EditStep(c, form, id);
  }

  /** Over any run in which nobody changes a field in the form, it stays clean if and only if no save resubmits a
      value that stripping changes. */
  lemma {:induction false} StaysCleanExactly(c: Collection, es: seq<Event>, id: string)
    requires Consistent(c) && !Pending(c, id) && Resubmits(c, es, id)
    ensures StaysClean(c, es, id) <==> Kept(c, es, id)
    decreases |es|
  {
    if es != [] {
      RunIsConsistent(c, [es[0]]);
      RunOne(c, es[0]);
      hide Consistent, Pending, Edited, Settles, Merged, WrittenBack, Strip;
      if Keeps(c, es[0], id) {
        StepOf(c, es[0], id);
        StaysCleanExactly(Next(c, es[0]), es[1..], id);
      } else {
        ResubmittingExactly(c, es[0].form, id);
      }
    }
  }

  /** A value with an outer blank, taken over from Discogs: saving the form with nothing changed makes it pending. */
  lemma OuterBlankBecomesPending()
    ensures var fields := [Field("1", "Notes", "")];
            var instance := Instance(Some(7), Some(1), [Note(Some("1"), " signed")]);
            var c := Merged(None, "u", fields, Some(instance), 0);
            !Pending(c, "1") && Get(c.values, "1") == " signed" && Pending(Edited(c, map["1" := " signed"]), "1")
  {
    var fields := [Field("1", "Notes", "")];
    var notes := [Note(Some("1"), " signed")];
    var instance := Instance(Some(7), Some(1), notes);
    var c := Merged(None, "u", fields, Some(instance), 0);
    assert fields[0].id in Ids(fields);
    assert notes[..0] == [] && NoteValues(notes) == map["1" := " signed"];
    StripShortens(" signed");
    hide Merged, Edited, Consistent, Pending, NoteValues, Strip, Ids;
    FirstMerge("u", fields, Some(instance), 0, "1");
    ResubmittingExactly(c, map["1" := " signed"], "1");
  }

  lemma StripShortens(s: string)
    requires s != "" && IsSpace(s[0])
    ensures |Strip(s)| < |s|
  {
    StripLeftShrinks(s[1..]);
    StripRightShrinks(StripLeft(s));
  }

  /** A form that was opened before a newer edit puts the value it showed back, whatever the newer edit was. */
  lemma StaleFormPutsBack(c: Collection, newer: map<string, string>, stale: map<string, string>, id: string)
    requires Consistent(c) && id in Ids(c.fields) && id in stale
    ensures Get(Edited(Edited(c, newer), stale).values, id) == Strip(stale[id])
    ensures Pending(Edited(Edited(c, newer), stale), id) <==> Strip(stale[id]) != Get(c.remote, id)
  {
    hide Strip;
    EditStep(c, newer, id);
    EditStep(Edited(c, newer), stale, id);
  }

  // ---------------------------------------------------------------------------
  // The view
  // ---------------------------------------------------------------------------

  datatype ViewField = ViewField(field: Field, value: string, key: Option<string>, pending: bool)

  function ViewOf(c: Collection, classify: string -> Option<string>, f: Field): ViewField {
    ViewField(f, Get(c.values, f.id), classify(f.name), Pending(c, f.id))
  }

  /** Values of the well-known fields; the first non-empty one counts. */
  function Known(fields: seq<ViewField>): map<string, string> {
    if fields == [] then map[]
    else
      var f := fields[|fields| - 1];
      var rest := Known(fields[..|fields| - 1]);
      if f.key.Some? && f.value != "" && f.key.value !in rest then rest[f.key.value := f.value] else rest
  }

  predicate Holds(f: ViewField, key: string) { f.key == Some(key) && f.value != "" }

  lemma {:induction false} KnownIsFirst(fields: seq<ViewField>, key: string)
    ensures key in Known(fields) <==> exists i :: 0 <= i < |fields| && Holds(fields[i], key)
    ensures forall i :: 0 <= i < |fields| && Holds(fields[i], key)
                        && (forall j :: 0 <= j < i ==> !Holds(fields[j], key))
                        ==> key in Known(fields) && Known(fields)[key] == fields[i].value
  {
    if fields != [] {
      var n := |fields| - 1;
      var front := fields[..n];
      KnownIsFirst(front, key);
      assert forall i :: 0 <= i < n ==> front[i] == fields[i];
    }
  }

  lemma {:induction false} PendingOfConcat(c: Collection, a: seq<Field>, b: seq<Field>)
    ensures PendingOf(c, a + b) == PendingOf(c, a) + PendingOf(c, b)
  {
    if a == [] {
      assert a + b == b;
    } else {
      assert (a + b)[1..] == a[1..] + b;
      PendingOfConcat(c, a[1..], b);
    }
  }

  lemma ViewStep(c: Collection, i: nat, fields: seq<ViewField>, f: ViewField)
    requires i < |c.fields| && f.pending == Pending(c, c.fields[i].id)
    ensures |PendingOf(c, c.fields[..i + 1])| == |PendingOf(c, c.fields[..i])| + if f.pending then 1 else 0
    ensures var known := Known(fields);
            Known(fields + [f]) == if f.key.Some? && f.value != "" && f.key.value !in known
                                   then known[f.key.value := f.value] else known
  {
    hide Pending;
    PendingOfConcat(c, c.fields[..i], [c.fields[i]]);
    assert c.fields[..i + 1] == c.fields[..i] + [c.fields[i]];
    assert (fields + [f])[..|fields|] == fields;
  }

  /** `collection_view`; recognising well-known field names is a parameter. */
  method View(c: Collection, classify: string -> Option<string>)
    returns (fields: seq<ViewField>, known: map<string, string>, pending: nat)
    ensures |fields| == |c.fields| && forall i :: 0 <= i < |fields| ==> fields[i] == ViewOf(c, classify, c.fields[i])
    ensures pending == |PendingFields(c)|
    ensures known == Known(fields)
  {
    fields, known, pending := [], map[], 0;
    for i := 0 to |c.fields|
      invariant |fields| == i && forall j :: 0 <= j < i ==> fields[j] == ViewOf(c, classify, c.fields[j])
      invariant pending == |PendingOf(c, c.fields[..i])|
      invariant known == Known(fields)
    {
      var f := ViewOf(c, classify, c.fields[i]);
      hide PendingOf, Known, Pending, Get;
      ViewStep(c, i, fields, f);
      if f.pending { pending := pending + 1; }
      fields := fields + [f];
      if f.key.Some? && f.value != "" && f.key.value !in known { known := known[f.key.value := f.value]; }
    }
    assert c.fields[..|c.fields|] == c.fields;
  }
}
