/** False alarms of the drift check: when the order of the fields alone changes a schema. */
module SchemaOrder {
  import opened SchemaDrift

  /** One assignment of a type name to a path. */
  datatype Write = Write(path: string, name: string)

  predicate Touches(ws: set<Write>, x: string) { exists w :: w in ws && w.path == x }

  /** What a container writes: its own path, unless something in it always overwrites that, and what is in it. */
  function Around(at: string, name: string, inner: set<Write>): set<Write> {
    if Touches(inner, at) then inner else inner + {Write(at, name)}
  }

  function EntryWrites(at: string, v: Json): set<Write>
    decreases v, 1
  {
    match v
    case Obj(fields) => Around(at, TypeName(v), Writes(fields, at))
    case List(items) =>
      if items == [] then {Write(at, TypeName(v))} else Around(at, TypeName(v), ElementWrites(at + ".0", items[0]))
    case _ => {Write(at, TypeName(v))}
  }

  function ElementWrites(at: string, v: Json): set<Write>
    decreases v, 1
  {
    if v.Obj? then Around(at, TypeName(v), Writes(v.fields, at)) else {Write(at, TypeName(v))}
  }

  /** All assignments that `extract_schema` makes and that some order of the fields can leave standing. */
  function Writes(fields: Fields, prefix: string): set<Write>
    decreases fields, 0
  {
    if fields == [] then {}
    else
      var Field(key, value) := fields[|fields| - 1];
      Writes(fields[..|fields| - 1], prefix) + EntryWrites(Path(prefix, key), value)
  }

  function FieldWrites(f: Field, prefix: string): set<Write> { EntryWrites(Path(prefix, f.key), f.value) }

  lemma {:induction false} WrittenByFields(fields: Fields, prefix: string, w: Write)
    ensures w in Writes(fields, prefix) <==> exists i :: 0 <= i < |fields| && w in FieldWrites(fields[i], prefix)
    decreases |fields|
  {
    if fields != [] {
      hide EntryWrites;
      var n := |fields| - 1;
      var front := fields[..n];
      WrittenByFields(front, prefix, w);
      assert forall i :: 0 <= i < n ==> front[i] == fields[i];
      if w in EntryWrites(Path(prefix, fields[n].key), fields[n].value) { assert w in FieldWrites(fields[n], prefix); }
    }
  }

  // ---------------------------------------------------------------------------
  // A schema holds one of the writes for each path
  // ---------------------------------------------------------------------------

  /** The map has exactly the paths that are written, each with one of its writes. */
  predicate Holds(m: map<string, string>, ws: set<Write>) {
    && (forall x :: x in m ==> Write(x, m[x]) in ws)
    && (forall w :: w in ws ==> w.path in m)
  }

  lemma HoldsAround(at: string, name: string, m: map<string, string>, inner: set<Write>)
    requires Holds(m, inner)
    ensures Holds(map[at := name] + m, Around(at, name, inner))
    ensures at in m <==> Touches(inner, at)
  {
    if at in m { assert Write(at, m[at]) in inner; }
  }

  lemma HoldsBoth(m: map<string, string>, ws: set<Write>, n: map<string, string>, xs: set<Write>)
    requires Holds(m, ws) && Holds(n, xs)
    ensures Holds(m + n, ws + xs)
  {}

  lemma {:induction false} SchemaIsWritten(fields: Fields, prefix: string)
    ensures Holds(Schema(fields, prefix), Writes(fields, prefix))
    decreases fields, 0
  {
    if fields != [] {
      var n := |fields| - 1;
      SchemaIsWritten(fields[..n], prefix);
      EntryIsWritten(Path(prefix, fields[n].key), fields[n].value);
      HoldsBoth(Schema(fields[..n], prefix), Writes(fields[..n], prefix),
                Entry(Path(prefix, fields[n].key), fields[n].value),
                EntryWrites(Path(prefix, fields[n].key), fields[n].value));
    }
  }

  lemma {:induction false} EntryIsWritten(at: string, v: Json)
    ensures Holds(Entry(at, v), EntryWrites(at, v))
    decreases v, 1
  {
    if v.Obj? {
      SchemaIsWritten(v.fields, at);
      HoldsAround(at, TypeName(v), Schema(v.fields, at), Writes(v.fields, at));
    }
    if v.List? && v.items != [] {
      ElementIsWritten(at + ".0", v.items[0]);
      HoldsAround(at, TypeName(v), Element(at + ".0", v.items[0]), ElementWrites(at + ".0", v.items[0]));
    }
  }

  lemma {:induction false} ElementIsWritten(at: string, v: Json)
    ensures Holds(Element(at, v), ElementWrites(at, v))
    decreases v, 1
  {
    if v.Obj? {
      SchemaIsWritten(v.fields, at);
      HoldsAround(at, TypeName(v), Schema(v.fields, at), Writes(v.fields, at));
    }
  }

  // ---------------------------------------------------------------------------
  // The shape determines the writes
  // ---------------------------------------------------------------------------

  lemma {:induction false} SameWrites(f: Fields, g: Fields, prefix: string)
    requires SameFields(f, g)
    ensures Writes(f, prefix) == Writes(g, prefix)
    decreases f, 0
  {
    hide Writes, EntryWrites;
    forall i, j | 0 <= i < |f| && 0 <= j < |g| && f[i].key == g[j].key
      ensures FieldWrites(f[i], prefix) == FieldWrites(g[j], prefix)
    {
      SameEntryWrites(Path(prefix, f[i].key), f[i].value, g[j].value);
    }
    forall w ensures w in Writes(f, prefix) <==> w in Writes(g, prefix) {
      WrittenByFields(f, prefix, w);
      WrittenByFields(g, prefix, w);
      if w in Writes(f, prefix) {
        var i :| 0 <= i < |f| && w in FieldWrites(f[i], prefix);
        var j :| 0 <= j < |g| && g[j].key == f[i].key;
        assert w in FieldWrites(g[j], prefix);
      }
      if w in Writes(g, prefix) {
        var j :| 0 <= j < |g| && w in FieldWrites(g[j], prefix);
        var i :| 0 <= i < |f| && f[i].key == g[j].key;
        assert w in FieldWrites(f[i], prefix);
      }
    }
  }

  lemma {:induction false} SameEntryWrites(at: string, v: Json, w: Json)
    requires SameShape(v, w)
    ensures EntryWrites(at, v) == EntryWrites(at, w)
    decreases v, 1
  {
    if v.Obj? && w.Obj? { SameWrites(v.fields, w.fields, at); }
    if v.List? && w.List? && v.items != [] && w.items != [] { SameElementWrites(at + ".0", v.items[0], w.items[0]); }
  }

  lemma {:induction false} SameElementWrites(at: string, v: Json, w: Json)
    requires SameElement(v, w)
    ensures ElementWrites(at, v) == ElementWrites(at, w)
    decreases v, 1
  {
    if v.Obj? && w.Obj? { SameWrites(v.fields, w.fields, at); }
  }

  // ---------------------------------------------------------------------------
  // Any write can be made the last one
  // ---------------------------------------------------------------------------

  /** Every visited object has each key once, as JSON objects have. */
  predicate Proper(fields: Fields)
    decreases fields, 0
  {
    DistinctKeys(fields) && forall i :: 0 <= i < |fields| ==> ProperValue(fields[i].value)
  }

  predicate ProperValue(v: Json)
    decreases v, 1
  {
    && (v.Obj? ==> Proper(v.fields))
    && (v.List? && v.items != [] && v.items[0].Obj? ==> Proper(v.items[0].fields))
  }

  lemma {:induction false} SameAsItself(f: Fields)
    requires Proper(f)
    ensures SameFields(f, f)
    decreases f, 0
  {
    forall i, j | 0 <= i < |f| && 0 <= j < |f| && f[i].key == f[j].key ensures SameShape(f[i].value, f[j].value) {
      assert i == j;
      ShapeOfItself(f[i].value);
    }
    assert forall i :: 0 <= i < |f| ==> HasKey(f, f[i].key);
  }

  lemma {:induction false} ShapeOfItself(v: Json)
    requires ProperValue(v)
    ensures SameShape(v, v)
    decreases v, 1
  {
    if v.Obj? { SameAsItself(v.fields); }
    if v.List? && v.items != [] && v.items[0].Obj? { SameAsItself(v.items[0].fields); }
  }

  function Moved(f: Fields, i: nat, v: Json): Fields
    requires i < |f|
  {
    f[..i] + f[i + 1..] + [Field(f[i].key, v)]
  }

  lemma MovedAt(f: Fields, i: nat, v: Json)
    requires i < |f|
    ensures var g, n := Moved(f, i, v), |f| - 1;
            |g| == |f| && g[n] == Field(f[i].key, v) && forall j :: 0 <= j < n ==> g[j] == f[if j < i then j else j + 1]
    ensures forall k :: HasKey(f, k) <==> HasKey(Moved(f, i, v), k)
  {
    var g, n := Moved(f, i, v), |f| - 1;
    forall k | HasKey(f, k) ensures HasKey(g, k) {
      var j :| 0 <= j < |f| && f[j].key == k;
      assert g[if j < i then j else if j == i then n else j - 1].key == k;
    }
    forall k | HasKey(g, k) ensures HasKey(f, k) {
      var j :| 0 <= j < |g| && g[j].key == k;
      assert f[if j == n then i else if j < i then j else j + 1].key == k;
    }
  }

  lemma MovedIsProper(f: Fields, i: nat, v: Json)
    requires Proper(f) && i < |f| && ProperValue(v)
    ensures Proper(Moved(f, i, v))
  {
    MovedAt(f, i, v);
    hide HasKey, Moved, ProperValue;
  }

  lemma MovedIsSame(f: Fields, i: nat, v: Json)
    requires Proper(f) && i < |f| && SameShape(f[i].value, v)
    ensures SameFields(f, Moved(f, i, v))
  {
    var g := Moved(f, i, v);
    MovedAt(f, i, v);
    hide SameShape, ProperValue, Moved;
    forall j, k | 0 <= j < |f| && 0 <= k < |g| && f[j].key == g[k].key ensures SameShape(f[j].value, g[k].value) {
      if k < |f| - 1 { ShapeOfItself(f[j].value); }
    }
    hide Proper;
    forall j | 0 <= j < |f| ensures HasKey(g, f[j].key) { HasOwnKey(f, j); }
    forall j | 0 <= j < |g| ensures HasKey(f, g[j].key) { HasOwnKey(g, j); }
  }

  lemma HasOwnKey(f: Fields, j: nat)
    requires j < |f|
    ensures HasKey(f, f[j].key)
  {}

  /** A payload of the same shape whose schema holds the given write. */
  lemma {:induction false} WrittenLast(f: Fields, prefix: string, w: Write) returns (g: Fields)
    requires Proper(f) && w in Writes(f, prefix)
    ensures SameFields(f, g) && Proper(g) && w.path in Schema(g, prefix) && Schema(g, prefix)[w.path] == w.name
    decreases f, 0
  {
    hide Writes, EntryWrites, Entry, SameFields;
    WrittenByFields(f, prefix, w);
    var i :| 0 <= i < |f| && w in FieldWrites(f[i], prefix);
    var v := WrittenLastIn(Path(prefix, f[i].key), f[i].value, w);
    g := Moved(f, i, v);
    MovedIsSame(f, i, v);
    MovedIsProper(f, i, v);
    SchemaSnoc(g, |g| - 1, prefix);
    assert g[..|g|] == g && g[..|g| - 1 + 1] == g;
  }

  lemma {:induction false} WrittenLastIn(at: string, v: Json, w: Write) returns (r: Json)
    requires ProperValue(v) && w in EntryWrites(at, v)
    ensures SameShape(v, r) && ProperValue(r) && w.path in Entry(at, r) && Entry(at, r)[w.path] == w.name
    decreases v, 1
  {
    r := v;
    ShapeOfItself(v);
    if v.Obj? {
      if w in Writes(v.fields, at) {
        var fields := WrittenLast(v.fields, at, w);
        r := Obj(fields);
      } else {
        SchemaIsWritten(v.fields, at);
        HoldsAround(at, TypeName(v), Schema(v.fields, at), Writes(v.fields, at));
      }
    }
    if v.List? && v.items != [] {
      if w in ElementWrites(at + ".0", v.items[0]) {
        var first := WrittenLastInside(at + ".0", v.items[0], w);
        r := List([first] + v.items[1..]);
      } else {
        ElementIsWritten(at + ".0", v.items[0]);
        HoldsAround(at, TypeName(v), Element(at + ".0", v.items[0]), ElementWrites(at + ".0", v.items[0]));
      }
    }
  }

  lemma {:induction false} WrittenLastInside(at: string, v: Json, w: Write) returns (r: Json)
    requires (v.Obj? ==> Proper(v.fields)) && w in ElementWrites(at, v)
    ensures SameElement(v, r) && (r.Obj? ==> Proper(r.fields)) && w.path in Element(at, r)
            && Element(at, r)[w.path] == w.name
    decreases v, 1
  {
    r := v;
    if v.Obj? {
      SameAsItself(v.fields);
      if w in Writes(v.fields, at) {
        var fields := WrittenLast(v.fields, at, w);
        r := Obj(fields);
      } else {
        SchemaIsWritten(v.fields, at);
        HoldsAround(at, TypeName(v), Schema(v.fields, at), Writes(v.fields, at));
      }
    }
  }

  // ---------------------------------------------------------------------------
  // The exact condition
  // ---------------------------------------------------------------------------

  /** No path is written with two type names. */
  predicate Unclashing(ws: set<Write>) {
    forall w, x :: w in ws && x in ws && w.path == x.path ==> w.name == x.name
  }

  /** For any payload: its shape alone determines its schema, so that no order of the fields raises a false alarm, if
      and only if it writes no path with two type names. */
  lemma OrderMattersExactly(f: Fields)
    requires Proper(f)
    ensures (forall g :: Proper(g) && SameFields(f, g) ==> Schema(f, "") == Schema(g, ""))
            <==> Unclashing(Writes(f, ""))
  {
    if Unclashing(Writes(f, "")) {
      forall g | Proper(g) && SameFields(f, g) ensures Schema(f, "") == Schema(g, "") { OrderIsFree(f, g); }
    } else {
      var g := FalseAlarm(f);
      assert Proper(g) && SameFields(f, g);
    }
  }

  lemma OrderIsFree(f: Fields, g: Fields)
    requires SameFields(f, g) && Unclashing(Writes(f, ""))
    ensures Schema(f, "") == Schema(g, "")
  {
    hide Schema, Writes, SameFields;
    SameWrites(f, g, "");
    SchemaIsWritten(f, "");
    SchemaIsWritten(g, "");
  }

  /** With a clash some payload of the same shape has another schema. */
  lemma FalseAlarm(f: Fields) returns (g: Fields)
    requires Proper(f) && !Unclashing(Writes(f, ""))
    ensures Proper(g) && SameFields(f, g) && Schema(f, "") != Schema(g, "")
  {
    hide Schema, Writes, SameFields, Proper;
    var w, x :| w in Writes(f, "") && x in Writes(f, "") && w.path == x.path && w.name != x.name;
    SchemaIsWritten(f, "");
    g := WrittenLast(f, "", if Schema(f, "")[w.path] == w.name then x else w);
  }

  /** Plain keys never clash. */
  lemma PlainNeverClashes(f: Fields)
    requires Plain(f)
    ensures Unclashing(Writes(f, ""))
  {
    PlainIsProper(f);
    forall g | Proper(g) && SameFields(f, g) ensures Schema(f, "") == Schema(g, "") {
      SameFieldsPlain(f, g);
      SchemaIsFaithful(f, g);
    }
    OrderMattersExactly(f);
  }

  lemma {:induction false} PlainIsProper(f: Fields)
    requires Plain(f)
    ensures Proper(f)
    decreases f
  {
    forall i | 0 <= i < |f| ensures ProperValue(f[i].value) {
      var v := f[i].value;
      if v.Obj? { PlainIsProper(v.fields); }
      if v.List? && v.items != [] && v.items[0].Obj? { PlainIsProper(v.items[0].fields); }
    }
  }

  lemma {:induction false} SameFieldsPlain(f: Fields, g: Fields)
    requires Plain(f) && Proper(g) && SameFields(f, g)
    ensures Plain(g)
    decreases f
  {
    forall j | 0 <= j < |g| ensures g[j].key != "" && '.' !in g[j].key && PlainValue(g[j].value) {
      var i :| 0 <= i < |f| && f[i].key == g[j].key;
      var v, w := f[i].value, g[j].value;
      assert SameShape(v, w);
      if v.Obj? && w.Obj? { SameFieldsPlain(v.fields, w.fields); }
      if v.List? && w.List? && v.items != [] && w.items != [] {
        var a, b := v.items[0], w.items[0];
        assert SameElement(a, b);
        if a.Obj? && b.Obj? { SameFieldsPlain(a.fields, b.fields); }
      }
    }
  }

  /** A payload with a clash: the same shape in another order, and a different schema. */
  lemma OrderMatters()
    ensures var f := [Field("a", Obj([Field("b", Int(1))])), Field("a.b", Str("x"))];
            var g := [Field("a.b", Str("x")), Field("a", Obj([Field("b", Int(1))]))];
            SameFields(f, g) && Schema(f, "") != Schema(g, "")
  {
    var a, b := Field("a", Obj([Field("b", Int(1))])), Field("a.b", Str("x"));
    assert |"a.b"| != |"a"|;
    assert [a, b][0] == a && [a, b][1] == b && [b, a][0] == b && [b, a][1] == a;
    SameSelf(a, b);
    hide Schema;
    OneField(Field("b", Int(1)), "a");
    TwoFields(a, b, "");
    TwoFields(b, a, "");
    assert Path("a", "b") == "a.b";
    assert Schema([a, b], "")["a.b"] == "str" && Schema([b, a], "")["a.b"] == "int";
  }

  lemma SameSelf(a: Field, b: Field)
    requires a.key != b.key && a.value == Obj([Field("b", Int(1))]) && b.value == Str("x")
    ensures SameFields([a, b], [b, a])
  {
    var inner := [Field("b", Int(1))];
    assert HasKey(inner, "b") by { assert inner[0].key == "b"; }
    assert SameShape(a.value, a.value) && SameShape(b.value, b.value);
    var f, g := [a, b], [b, a];
    assert f[0].key == a.key && f[1].key == b.key && g[0].key == b.key && g[1].key == a.key;
    assert HasKey(f, a.key) && HasKey(f, b.key) && HasKey(g, a.key) && HasKey(g, b.key);
  }
}
