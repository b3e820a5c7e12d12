/** Flat type schemas of JSON payloads, and drift against a stored one. */
module SchemaDrift {
  import opened Wrappers

  datatype Json = Null
                | Bool(b: bool)
                | Int(i: int)
                | Float(r: real)
                | Str(s: string)
                | List(items: seq<Json>)
                | Obj(fields: seq<Field>)

  datatype Field = Field(key: string, value: Json)

  type Fields = seq<Field>

  /** `type(value).__name__`. */
  function TypeName(v: Json): string {
    match v
    case Null => "NoneType"
    case Bool(_) => "bool"
    case Int(_) => "int"
    case Float(_) => "float"
    case Str(_) => "str"
    case List(_) => "list"
    case Obj(_) => "dict"
  }

  function Path(prefix: string, key: string): string { if prefix == "" then key else prefix + "." + key }

  // ---------------------------------------------------------------------------
  // Extraction
  // ---------------------------------------------------------------------------

  /** What one field contributes; its path is `at`. */
  function Entry(at: string, v: Json): map<string, string>
    decreases v, 1
  {
    match v
    case Obj(fields) => map[at := TypeName(v)] + Schema(fields, at)
    case List(items) =>
      if items == [] then map[at := TypeName(v)] else map[at := TypeName(v)] + Element(at + ".0", items[0])
    case _ => map[at := TypeName(v)]
  }

  /** The first element of a list; a list inside a list is not looked into. */
  function Element(at: string, v: Json): map<string, string>
    decreases v, 1
  {
    if v.Obj? then map[at := TypeName(v)] + Schema(v.fields, at) else map[at := TypeName(v)]
  }

  function Schema(fields: Fields, prefix: string): map<string, string>
    decreases fields, 0
  {
    if fields == [] then map[]
    else
      var Field(key, value) := fields[|fields| - 1];
      Schema(fields[..|fields| - 1], prefix) + Entry(Path(prefix, key), value)
  }

  lemma SchemaSnoc(fields: Fields, k: nat, prefix: string)
    requires k < |fields|
    ensures Schema(fields[..k + 1], prefix) ==
            Schema(fields[..k], prefix) + Entry(Path(prefix, fields[k].key), fields[k].value)
  {
    assert fields[..k + 1][..k] == fields[..k] && fields[..k + 1][k] == fields[k];
  }

  lemma AddedInSteps(before: map<string, string>, at: string, more: map<string, string>, name: string)
    ensures before + (map[at := name] + more) == before[at := name] + more
  {}

  /** `extract_schema`. */
  method ExtractSchema(fields: Fields, prefix: string) returns (schema: map<string, string>)
    ensures schema == Schema(fields, prefix)
    decreases fields
  {
    hide Schema;
    schema := map[];
    NoSchema(prefix);
    for k := 0 to |fields|
      invariant schema == Schema(fields[..k], prefix)
    {
      SchemaSnoc(fields, k, prefix);
      var Field(key, value) := fields[k];
      var full := Path(prefix, key);
      ghost var before := schema;
      schema := schema[full := TypeName(value)];
      if value.Obj? {
        var nested := ExtractSchema(value.fields, full);
        schema := schema + nested;
        AddedInSteps(before, full, nested, TypeName(value));
      } else if value.List? && value.items != [] {
        var first := value.items[0];
        ghost var own := schema;
        schema := schema[full + ".0" := TypeName(first)];
        if first.Obj? {
          var nested := ExtractSchema(first.fields, full + ".0");
          schema := schema + nested;
          AddedInSteps(own, full + ".0", nested, TypeName(first));
        }
        AddedInSteps(before, full, Element(full + ".0", first), TypeName(value));
      }
    }
    assert fields[..|fields|] == fields;
  }

  lemma NoSchema(prefix: string)
    ensures Schema([], prefix) == map[]
  {}

  // ---------------------------------------------------------------------------
  // Shape
  // ---------------------------------------------------------------------------

  predicate HasKey(fields: Fields, key: string) { exists i :: 0 <= i < |fields| && fields[i].key == key }

  predicate SameFields(f: Fields, g: Fields)
    decreases f, 0
  {
    && (forall i :: 0 <= i < |f| ==> HasKey(g, f[i].key))
    && (forall j :: 0 <= j < |g| ==> HasKey(f, g[j].key))
    && (forall i, j :: 0 <= i < |f| && 0 <= j < |g| && f[i].key == g[j].key ==> SameShape(f[i].value, g[j].value))
  }

  predicate SameShape(v: Json, w: Json)
    decreases v, 1
  {
    && TypeName(v) == TypeName(w)
    && (v.Obj? && w.Obj? ==> SameFields(v.fields, w.fields))
    && (v.List? && w.List? ==> (v.items == [] <==> w.items == []))
    && (v.List? && w.List? && v.items != [] && w.items != [] ==> SameElement(v.items[0], w.items[0]))
  }

  predicate SameElement(v: Json, w: Json)
    decreases v, 1
  {
    TypeName(v) == TypeName(w) && (v.Obj? && w.Obj? ==> SameFields(v.fields, w.fields))
  }

  /** Keys are distinct, not empty and without dots, at every level that is visited. */
  predicate Plain(fields: Fields)
    decreases fields, 0
  {
    && (forall i :: 0 <= i < |fields| ==> fields[i].key != "" && '.' !in fields[i].key && PlainValue(fields[i].value))
    && (forall i, j :: 0 <= i < j < |fields| ==> fields[i].key != fields[j].key)
  }

  predicate PlainValue(v: Json)
    decreases v, 1
  {
    && (v.Obj? ==> Plain(v.fields))
    && (v.List? && v.items != [] && v.items[0].Obj? ==> Plain(v.items[0].fields))
  }

  // ---------------------------------------------------------------------------
  // Paths
  // ---------------------------------------------------------------------------

  /** The path itself or something nested in it. */
  predicate Below(at: string, x: string) { x == at || at + "." <= x }

  function Under(m: map<string, string>, at: string): map<string, string> {
    map x | x in m && Below(at, x) :: m[x]
  }

  lemma {:induction false} SchemaKey(fields: Fields, prefix: string, x: string) returns (i: nat)
    requires x in Schema(fields, prefix) && (prefix != "" || forall k :: 0 <= k < |fields| ==> fields[k].key != "")
    ensures i < |fields| && Below(Path(prefix, fields[i].key), x)
    decreases fields, 0
  {
    var n := |fields| - 1;
    if x in Entry(Path(prefix, fields[n].key), fields[n].value) {
      EntryKey(Path(prefix, fields[n].key), fields[n].value, x);
      i := n;
    } else {
      i := SchemaKey(fields[..n], prefix, x);
    }
  }

  lemma {:induction false} EntryKey(at: string, v: Json, x: string)
    requires x in Entry(at, v) && at != ""
    ensures Below(at, x)
    decreases v, 1
  {
    if x != at {
      if v.Obj? {
        NestedKey(v.fields, at, x);
      } else {
        ElementKey(at + ".0", v.items[0], x);
        assert at + "." <= at + ".0";
      }
    }
  }

  lemma {:induction false} ElementKey(at: string, v: Json, x: string)
    requires x in Element(at, v) && at != ""
    ensures Below(at, x)
    decreases v, 1
  {
    if x != at { NestedKey(v.fields, at, x); }
  }

  lemma {:induction false} NestedKey(fields: Fields, at: string, x: string)
    requires x in Schema(fields, at) && at != ""
    ensures at + "." <= x
    decreases fields, 1
  {
    var i := SchemaKey(fields, at, x);
    assert at + "." <= Path(at, fields[i].key);
  }

  /** Distinct keys without dots open disjoint families of paths. */
  lemma PathsApart(prefix: string, k: string, l: string, x: string)
    requires k != l && '.' !in k && '.' !in l
    ensures !(Below(Path(prefix, k), x) && Below(Path(prefix, l), x))
  {
    if |k| <= |l| { ShorterFirst(prefix, k, l, x); } else { ShorterFirst(prefix, l, k, x); }
  }

  lemma ShorterFirst(prefix: string, k: string, l: string, x: string)
    requires k != l && '.' !in k && '.' !in l && |k| <= |l|
    ensures !(Below(Path(prefix, k), x) && Below(Path(prefix, l), x))
  {
    var p, q := Path(prefix, k), Path(prefix, l);
    var start := |p| - |k|;
    assert p[..start] == q[..start] && p[start..] == k && q[start..] == l && |q| == start + |l|;
    if |k| == |l| {
      SameLengthApart(p, q, x);
    } else {
      assert q[start + |k|] == l[|k|] != '.';
      assert (p + ".")[|p|] == '.';
    }
  }

  lemma SameLengthApart(p: string, q: string, x: string)
    requires |p| == |q| && p != q
    ensures !(Below(p, x) && Below(q, x))
  {
    if Below(p, x) { assert x[..|p|] == p; }
    if Below(q, x) { assert x[..|q|] == q; }
  }

  lemma PlainParts(fields: Fields)
    requires Plain(fields)
    ensures forall i :: 0 <= i < |fields| ==>
              fields[i].key != "" && '.' !in fields[i].key && PlainValue(fields[i].value)
    ensures forall i, j :: 0 <= i < j < |fields| ==> fields[i].key != fields[j].key
    ensures fields != [] ==> Plain(fields[..|fields| - 1])
  {}

  lemma OtherEntry(prefix: string, own: string, other: string, v: Json, m: map<string, string>)
    requires own != other && '.' !in own && '.' !in other && other != ""
    ensures Under(m + Entry(Path(prefix, other), v), Path(prefix, own)) == Under(m, Path(prefix, own))
  {
    hide Entry, Below, Path;
    var at, end := Path(prefix, own), Path(prefix, other);
    PathsAreSome(prefix, other);
    forall x | x in Entry(end, v) ensures !Below(at, x) {
      EntryKey(end, v, x);
      PathsApart(prefix, own, other, x);
    }
    UnderOther(m, Entry(end, v), at);
  }

  lemma PathsAreSome(prefix: string, key: string)
    requires key != ""
    ensures Path(prefix, key) != ""
  {}

  lemma OwnEntry(front: Fields, prefix: string, own: string, v: Json)
    requires forall i :: 0 <= i < |front| ==> front[i].key != "" && '.' !in front[i].key && front[i].key != own
    requires own != "" && '.' !in own
    ensures Under(Schema(front, prefix) + Entry(Path(prefix, own), v), Path(prefix, own)) == Entry(Path(prefix, own), v)
  {
    hide Entry, Schema, Below, Path;
    var at := Path(prefix, own);
    PathsAreSome(prefix, own);
    forall x | x in Schema(front, prefix) ensures !Below(at, x) {
      var j := SchemaKey(front, prefix, x);
      PathsApart(prefix, front[j].key, own, x);
    }
    forall x | x in Entry(at, v) ensures Below(at, x) { EntryKey(at, v, x); }
    UnderOwn(Schema(front, prefix), Entry(at, v), at);
  }

  /** The part of the schema at and below a key is that field's own entry. */
  lemma {:induction false} FieldEntry(fields: Fields, prefix: string, i: nat)
    requires Plain(fields) && i < |fields|
    ensures var at := Path(prefix, fields[i].key); Under(Schema(fields, prefix), at) == Entry(at, fields[i].value)
    decreases |fields|
  {
    hide *;
    var n := |fields| - 1;
    PlainParts(fields);
    SchemaSnoc(fields, n, prefix);
    assert fields[..n + 1] == fields;
    if i < n {
      FieldEntry(fields[..n], prefix, i);
      OtherEntry(prefix, fields[i].key, fields[n].key, fields[n].value, Schema(fields[..n], prefix));
    } else {
      OwnEntry(fields[..n], prefix, fields[n].key, fields[n].value);
    }
  }

  lemma UnderOther(m: map<string, string>, e: map<string, string>, at: string)
    requires forall x :: x in e ==> !Below(at, x)
    ensures Under(m + e, at) == Under(m, at)
  {}

  lemma UnderOwn(m: map<string, string>, e: map<string, string>, at: string)
    requires forall x :: x in m ==> !Below(at, x)
    requires forall x :: x in e ==> Below(at, x)
    ensures Under(m + e, at) == e
  {}

  // ---------------------------------------------------------------------------
  // A schema determines the shape
  // ---------------------------------------------------------------------------

  /** What a value adds below its own path. */
  function Inner(at: string, v: Json): map<string, string> {
    if v.Obj? then Schema(v.fields, at)
    else if v.List? && v.items != [] then Element(at + ".0", v.items[0])
    else map[]
  }

  lemma EntryParts(at: string, v: Json)
    requires at != ""
    ensures at in Entry(at, v) && Entry(at, v)[at] == TypeName(v) && Entry(at, v) - {at} == Inner(at, v)
  {
    forall x | x in Inner(at, v) ensures x != at {
      if v.Obj? {
        NestedKey(v.fields, at, x);
      } else {
        ElementKey(at + ".0", v.items[0], x);
        assert |x| > |at|;
      }
    }
    assert Entry(at, v) == map[at := TypeName(v)] + Inner(at, v);
  }

  lemma ElementParts(at: string, v: Json)
    requires at != ""
    ensures at in Element(at, v) && Element(at, v)[at] == TypeName(v)
    ensures Element(at, v) - {at} == if v.Obj? then Schema(v.fields, at) else map[]
  {
    if v.Obj? {
      forall x | x in Schema(v.fields, at) ensures x != at { NestedKey(v.fields, at, x); }
    }
  }

  /** Equal schemas, equal keys. */
  lemma KeyKept(f: Fields, g: Fields, prefix: string, i: nat)
    requires Plain(f) && Plain(g) && i < |f|
    ensures Schema(f, prefix) == Schema(g, prefix) ==> HasKey(g, f[i].key)
  {
    var at := Path(prefix, f[i].key);
    PlainParts(f);
    PlainParts(g);
    hide Plain, Schema, Entry;
    FieldEntry(f, prefix, i);
    PathsAreSome(prefix, f[i].key);
    EntryParts(at, f[i].value);
    assert at in Under(Schema(f, prefix), at);
    if Schema(f, prefix) == Schema(g, prefix) {
      var j := SchemaKey(g, prefix, at);
      if f[i].key != g[j].key { PathsApart(prefix, f[i].key, g[j].key, at); }
    }
  }

  lemma {:induction false} SchemaSame(f: Fields, g: Fields, prefix: string)
    requires Plain(f) && Plain(g) && Schema(f, prefix) == Schema(g, prefix)
    ensures SameFields(f, g)
    decreases f, 0
  {
    PlainParts(f);
    PlainParts(g);
    forall i | 0 <= i < |f| ensures HasKey(g, f[i].key) { KeyKept(f, g, prefix, i); }
    forall j | 0 <= j < |g| ensures HasKey(f, g[j].key) { KeyKept(g, f, prefix, j); }
    forall i, j | 0 <= i < |f| && 0 <= j < |g| && f[i].key == g[j].key ensures SameShape(f[i].value, g[j].value) {
      FieldEntry(f, prefix, i);
      FieldEntry(g, prefix, j);
      PathsAreSome(prefix, f[i].key);
      EntrySame(Path(prefix, f[i].key), f[i].value, g[j].value);
    }
  }

  lemma {:induction false} EntrySame(at: string, v: Json, w: Json)
    requires at != "" && PlainValue(v) && PlainValue(w) && Entry(at, v) == Entry(at, w)
    ensures SameShape(v, w)
    decreases v, 1
  {
    hide Entry, Element, Schema;
    EntryParts(at, v);
    EntryParts(at, w);
    if v.Obj? && w.Obj? { SchemaSame(v.fields, w.fields, at); }
    if v.List? && w.List? {
      if v.items != [] { ElementParts(at + ".0", v.items[0]); }
      if w.items != [] { ElementParts(at + ".0", w.items[0]); }
      if v.items != [] && w.items != [] { ElementSame(at + ".0", v.items[0], w.items[0]); }
    }
  }

  lemma {:induction false} ElementSame(at: string, v: Json, w: Json)
    requires at != "" && (v.Obj? ==> Plain(v.fields)) && (w.Obj? ==> Plain(w.fields))
             && Element(at, v) == Element(at, w)
    ensures SameElement(v, w)
    decreases v, 1
  {
    hide Element, Schema;
    ElementParts(at, v);
    ElementParts(at, w);
    if v.Obj? && w.Obj? { SchemaSame(v.fields, w.fields, at); }
  }

  // ---------------------------------------------------------------------------
  // The shape determines the schema
  // ---------------------------------------------------------------------------

  lemma {:induction false} SameShapeSameEntry(at: string, v: Json, w: Json)
    requires at != "" && PlainValue(v) && PlainValue(w) && SameShape(v, w)
    ensures Entry(at, v) == Entry(at, w)
    decreases v, 1
  {
    if v.Obj? && w.Obj? { SameFieldsSameSchema(v.fields, w.fields, at); }
    if v.List? && w.List? && v.items != [] && w.items != [] {
      var a, b := v.items[0], w.items[0];
      if a.Obj? && b.Obj? { SameFieldsSameSchema(a.fields, b.fields, at + ".0"); }
      assert Element(at + ".0", a) == Element(at + ".0", b);
    }
  }

  lemma {:induction false} SameFieldsSameSchema(f: Fields, g: Fields, prefix: string)
    requires Plain(f) && Plain(g) && SameFields(f, g)
    ensures Schema(f, prefix) == Schema(g, prefix)
    decreases f, 0
  {
    PlainParts(f);
    PlainParts(g);
    forall i, j | 0 <= i < |f| && 0 <= j < |g| && f[i].key == g[j].key
      ensures Under(Schema(f, prefix), Path(prefix, f[i].key)) == Under(Schema(g, prefix), Path(prefix, g[j].key))
    {
      FieldEntry(f, prefix, i);
      FieldEntry(g, prefix, j);
      PathsAreSome(prefix, f[i].key);
      SameShapeSameEntry(Path(prefix, f[i].key), f[i].value, g[j].value);
    }
    SchemaWithin(f, g, prefix);
    SchemaWithin(g, f, prefix);
  }

  /** Field by field equal parts make the schema of f a part of that of g. */
  lemma SchemaWithin(f: Fields, g: Fields, prefix: string)
    requires forall i :: 0 <= i < |f| ==> f[i].key != "" && HasKey(g, f[i].key)
    requires forall i, j :: 0 <= i < |f| && 0 <= j < |g| && f[i].key == g[j].key ==>
               Under(Schema(f, prefix), Path(prefix, f[i].key)) == Under(Schema(g, prefix), Path(prefix, g[j].key))
    ensures forall x :: x in Schema(f, prefix) ==>
              x in Schema(g, prefix) && Schema(g, prefix)[x] == Schema(f, prefix)[x]
  {
    hide Schema, Path, Below;
    forall x | x in Schema(f, prefix) ensures x in Schema(g, prefix) && Schema(g, prefix)[x] == Schema(f, prefix)[x] {
      var i := SchemaKey(f, prefix, x);
      var j :| 0 <= j < |g| && g[j].key == f[i].key;
      assert x in Under(Schema(f, prefix), Path(prefix, f[i].key));
      assert x in Under(Schema(g, prefix), Path(prefix, g[j].key));
    }
  }

  /** For payloads with plain keys: equal schemas exactly for equal shapes. */
  lemma SchemaIsFaithful(f: Fields, g: Fields)
    requires Plain(f) && Plain(g)
    ensures Schema(f, "") == Schema(g, "") <==> SameFields(f, g)
  {
    if Schema(f, "") == Schema(g, "") { SchemaSame(f, g, ""); }
    if SameFields(f, g) { SameFieldsSameSchema(f, g, ""); }
  }

  // ---------------------------------------------------------------------------
  // Without a condition on the keys
  // ---------------------------------------------------------------------------

  /** A JSON object has each key once. */
  predicate DistinctKeys(fields: Fields) { forall i, j :: 0 <= i < j < |fields| ==> fields[i].key != fields[j].key }

  /** A scalar or an empty container. */
  predicate FlatValue(v: Json) { (v.Obj? ==> v.fields == []) && (v.List? ==> v.items == []) }

  predicate Flat(fields: Fields) { forall i :: 0 <= i < |fields| ==> FlatValue(fields[i].value) }

  /** A value of type `name` at p can have put q into the schema. */
  predicate Nests(name: string, p: string, q: string) {
    (name == "dict" && p + "." <= q) || (name == "list" && q == p + ".0")
  }

  /** The schema has a container with another path below it, or an empty path. */
  ghost predicate Ambiguous(m: map<string, string>) {
    "" in m || exists p, q :: p in m && q in m && Nests(m[p], p, q)
  }

  lemma FlatEntry(at: string, v: Json)
    requires FlatValue(v)
    ensures Entry(at, v) == Element(at, v) == map[at := TypeName(v)]
  {
    NoSchema(at);
  }

  /** A value that is not flat puts a path below its own one. */
  lemma PathBelow(at: string, v: Json) returns (q: string)
    requires !FlatValue(v) && at != ""
    ensures q in Entry(at, v) && Nests(TypeName(v), at, q) && Entry(at, v)[at] == TypeName(v)
  {
    EntryParts(at, v);
    if v.Obj? {
      var n := |v.fields| - 1;
      var last := v.fields[n];
      q := Path(at, last.key);
      assert v.fields[..n + 1] == v.fields;
      SchemaSnoc(v.fields, n, at);
      EntryParts(q, last.value);
    } else {
      q := at + ".0";
      ElementParts(q, v.items[0]);
    }
  }

  /** Flat fields after field i override none of its paths but those that are their own keys. */
  lemma {:induction false} LaterFlat(fields: Fields, i: nat, x: string)
    requires i < |fields| && (forall j :: i < j < |fields| ==> FlatValue(fields[j].value))
    requires x in Entry(fields[i].key, fields[i].value)
    ensures x in Schema(fields, "")
    ensures (forall j :: i < j < |fields| ==> fields[j].key != x) ==>
              Schema(fields, "")[x] == Entry(fields[i].key, fields[i].value)[x]
    decreases |fields|
  {
    var n := |fields| - 1;
    SchemaSnoc(fields, n, "");
    assert fields[..n + 1] == fields;
    if i < n {
      LaterFlat(fields[..n], i, x);
      FlatEntry(fields[n].key, fields[n].value);
    }
  }

  /** The last field that is not flat shows in the schema. */
  lemma NestedShows(fields: Fields, i: nat)
    requires DistinctKeys(fields) && i < |fields| && !FlatValue(fields[i].value)
    requires forall j :: i < j < |fields| ==> FlatValue(fields[j].value)
    ensures Ambiguous(Schema(fields, ""))
  {
    hide Schema, Entry, Element, FlatValue, TypeName;
    var f := fields[i];
    if f.key == "" {
      OwnPath(f.value);
      LaterFlat(fields, i, "");
    } else {
      var q := PathBelow(f.key, f.value);
      EntryParts(f.key, f.value);
      LaterFlat(fields, i, f.key);
      LaterFlat(fields, i, q);
      assert Nests(Schema(fields, "")[f.key], f.key, q);
    }
  }

  /** An unambiguous schema comes from flat fields only. */
  lemma {:induction false} UnambiguousIsFlat(fields: Fields, k: nat)
    requires DistinctKeys(fields) && !Ambiguous(Schema(fields, "")) && k <= |fields|
    requires forall j :: k <= j < |fields| ==> FlatValue(fields[j].value)
    ensures Flat(fields)
  {
    hide Schema, Ambiguous, FlatValue, DistinctKeys;
    if k > 0 {
      if !FlatValue(fields[k - 1].value) { NestedShows(fields, k - 1); }
      UnambiguousIsFlat(fields, k - 1);
    }
  }

  lemma OwnPath(v: Json)
    ensures "" in Entry("", v)
  {}

  /** The map holds each key of the fields with its type and nothing else. */
  predicate Types(fields: Fields, m: map<string, string>) {
    && (forall x :: x in m ==> HasKey(fields, x))
    && forall i :: 0 <= i < |fields| ==> fields[i].key in m && m[fields[i].key] == TypeName(fields[i].value)
  }

  lemma TypesSnoc(fields: Fields, m: map<string, string>)
    requires fields != [] && DistinctKeys(fields) && Types(fields[..|fields| - 1], m)
    ensures var last := fields[|fields| - 1]; Types(fields, m + map[last.key := TypeName(last.value)])
  {
    var n := |fields| - 1;
    var front := fields[..n];
    KeysSnoc(fields);
    hide HasKey, TypeName;
    assert forall i :: 0 <= i < n ==> front[i] == fields[i] && front[i].key != fields[n].key;
  }

  /** The schema of flat fields: each key with its type. */
  lemma {:induction false} FlatSchema(fields: Fields)
    requires Flat(fields) && DistinctKeys(fields)
    ensures Types(fields, Schema(fields, ""))
    decreases |fields|
  {
    hide Schema, Entry, Element, Types, FlatValue;
    if fields == [] {
      NoTypes();
    } else {
      var n := |fields| - 1;
      FlatSchema(fields[..n]);
      FlatEntry(fields[n].key, fields[n].value);
      SchemaSnoc(fields, n, "");
      assert fields[..n + 1] == fields;
      TypesSnoc(fields, Schema(fields[..n], ""));
    }
  }

  lemma NoTypes()
    ensures Types([], Schema([], ""))
  {}

  lemma KeysSnoc(fields: Fields)
    requires fields != []
    ensures forall x :: HasKey(fields, x) <==> HasKey(fields[..|fields| - 1], x) || fields[|fields| - 1].key == x
  {
    var n := |fields| - 1;
    forall x | HasKey(fields[..n], x) ensures HasKey(fields, x) {
      var i :| 0 <= i < n && fields[..n][i].key == x;
      assert fields[i].key == x;
    }
    forall x | HasKey(fields, x) && fields[n].key != x ensures HasKey(fields[..n], x) {
      var i :| 0 <= i < |fields| && fields[i].key == x;
      assert fields[..n][i].key == x;
    }
    assert fields[n].key == fields[n].key;
  }

  /** The same shape as flat fields is flat. */
  lemma SameAsFlat(f: Fields, g: Fields)
    requires SameFields(f, g)
    ensures Flat(f) <==> Flat(g)
  {
    forall i, j | 0 <= i < |f| && 0 <= j < |g| && f[i].key == g[j].key
      ensures FlatValue(f[i].value) <==> FlatValue(g[j].value)
    {
      SameAsFlatValue(f[i].value, g[j].value);
    }
    if Flat(f) {
      forall j | 0 <= j < |g| ensures FlatValue(g[j].value) { var i :| 0 <= i < |f| && f[i].key == g[j].key; }
    }
    if Flat(g) {
      forall i | 0 <= i < |f| ensures FlatValue(f[i].value) { var j :| 0 <= j < |g| && g[j].key == f[i].key; }
    }
  }

  lemma SameAsFlatValue(v: Json, w: Json)
    requires SameShape(v, w)
    ensures FlatValue(v) <==> FlatValue(w)
  {
    if v.Obj? && w.Obj? {
      if v.fields != [] { assert HasKey(w.fields, v.fields[0].key); }
      if w.fields != [] { assert HasKey(v.fields, w.fields[0].key); }
    }
  }

  lemma FlatSameFields(f: Fields, g: Fields)
    requires Flat(f) && Flat(g) && DistinctKeys(f) && DistinctKeys(g)
    ensures Schema(f, "") == Schema(g, "") <==> SameFields(f, g)
  {
    FlatSchema(f);
    FlatSchema(g);
    hide Schema, SameFields, HasKey, Flat, Types;
    if Schema(f, "") == Schema(g, "") { TypesSame(f, g, Schema(f, "")); }
    if SameFields(f, g) { SameTypes(f, g, Schema(f, ""), Schema(g, "")); }
  }

  lemma TypesSame(f: Fields, g: Fields, m: map<string, string>)
    requires Flat(f) && Flat(g) && Types(f, m) && Types(g, m)
    ensures SameFields(f, g)
  {
    hide HasKey;
    forall i, j | 0 <= i < |f| && 0 <= j < |g| && f[i].key == g[j].key ensures SameShape(f[i].value, g[j].value) {
      assert FlatValue(f[i].value) && FlatValue(g[j].value);
      NoFieldsSame();
    }
  }

  lemma NoFieldsSame()
    ensures SameFields([], [])
  {}

  lemma SameTypes(f: Fields, g: Fields, m: map<string, string>, n: map<string, string>)
    requires SameFields(f, g) && Types(f, m) && Types(g, n)
    ensures m == n
  {
    forall x | x in m ensures x in n && m[x] == n[x] {
      var i :| 0 <= i < |f| && f[i].key == x;
      var j :| 0 <= j < |g| && g[j].key == f[i].key;
      assert SameShape(f[i].value, g[j].value);
    }
    forall x | x in n ensures x in m { var j :| 0 <= j < |g| && g[j].key == x; }
  }

  // ---------------------------------------------------------------------------
  // Other payloads with the same schema
  // ---------------------------------------------------------------------------

  lemma OneField(f: Field, prefix: string)
    ensures Schema([f], prefix) == Entry(Path(prefix, f.key), f.value)
  {
    SchemaSnoc([f], 0, prefix);
    NoSchema(prefix);
    assert [f][..1] == [f] && [f][..0] == [];
  }

  lemma TwoFields(f: Field, g: Field, prefix: string)
    ensures Schema([f, g], prefix) == Entry(Path(prefix, f.key), f.value) + Entry(Path(prefix, g.key), g.value)
  {
    SchemaSnoc([f, g], 1, prefix);
    OneField(f, prefix);
    assert [f, g][..2] == [f, g] && [f, g][..1] == [f];
  }

  /** A flat value of the named type. */
  function Sample(name: string): (v: Json)
    ensures FlatValue(v)
  {
    if name == "NoneType" then Null else if name == "bool" then Bool(false) else if name == "int" then Int(0)
    else if name == "float" then Float(0.0) else if name == "str" then Str("") else if name == "list" then List([])
    else Obj([])
  }

  predicate IsName(name: string) { name == TypeName(Sample(name)) }

  lemma {:induction false} SchemaNames(fields: Fields, prefix: string)
    ensures forall x :: x in Schema(fields, prefix) ==> IsName(Schema(fields, prefix)[x])
    decreases fields, 0
  {
    if fields != [] {
      var n := |fields| - 1;
      SchemaNames(fields[..n], prefix);
      EntryNames(Path(prefix, fields[n].key), fields[n].value);
    }
  }

  lemma {:induction false} EntryNames(at: string, v: Json)
    ensures forall x :: x in Entry(at, v) ==> IsName(Entry(at, v)[x])
    decreases v, 1
  {
    assert IsName(TypeName(v));
    if v.Obj? { SchemaNames(v.fields, at); }
    if v.List? && v.items != [] { ElementNames(at + ".0", v.items[0]); }
  }

  lemma {:induction false} ElementNames(at: string, v: Json)
    ensures forall x :: x in Element(at, v) ==> IsName(Element(at, v)[x])
    decreases v, 1
  {
    assert IsName(TypeName(v));
    if v.Obj? { SchemaNames(v.fields, at); }
  }

  /** Every schema is that of a flat payload whose keys are the paths. */
  lemma {:induction false} Flattened(m: map<string, string>) returns (g: Fields)
    requires forall x :: x in m ==> IsName(m[x])
    ensures DistinctKeys(g) && Flat(g) && Schema(g, "") == m
    ensures forall i :: 0 <= i < |g| ==> g[i].key in m
    decreases |m|
  {
    hide Schema, Entry, Element, Flat, DistinctKeys, FlatValue, Sample, TypeName;
    if m == map[] {
      g := [];
      NoSchema("");
      NothingFlat();
    } else {
      var x :| x in m;
      var rest := Flattened(m - {x});
      g := rest + [Field(x, Sample(m[x]))];
      Extended(rest, Field(x, Sample(m[x])));
      FlatEntry(x, Sample(m[x]));
      assert m == (m - {x}) + map[x := m[x]];
    }
  }

  lemma NothingFlat()
    ensures DistinctKeys([]) && Flat([])
  {}

  lemma Extended(fields: Fields, f: Field)
    ensures Schema(fields + [f], "") == Schema(fields, "") + Entry(f.key, f.value)
    ensures DistinctKeys(fields) && (forall i :: 0 <= i < |fields| ==> fields[i].key != f.key)
            ==> DistinctKeys(fields + [f])
    ensures Flat(fields + [f]) <==> Flat(fields) && FlatValue(f.value)
  {
    SchemaSnoc(fields + [f], |fields|, "");
    assert (fields + [f])[..|fields|] == fields && (fields + [f])[..|fields| + 1] == fields + [f];
    if Flat(fields + [f]) {
      assert (fields + [f])[|fields|] == f;
      assert forall i :: 0 <= i < |fields| ==> fields[i] == (fields + [f])[i];
    }
  }

  /** An ambiguous schema is also that of a payload that is not flat. */
  lemma Nested(m: map<string, string>) returns (g: Fields)
    requires Ambiguous(m) && forall x :: x in m ==> IsName(m[x])
    ensures DistinctKeys(g) && !Flat(g) && Schema(g, "") == m
  {
    hide *;
    var p, q, v := NestedField(m);
    var rest := Flattened(m - {p, q});
    Extended(rest, Field(p, v));
    g := rest + [Field(p, v)];
    assert m == (m - {p, q}) + map[p := m[p], q := m[q]];
  }

  /** One field that puts both paths of an ambiguous pair into the schema. */
  lemma NestedField(m: map<string, string>) returns (p: string, q: string, v: Json)
    requires Ambiguous(m) && forall x :: x in m ==> IsName(m[x])
    ensures p in m && q in m && !FlatValue(v) && Entry(p, v) == map[p := m[p], q := m[q]]
  {
    hide Schema, Sample, TypeName;
    if "" in m {
      p, q := "", "";
      v := NestedObject("", "", m[""]);
    } else {
      p, q :| p in m && q in m && Nests(m[p], p, q);
      if m[p] == "dict" && p + "." <= q {
        v := NestedObject(p, q[|p| + 1..], m[q]);
        assert p + "." + q[|p| + 1..] == q;
      } else {
        v := NestedList(p, m[q]);
      }
    }
  }

  lemma NestedObject(p: string, key: string, name: string) returns (v: Json)
    requires IsName(name)
    ensures !FlatValue(v) && Entry(p, v) == map[p := "dict"] + map[Path(p, key) := name]
  {
    var inner := Field(key, Sample(name));
    v := Obj([inner]);
    OneField(inner, p);
    FlatEntry(Path(p, key), inner.value);
  }

  lemma NestedList(p: string, name: string) returns (v: Json)
    requires IsName(name)
    ensures !FlatValue(v) && Entry(p, v) == map[p := "list"] + map[p + ".0" := name]
  {
    v := List([Sample(name)]);
    FlatEntry(p + ".0", Sample(name));
  }

  // ---------------------------------------------------------------------------
  // The exact condition
  // ---------------------------------------------------------------------------

  /** For a payload with any keys: comparing schemas tells every change of shape, and nothing else, if and only if
      its schema has no empty path and no container with another path below it. */
  lemma FaithfulExactly(f: Fields)
    requires DistinctKeys(f)
    ensures (forall g :: DistinctKeys(g) ==> (Schema(f, "") == Schema(g, "") <==> SameFields(f, g)))
            <==> !Ambiguous(Schema(f, ""))
  {
    var m := Schema(f, "");
    if Ambiguous(m) {
      var g := SameSchemaOtherShape(f);
      assert DistinctKeys(g) && Schema(f, "") == Schema(g, "") && !SameFields(f, g);
    } else {
      forall g | DistinctKeys(g) ensures Schema(f, "") == Schema(g, "") <==> SameFields(f, g) {
        UnambiguousTells(f, g);
      }
    }
  }

  /** Against an ambiguous schema some change of shape stays hidden. */
  lemma SameSchemaOtherShape(f: Fields) returns (g: Fields)
    requires Ambiguous(Schema(f, ""))
    ensures DistinctKeys(g) && Schema(f, "") == Schema(g, "") && !SameFields(f, g)
  {
    SchemaNames(f, "");
    if Flat(f) { g := Nested(Schema(f, "")); } else { g := Flattened(Schema(f, "")); }
    hide Schema;
    if SameFields(f, g) { SameAsFlat(f, g); }
  }

  lemma UnambiguousTells(f: Fields, g: Fields)
    requires DistinctKeys(f) && DistinctKeys(g) && !Ambiguous(Schema(f, ""))
    ensures Schema(f, "") == Schema(g, "") <==> SameFields(f, g)
  {
    hide Schema, Ambiguous;
    UnambiguousIsFlat(f, |f|);
    if Schema(f, "") == Schema(g, "") { UnambiguousIsFlat(g, |g|); }
    if SameFields(f, g) { SameAsFlat(f, g); }
    if Flat(g) { FlatSameFields(f, g); }
  }

  lemma DotInside(name: string, p: string, q: string)
    ensures Nests(name, p, q) ==> '.' in q
  {
    if p + "." <= q { assert q[|p|] == '.'; }
    if q == p + ".0" { assert q[|p|] == '.'; }
  }

  /** With plain keys a snapshot is ambiguous if and only if it holds a non-empty nested object or list. */
  lemma PlainAmbiguous(f: Fields)
    requires Plain(f)
    ensures Ambiguous(Schema(f, "")) <==> !Flat(f)
  {
    PlainParts(f);
    if Flat(f) {
      FlatSchema(f);
      hide Schema, Plain;
      forall p, q | p in Schema(f, "") && q in Schema(f, "") ensures p != "" && !Nests(Schema(f, "")[p], p, q) {
        var i :| 0 <= i < |f| && f[i].key == p;
        var j :| 0 <= j < |f| && f[j].key == q;
        DotInside(Schema(f, "")[p], p, q);
      }
    } else if !Ambiguous(Schema(f, "")) {
      UnambiguousIsFlat(f, |f|);
    }
  }

  // ---------------------------------------------------------------------------
  // Drift
  // ---------------------------------------------------------------------------

  /** Paths that appeared, that vanished, and whose type name changed; the report sorts each list. */
  datatype Report = Report(hasDrift: bool, added: set<string>, removed: set<string>, changed: set<string>)

  /** `detect_drift`; an absent snapshot reads as the empty one.  Returns the report and the snapshot kept. */
  method DetectDrift(live: Fields, stored: map<string, string>) returns (report: Report, kept: map<string, string>)
    ensures stored == map[] ==> report == Report(false, {}, {}, {}) && kept == Schema(live, "")
    ensures stored != map[] ==> kept == stored && (report.hasDrift <==> Schema(live, "") != stored)
    ensures stored != map[] ==> forall x ::
      && (x in report.added <==> x in Schema(live, "") && x !in stored)
      && (x in report.removed <==> x in stored && x !in Schema(live, ""))
      && (x in report.changed <==> x in stored && x in Schema(live, "") && stored[x] != Schema(live, "")[x])
  {
    var schema := ExtractSchema(live, "");
    if stored == map[] { return Report(false, {}, {}, {}), schema; }
    hide Schema;
    var added, removed := schema.Keys - stored.Keys, stored.Keys - schema.Keys;
    var changed: set<string> := {};
    var keys := schema.Keys * stored.Keys;
    while keys != {}
      invariant keys <= schema.Keys * stored.Keys
      invariant forall x :: x in changed <==>
        x in schema.Keys * stored.Keys && x !in keys && schema[x] != stored[x]
      decreases keys
    {
      var x :| x in keys;
      keys := keys - {x};
      if schema[x] != stored[x] { changed := changed + {x}; }
    }
    report := Report(added != {} || removed != {} || changed != {}, added, removed, changed);
    kept := stored;
    if !report.hasDrift {
      assert schema.Keys == stored.Keys by {
        assert forall x :: x in schema.Keys ==> x !in added;
        assert forall x :: x in stored.Keys ==> x !in removed;
      }
      assert forall x :: x in schema ==> x !in changed;
      assert schema == stored;
    }
  }

  /** One payload observed before and one now: the first leaves a snapshot behind, the second is compared with it. */
  method ObserveTwice(before: Fields, live: Fields) returns (drift: bool)
    requires Plain(before) && Plain(live) && before != []
    ensures drift <==> !SameFields(before, live)
  {
    var first, snapshot := DetectDrift(before, map[]);
    SchemaIsFaithful(before, live);
    SomethingStored(before);
    var report, _ := DetectDrift(live, snapshot);
    drift := report.hasDrift;
  }

  lemma SomethingStored(fields: Fields)
    requires Plain(fields) && fields != []
    ensures Schema(fields, "") != map[]
  {
    PathsAreSome("", fields[0].key);
    FieldEntry(fields, "", 0);
    EntryParts(Path("", fields[0].key), fields[0].value);
    assert Path("", fields[0].key) in Under(Schema(fields, ""), Path("", fields[0].key));
  }

  /** The condition on keys is needed: with a dot in a key two different shapes have the same schema. */
  lemma DottedKeysCollide()
    ensures var f := [Field("a", Obj([Field("b", Int(1))]))];
            var g := [Field("a", Obj([])), Field("a.b", Int(1))];
            Schema(f, "") == Schema(g, "") && !SameFields(f, g)
  {
    hide Schema;
    OneField(Field("b", Int(1)), "a");
    OneField(Field("a", Obj([Field("b", Int(1))])), "");
    TwoFields(Field("a", Obj([])), Field("a.b", Int(1)), "");
    NoSchema("a");
    assert Path("a", "b") == "a.b";
    var f := [Field("a", Obj([Field("b", Int(1))]))];
    var g := [Field("a", Obj([])), Field("a.b", Int(1))];
    assert |"a.b"| != |"a"|;
    assert f[0].key == "a" && g[1].key == "a.b" && !HasKey(f, g[1].key);
  }
}
