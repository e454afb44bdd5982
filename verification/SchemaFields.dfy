/**
  The response-field walk of the API coverage report.  A schema is followed through `$ref`s,
  combinators, array items and properties; one set of visited component names is shared by every
  branch of the walk, and a component met a second time contributes nothing.

  The reference semantics is graph reachability: `HasField` says that some finite walk through the
  schema graph ends at an object schema that declares the field.
*/
module SchemaFields {
  import opened Options

  datatype Property = Property(name: string, schema: Schema)

  /** A JSON schema: `Ref` is any object carrying `$ref`, whose other keys are never looked at. */
  datatype Schema =
    | Ref(pointer: string)
    | Node(anyOf: seq<Schema>, oneOf: seq<Schema>, allOf: seq<Schema>,
           isArray: bool, items: Option<Schema>, properties: seq<Property>)

  /** The component table `spec["components"]["schemas"]`. */
  type Components = map<string, Schema>

  const EMPTY: Schema := Node([], [], [], false, None, [])

  /** The part of a JSON pointer after its last slash, or all of it when there is no slash. */
  function LastSegment(pointer: string): string {
    if |pointer| == 0 || pointer[|pointer| - 1] == '/' then ""
    else LastSegment(pointer[..|pointer| - 1]) + [pointer[|pointer| - 1]]
  }

  lemma {:induction false} LastSegmentIsAfterLastSlash(pointer: string)
    ensures |LastSegment(pointer)| <= |pointer| && '/' !in LastSegment(pointer)
    ensures var cut := |pointer| - |LastSegment(pointer)|;
            pointer[cut..] == LastSegment(pointer) && (cut == 0 || pointer[cut - 1] == '/')
  {
    if |pointer| == 0 || pointer[|pointer| - 1] == '/' {
    } else {
      var before, last := pointer[..|pointer| - 1], pointer[|pointer| - 1];
      LastSegmentIsAfterLastSlash(before);
      var cut := |before| - |LastSegment(before)|;
      assert pointer[cut..] == before[cut..] + [last];
      assert cut > 0 ==> pointer[cut - 1] == before[cut - 1];
    }
  }

  function Name(s: Schema): string
    requires s.Ref?
  {
    LastSegment(s.pointer)
  }

  function Lookup(table: Components, name: string): Schema {
    if name in table then table[name] else EMPTY
  }

  function Combinators(s: Schema): seq<Schema>
    requires s.Node?
  {
    s.anyOf + s.oneOf + s.allOf
  }

  /** `{}` stands in for a missing `items`. */
  function ItemSchema(s: Schema): Schema
    requires s.Node?
  {
    if s.items.Some? then s.items.value else EMPTY
  }

  function Items(s: Schema): seq<Schema>
    requires s.Node?
  {
    if s.isArray then [ItemSchema(s)] else []
  }

  function PropertySchemas(ps: seq<Property>): seq<Schema> {
    seq(|ps|, i requires 0 <= i < |ps| => ps[i].schema)
  }

  function PropertyNames(ps: seq<Property>): set<string> {
    set i | 0 <= i < |ps| :: ps[i].name
  }

  function Children(s: Schema): seq<Schema>
    requires s.Node?
  {
    Combinators(s) + Items(s) + PropertySchemas(s.properties)
  }

  // ----- Reachability ------------------------------------------------------------------------

  ghost predicate Step(table: Components, a: Schema, b: Schema) {
    if a.Ref? then b == Lookup(table, Name(a)) else b in Children(a)
  }

  /** A walk through the schema graph that follows no reference named in `avoid`. */
  ghost predicate Walk(table: Components, p: seq<Schema>, avoid: set<string>) {
    |p| > 0 &&
    forall i | 0 <= i < |p| - 1 ::
      Step(table, p[i], p[i + 1]) && (p[i].Ref? ==> Name(p[i]) !in avoid)
  }

  ghost predicate WalkBetween(table: Components, p: seq<Schema>, a: Schema, b: Schema, avoid: set<string>) {
    Walk(table, p, avoid) && p[0] == a && p[|p| - 1] == b
  }

  ghost predicate Reaches(table: Components, a: Schema, b: Schema, avoid: set<string>) {
    exists p :: WalkBetween(table, p, a, b, avoid)
  }

  /** Some object schema reachable from `a` declares `field`. */
  ghost predicate HasField(table: Components, a: Schema, field: string, avoid: set<string>) {
    exists b :: Reaches(table, a, b, avoid) && b.Node? && field in PropertyNames(b.properties)
  }

  /** The component `name` is referenced by some schema reachable from `a`. */
  ghost predicate Visits(table: Components, a: Schema, name: string, avoid: set<string>) {
    name !in avoid && exists b :: Reaches(table, a, b, avoid) && b.Ref? && Name(b) == name
  }

  lemma ReachesSelf(table: Components, a: Schema, avoid: set<string>)
    ensures Reaches(table, a, a, avoid)
  {
    assert WalkBetween(table, [a], a, a, avoid);
  }

  lemma ReachesStep(table: Components, a: Schema, b: Schema, avoid: set<string>)
    requires Step(table, a, b) && (a.Ref? ==> Name(a) !in avoid)
    ensures Reaches(table, a, b, avoid)
  {
    assert WalkBetween(table, [a, b], a, b, avoid);
  }

  lemma ReachesTransitive(table: Components, a: Schema, b: Schema, c: Schema, avoid: set<string>)
    requires Reaches(table, a, b, avoid) && Reaches(table, b, c, avoid)
    ensures Reaches(table, a, c, avoid)
  {
    var p :| WalkBetween(table, p, a, b, avoid);
    var q :| WalkBetween(table, q, b, c, avoid);
    var r := p + q[1..];
    forall i | 0 <= i < |r| - 1
      ensures Step(table, r[i], r[i + 1]) && (r[i].Ref? ==> Name(r[i]) !in avoid)
    {
      if i >= |p| - 1 {
        assert r[i] == q[i - (|p| - 1)] && r[i + 1] == q[i - (|p| - 1) + 1];
      }
    }
    assert WalkBetween(table, r, a, c, avoid);
  }

  lemma ReachesWithFewerAvoided(table: Components, a: Schema, b: Schema, more: set<string>, fewer: set<string>)
    requires fewer <= more && Reaches(table, a, b, more)
    ensures Reaches(table, a, b, fewer)
  {
    var p :| WalkBetween(table, p, a, b, more);
    assert WalkBetween(table, p, a, b, fewer);
  }

  /** A walk either avoids the names in `extra` as well, or passes through one of them. */
  lemma AvoidsOrPassesThrough(table: Components, a: Schema, b: Schema, avoid: set<string>, extra: set<string>)
    requires Reaches(table, a, b, avoid)
    ensures Reaches(table, a, b, avoid + extra) ||
            exists c: Schema :: c.Ref? && Name(c) in extra && Name(c) !in avoid && Reaches(table, c, b, avoid)
  {
    var p: seq<Schema> :| WalkBetween(table, p, a, b, avoid);
    if exists i :: 0 <= i < |p| - 1 && p[i].Ref? && Name(p[i]) in extra {
      var i :| 0 <= i < |p| - 1 && p[i].Ref? && Name(p[i]) in extra;
      assert WalkBetween(table, p[i..], p[i], b, avoid);
    } else {
      assert WalkBetween(table, p, a, b, avoid + extra);
    }
  }

  /** A walk from the definition of `name` need not come back to `name`: drop everything up to the
      last time it does. */
  lemma {:induction false} DropReturns(table: Components, p: seq<Schema>, name: string, b: Schema, avoid: set<string>)
    requires WalkBetween(table, p, Lookup(table, name), b, avoid)
    ensures Reaches(table, Lookup(table, name), b, avoid + {name})
    decreases |p|
  {
    if i :| 0 <= i < |p| - 1 && p[i].Ref? && Name(p[i]) == name {
      assert Step(table, p[i], p[i + 1]);
      DropReturns(table, p[i + 1..], name, b, avoid);
    } else {
      assert WalkBetween(table, p, Lookup(table, name), b, avoid + {name});
    }
  }

  /** What a fresh reference reaches beyond itself is what its definition reaches without it. */
  lemma ReachesThroughRef(table: Components, a: Schema, b: Schema, avoid: set<string>)
    requires a.Ref? && Name(a) !in avoid
    ensures Reaches(table, a, b, avoid) <==>
            a == b || Reaches(table, Lookup(table, Name(a)), b, avoid + {Name(a)})
  {
    var next := Lookup(table, Name(a));
    if a == b {
      ReachesSelf(table, a, avoid);
    }
    if Reaches(table, a, b, avoid) && a != b {
      var p :| WalkBetween(table, p, a, b, avoid);
      assert Step(table, p[0], p[1]);
      assert WalkBetween(table, p[1..], next, b, avoid);
      DropReturns(table, p[1..], Name(a), b, avoid);
    }
    if Reaches(table, next, b, avoid + {Name(a)}) {
      ReachesWithFewerAvoided(table, next, b, avoid + {Name(a)}, avoid);
      ReachesStep(table, a, next, avoid);
      ReachesTransitive(table, a, next, b, avoid);
    }
  }

  lemma ReachesThroughNode(table: Components, a: Schema, b: Schema, avoid: set<string>)
    requires a.Node?
    ensures Reaches(table, a, b, avoid) <==> a == b || exists c :: c in Children(a) && Reaches(table, c, b, avoid)
  {
    if a == b {
      ReachesSelf(table, a, avoid);
    }
    if Reaches(table, a, b, avoid) && a != b {
      var p :| WalkBetween(table, p, a, b, avoid);
      assert Step(table, p[0], p[1]);
      assert WalkBetween(table, p[1..], p[1], b, avoid);
    }
    if c :| c in Children(a) && Reaches(table, c, b, avoid) {
      ReachesStep(table, a, c, avoid);
      ReachesTransitive(table, a, c, b, avoid);
    }
  }

  // ----- What reachability means for each kind of schema ---------------------------------------

  /** The schemas the walk goes on to from an object schema, in the source's own terms; an array
      without `items` goes on to a schema that says nothing. */
  ghost predicate IsBranch(s: Schema, c: Schema)
    requires s.Node?
  {
    c in s.anyOf || c in s.oneOf || c in s.allOf ||
    (s.isArray && c == (if s.items.Some? then s.items.value else Node([], [], [], false, None, []))) ||
    exists j :: 0 <= j < |s.properties| && c == s.properties[j].schema
  }

  lemma BranchesAreChildren(s: Schema, c: Schema)
    requires s.Node?
    ensures c in Children(s) <==> IsBranch(s, c)
  {
    var all, inner := Combinators(s), Combinators(s) + Items(s);
    assert c in all <==> c in s.anyOf || c in s.oneOf || c in s.allOf;
    assert c in Items(s) <==> s.isArray && c == ItemSchema(s);
    assert c in inner <==> c in all || c in Items(s);
    assert Children(s) == inner + PropertySchemas(s.properties);
    if j :| 0 <= j < |s.properties| && c == s.properties[j].schema {
      assert PropertySchemas(s.properties)[j] == c;
    }
  }

  ghost predicate Declares(s: Schema, field: string)
    requires s.Node?
  {
    exists j :: 0 <= j < |s.properties| && s.properties[j].name == field
  }

  ghost predicate IsFieldByBranch(table: Components, s: Schema, field: string, avoid: set<string>)
    requires s.Node?
  {
    Declares(s, field) || exists c :: IsBranch(s, c) && HasField(table, c, field, avoid)
  }

  /** An object schema has the fields it declares and those of its branches, and no others, whatever
      references are to be avoided. */
  lemma FieldsByBranch(table: Components, s: Schema, field: string, avoid: set<string>)
    requires s.Node?
    ensures HasField(table, s, field, avoid) <==> IsFieldByBranch(table, s, field, avoid)
  {
    if HasField(table, s, field, avoid) {
      var b :| Reaches(table, s, b, avoid) && b.Node? && field in PropertyNames(b.properties);
      ReachesThroughNode(table, s, b, avoid);
      if b != s {
        var c :| c in Children(s) && Reaches(table, c, b, avoid);
        BranchesAreChildren(s, c);
        assert HasField(table, c, field, avoid);
      }
    }
    if Declares(s, field) {
      ReachesSelf(table, s, avoid);
    }
    if c :| IsBranch(s, c) && HasField(table, c, field, avoid) {
      BranchesAreChildren(s, c);
      var b :| Reaches(table, c, b, avoid) && b.Node? && field in PropertyNames(b.properties);
      ReachesThroughNode(table, s, b, avoid);
    }
  }

  lemma ExactByBranch(table: Components, s: Schema, avoid: set<string>, fields: set<string>, after: set<string>)
    requires s.Node? && Exact(table, s, avoid, fields, after)
    ensures forall f :: f in fields <==> IsFieldByBranch(table, s, f, avoid)
  {
    forall f ensures f in fields <==> IsFieldByBranch(table, s, f, avoid) {
      FieldsByBranch(table, s, f, avoid);
    }
  }

  /** A reference has the fields of the component named after its last slash, and none if there is no
      such component. */
  lemma FieldsByReference(table: Components, s: Schema, prefix: string, name: string, field: string)
    requires s.Ref? && '/' !in name && (s.pointer == name || s.pointer == prefix + "/" + name)
    ensures HasField(table, s, field, {}) <==> name in table && HasField(table, table[name], field, {})
  {
    LastSegmentOf(s.pointer, prefix, name);
    var next := Lookup(table, name);
    if HasField(table, s, field, {}) {
      var b :| Reaches(table, s, b, {}) && b.Node? && field in PropertyNames(b.properties);
      ReachesThroughRef(table, s, b, {});
      ReachesWithFewerAvoided(table, next, b, {} + {name}, {});
      assert HasField(table, next, field, {});
    }
    if HasField(table, next, field, {}) {
      var b :| Reaches(table, next, b, {}) && b.Node? && field in PropertyNames(b.properties);
      ReachesStep(table, s, next, {});
      ReachesTransitive(table, s, next, b, {});
    }
    if name !in table {
      NothingHasNoField(table, field);
    }
  }

  lemma NothingHasNoField(table: Components, field: string)
    ensures !HasField(table, EMPTY, field, {})
  {
    FieldsByBranch(table, EMPTY, field, {});
  }

  lemma {:induction false} LastSegmentOf(pointer: string, prefix: string, name: string)
    requires '/' !in name && (pointer == name || pointer == prefix + "/" + name)
    ensures LastSegment(pointer) == name
    decreases |name|
  {
    if name == [] {
    } else {
      var before, last := name[..|name| - 1], name[|name| - 1];
      assert name == before + [last];
      assert last in name;
      LastSegmentOf(pointer[..|pointer| - 1], prefix, before);
    }
  }

  // ----- The shared visited set ---------------------------------------------------------------

  /** `fields` and `seen` are exact after walking the schemas in `done`, in order, from `avoid`. */
  ghost predicate Explored(table: Components, avoid: set<string>, done: seq<Schema>, names: set<string>,
                           fields: set<string>, seen: set<string>)
  {
    (forall f :: f in fields <==> f in names || exists c :: c in done && HasField(table, c, f, avoid)) &&
    (forall n :: n in seen <==> n in avoid || exists c :: c in done && Visits(table, c, n, avoid))
  }

  /** One finished call, stated against the names it was told to avoid. */
  ghost predicate Exact(table: Components, schema: Schema, avoid: set<string>, fields: set<string>, seen: set<string>) {
    (forall f :: f in fields <==> HasField(table, schema, f, avoid)) &&
    (forall n :: n in seen <==> n in avoid || Visits(table, schema, n, avoid))
  }

  /** What a later sibling misses because an earlier one marked it, the earlier one has found. */
  lemma SiblingReaches(table: Components, avoid: set<string>, done: seq<Schema>, seen: set<string>,
                       s: Schema, b: Schema)
    requires forall n :: n in seen <==> n in avoid || exists c :: c in done && Visits(table, c, n, avoid)
    requires b.Ref? ==> Name(b) !in seen
    ensures Reaches(table, s, b, seen) ==> Reaches(table, s, b, avoid)
    ensures Reaches(table, s, b, avoid) ==>
              Reaches(table, s, b, seen) || exists c :: c in done && Reaches(table, c, b, avoid)
  {
    if Reaches(table, s, b, seen) {
      ReachesWithFewerAvoided(table, s, b, seen, avoid);
    }
    if Reaches(table, s, b, avoid) {
      AvoidsOrPassesThrough(table, s, b, avoid, seen);
      assert avoid + seen == seen;
      if !Reaches(table, s, b, seen) {
        var via: Schema :| via.Ref? && Name(via) in seen && Name(via) !in avoid && Reaches(table, via, b, avoid);
        var c :| c in done && Visits(table, c, Name(via), avoid);
        var mark :| Reaches(table, c, mark, avoid) && mark.Ref? && Name(mark) == Name(via);
        ReachesThroughRef(table, via, b, avoid);
        ReachesThroughRef(table, mark, b, avoid);
        ReachesTransitive(table, c, mark, b, avoid);
      }
    }
  }

  /** A call on the next sibling, told to avoid everything seen so far, keeps the account exact. */
  lemma ExploreNext(table: Components, avoid: set<string>, done: seq<Schema>, names: set<string>,
                    fields: set<string>, seen: set<string>, s: Schema, newFields: set<string>, newSeen: set<string>)
    requires Explored(table, avoid, done, names, fields, seen)
    requires Exact(table, s, seen, newFields, newSeen)
    ensures Explored(table, avoid, done + [s], names, fields + newFields, newSeen)
  {
    var done' := done + [s];
    assert forall c :: c in done' <==> c in done || c == s;
    forall f
      ensures f in fields + newFields <==> f in names || exists c :: c in done' && HasField(table, c, f, avoid)
    {
      if f in newFields {
        var b :| Reaches(table, s, b, seen) && b.Node? && f in PropertyNames(b.properties);
        SiblingReaches(table, avoid, done, seen, s, b);
        assert HasField(table, s, f, avoid);
      }
      if HasField(table, s, f, avoid) {
        var b :| Reaches(table, s, b, avoid) && b.Node? && f in PropertyNames(b.properties);
        SiblingReaches(table, avoid, done, seen, s, b);
        if !Reaches(table, s, b, seen) {
          var c :| c in done && Reaches(table, c, b, avoid);
          assert HasField(table, c, f, avoid);
        }
      }
    }
    forall n
      ensures n in newSeen <==> n in avoid || exists c :: c in done' && Visits(table, c, n, avoid)
    {
      if n !in seen && Visits(table, s, n, seen) {
        var b :| Reaches(table, s, b, seen) && b.Ref? && Name(b) == n;
        SiblingReaches(table, avoid, done, seen, s, b);
        assert Visits(table, s, n, avoid);
      }
      if n !in seen && Visits(table, s, n, avoid) {
        var b :| Reaches(table, s, b, avoid) && b.Ref? && Name(b) == n;
        SiblingReaches(table, avoid, done, seen, s, b);
        assert forall c :: c in done && Reaches(table, c, b, avoid) ==> Visits(table, c, n, avoid);
      }
    }
  }

  /** The walk inside one object schema: `k` children and the first `declared` properties done. */
  ghost predicate ExploredInside(table: Components, avoid: set<string>, schema: Schema, k: nat,
                                 declared: nat, fields: set<string>, seen: set<string>)
    requires schema.Node? && k <= |Children(schema)| && declared <= |schema.properties|
  {
    avoid <= seen &&
    Explored(table, avoid, Children(schema)[..k], PropertyNames(schema.properties[..declared]), fields, seen)
  }

  lemma ExploreChild(table: Components, avoid: set<string>, schema: Schema, k: nat, declared: nat,
                     fields: set<string>, seen: set<string>, newFields: set<string>, newSeen: set<string>)
    requires schema.Node? && k < |Children(schema)| && declared <= |schema.properties|
    requires ExploredInside(table, avoid, schema, k, declared, fields, seen)
    requires Exact(table, Children(schema)[k], seen, newFields, newSeen)
    ensures ExploredInside(table, avoid, schema, k + 1, declared, fields + newFields, newSeen)
  {
    var child, done := Children(schema)[k], Children(schema)[..k];
    var names := PropertyNames(schema.properties[..declared]);
    assert Children(schema)[..k + 1] == done + [child];
    ExploreNext(table, avoid, done, names, fields, seen, child, newFields, newSeen);
  }

  lemma DeclareProperty(table: Components, avoid: set<string>, schema: Schema, k: nat, j: nat,
                        fields: set<string>, seen: set<string>)
    requires schema.Node? && k <= |Children(schema)| && j < |schema.properties|
    requires ExploredInside(table, avoid, schema, k, j, fields, seen)
    ensures ExploredInside(table, avoid, schema, k, j + 1, fields + {schema.properties[j].name}, seen)
  {
    var ps := schema.properties;
    assert PropertyNames(ps[..j + 1]) == PropertyNames(ps[..j]) + {ps[j].name};
  }

  /** Combinators and items done, and the first `j` properties. */
  ghost predicate ExploredProperties(table: Components, avoid: set<string>, schema: Schema, j: nat,
                                     fields: set<string>, seen: set<string>)
    requires schema.Node? && j <= |schema.properties|
  {
    ExploredInside(table, avoid, schema, |Combinators(schema)| + |Items(schema)| + j, j, fields, seen)
  }

  lemma ExploreItems(table: Components, avoid: set<string>, schema: Schema, fields: set<string>, seen: set<string>,
                     newFields: set<string>, newSeen: set<string>)
    requires schema.Node?
    requires ExploredInside(table, avoid, schema, |Combinators(schema)|, 0, fields, seen)
    requires if schema.isArray then Exact(table, ItemSchema(schema), seen, newFields, newSeen)
             else newFields == {} && newSeen == seen
    ensures ExploredProperties(table, avoid, schema, 0, fields + newFields, newSeen)
  {
    if schema.isArray {
      var k := |Combinators(schema)|;
      assert Children(schema)[k] == ItemSchema(schema);
      ExploreChild(table, avoid, schema, k, 0, fields, seen, newFields, newSeen);
    } else {
      assert fields + newFields == fields;
    }
  }

  lemma ExploreProperty(table: Components, avoid: set<string>, schema: Schema, j: nat,
                        fields: set<string>, seen: set<string>, newFields: set<string>, newSeen: set<string>)
    requires schema.Node? && j < |schema.properties|
    requires ExploredProperties(table, avoid, schema, j, fields, seen)
    requires Exact(table, schema.properties[j].schema, seen, newFields, newSeen)
    ensures ExploredProperties(table, avoid, schema, j + 1,
                               fields + {schema.properties[j].name} + newFields, newSeen)
  {
    var k := |Combinators(schema)| + |Items(schema)| + j;
    assert Children(schema)[k] == schema.properties[j].schema;
    DeclareProperty(table, avoid, schema, k, j, fields, seen);
    ExploreChild(table, avoid, schema, k, j + 1, fields + {schema.properties[j].name}, seen, newFields, newSeen);
  }

  /** All children explored: the object schema itself is. */
  lemma NodeIsExact(table: Components, schema: Schema, avoid: set<string>, fields: set<string>, seen: set<string>)
    requires schema.Node?
    requires ExploredProperties(table, avoid, schema, |schema.properties|, fields, seen)
    ensures Exact(table, schema, avoid, fields, seen)
  {
    assert Children(schema)[..|Children(schema)|] == Children(schema);
    assert schema.properties[..|schema.properties|] == schema.properties;
    forall f
      ensures f in fields <==> HasField(table, schema, f, avoid)
    {
      if f in PropertyNames(schema.properties) {
        ReachesSelf(table, schema, avoid);
      }
      if c :| c in Children(schema) && HasField(table, c, f, avoid) {
        var b :| Reaches(table, c, b, avoid) && b.Node? && f in PropertyNames(b.properties);
        ReachesThroughNode(table, schema, b, avoid);
      }
      if HasField(table, schema, f, avoid) {
        var b :| Reaches(table, schema, b, avoid) && b.Node? && f in PropertyNames(b.properties);
        ReachesThroughNode(table, schema, b, avoid);
        if b != schema {
          var c :| c in Children(schema) && Reaches(table, c, b, avoid);
          assert HasField(table, c, f, avoid);
        }
      }
    }
    forall n
      ensures n in seen <==> n in avoid || Visits(table, schema, n, avoid)
    {
      if c :| c in Children(schema) && Visits(table, c, n, avoid) {
        var b :| Reaches(table, c, b, avoid) && b.Ref? && Name(b) == n;
        ReachesThroughNode(table, schema, b, avoid);
      }
      if Visits(table, schema, n, avoid) {
        var b :| Reaches(table, schema, b, avoid) && b.Ref? && Name(b) == n;
        ReachesThroughNode(table, schema, b, avoid);
        var c :| c in Children(schema) && Reaches(table, c, b, avoid);
        assert Visits(table, c, n, avoid);
      }
    }
  }

  /** A reference already visited yields nothing. */
  lemma SeenRefIsExact(table: Components, schema: Schema, avoid: set<string>)
    requires schema.Ref? && Name(schema) in avoid
    ensures Exact(table, schema, avoid, {}, avoid)
  {
    forall b | Reaches(table, schema, b, avoid)
      ensures b == schema
    {
      var p :| WalkBetween(table, p, schema, b, avoid);
      if |p| > 1 {
        assert false;
      }
    }
  }

  /** A fresh reference is marked first and then replaced by its definition. */
  lemma FreshRefIsExact(table: Components, schema: Schema, avoid: set<string>, fields: set<string>, seen: set<string>)
    requires schema.Ref? && Name(schema) !in avoid
    requires Exact(table, Lookup(table, Name(schema)), avoid + {Name(schema)}, fields, seen)
    ensures Exact(table, schema, avoid, fields, seen)
  {
    var next := Lookup(table, Name(schema));
    var avoid' := avoid + {Name(schema)};
    forall b
      ensures Reaches(table, schema, b, avoid) <==> schema == b || Reaches(table, next, b, avoid')
    {
      ReachesThroughRef(table, schema, b, avoid);
    }
    ReachesSelf(table, schema, avoid);
    assert forall f :: HasField(table, schema, f, avoid) <==> HasField(table, next, f, avoid');
    assert Visits(table, schema, Name(schema), avoid);
    forall n | n != Name(schema)
      ensures Visits(table, schema, n, avoid) <==> Visits(table, next, n, avoid')
    {
    }
  }

  // ----- The walk ------------------------------------------------------------------------------

  /** Nesting depth of a schema; it bounds the part of the walk that follows no reference. */
  function Depth(s: Schema): nat {
    match s
    case Ref(_) => 1
    case Node(anyOf, oneOf, allOf, isArray, items, properties) =>
      var viaProperties := DepthOfProperties(properties);
      var viaItems := if items.Some? then 1 + Depth(items.value) else 1;
      DepthOfAll(anyOf) + DepthOfAll(oneOf) + DepthOfAll(allOf) + viaProperties + (if isArray then viaItems else 0)
  }

  function DepthOfAll(ss: seq<Schema>): nat {
    if ss == [] then 0 else 1 + Depth(ss[0]) + DepthOfAll(ss[1..])
  }

  function DepthOfProperties(ps: seq<Property>): nat {
    if ps == [] then 0 else 1 + Depth(ps[0].schema) + DepthOfProperties(ps[1..])
  }

  lemma {:induction false} DepthOfMember(ss: seq<Schema>, i: nat)
    requires i < |ss|
    ensures Depth(ss[i]) < DepthOfAll(ss)
  {
    if i == 0 {
    } else {
      DepthOfMember(ss[1..], i - 1);
    }
  }

  lemma {:induction false} DepthOfProperty(ps: seq<Property>, i: nat)
    requires i < |ps|
    ensures Depth(ps[i].schema) < DepthOfProperties(ps)
  {
    if i == 0 {
    } else {
      DepthOfProperty(ps[1..], i - 1);
    }
  }

  lemma FewerUnseen(names: set<string>, avoid: set<string>, seen: set<string>)
    requires avoid <= seen
    ensures |names - seen| <= |names - avoid|
  {
    assert names - avoid == (names - seen) + (names * (seen - avoid));
  }

  /** Every recursive call inside an object schema goes down in the termination measure. */
  lemma ChildIsSmaller(table: Components, schema: Schema, i: nat, avoid: set<string>, seen: set<string>)
    requires schema.Node? && i < |Children(schema)| && avoid <= seen
    ensures |table.Keys - seen| <= |table.Keys - avoid|
    ensures Depth(Children(schema)[i]) < Depth(schema)
  {
    FewerUnseen(table.Keys, avoid, seen);
    var a, b, c := |schema.anyOf|, |schema.oneOf|, |schema.allOf|;
    var d := |Items(schema)|;
    if i < a {
      DepthOfMember(schema.anyOf, i);
    } else if i < a + b {
      DepthOfMember(schema.oneOf, i - a);
    } else if i < a + b + c {
      DepthOfMember(schema.allOf, i - a - b);
    } else if i >= a + b + c + d {
      DepthOfProperty(schema.properties, i - a - b - c - d);
    }
  }

  lemma PropertyIsSmaller(table: Components, schema: Schema, j: nat, avoid: set<string>, seen: set<string>)
    requires schema.Node? && j < |schema.properties| && avoid <= seen
    ensures |table.Keys - seen| <= |table.Keys - avoid|
    ensures Depth(schema.properties[j].schema) < Depth(schema)
  {
    var k := |Combinators(schema)| + |Items(schema)| + j;
    assert Children(schema)[k] == schema.properties[j].schema;
    ChildIsSmaller(table, schema, k, avoid, seen);
  }

  lemma ItemSchemaIsSmaller(table: Components, schema: Schema, avoid: set<string>, seen: set<string>)
    requires schema.Node? && schema.isArray && avoid <= seen
    ensures |table.Keys - seen| <= |table.Keys - avoid|
    ensures Depth(ItemSchema(schema)) < Depth(schema)
  {
    var k := |Combinators(schema)|;
    assert Children(schema)[k] == ItemSchema(schema);
    ChildIsSmaller(table, schema, k, avoid, seen);
  }

  /** Following a reference for the first time goes down in the termination measure, dangling or not. */
  lemma MarkingIsProgress(table: Components, name: string, avoid: set<string>)
    requires name !in avoid
    ensures var left := |table.Keys - (avoid + {name})|;
            left < |table.Keys - avoid| || (left == |table.Keys - avoid| && Depth(Lookup(table, name)) == 0)
  {
    assert table.Keys - (avoid + {name}) == table.Keys - avoid - {name};
  }

  /** The `seen` set object that every recursive call shares and mutates. */
  class VisitedNames {
    var names: set<string>

    constructor ()
      ensures names == {}
    {
      names := {};
    }

    method Add(name: string)
      modifies this
      ensures names == old(names) + {name}
    {
      names := names + {name};
    }
  }

  /** One call with a given visited set.  It returns exactly the fields reachable without following
      a reference that was already marked, and marks exactly the references it could reach. */
  method LeafFields(schema: Schema, table: Components, seen: VisitedNames) returns (fields: set<string>)
    modifies seen
    ensures Exact(table, schema, old(seen.names), fields, seen.names)
    decreases |table.Keys - seen.names|, Depth(schema), 2
  {
    ghost var avoid := seen.names;
    fields := {};
    if schema.Ref? {
      var name := Name(schema);
      if name in seen.names {
        SeenRefIsExact(table, schema, avoid);
        return;
      }
      MarkingIsProgress(table, name, avoid);
      seen.Add(name);
      fields := LeafFields(Lookup(table, name), table, seen);
      FreshRefIsExact(table, schema, avoid, fields, seen.names);
      return;
    }
    fields := NodeFields(schema, table, seen);
  }

  /** An object schema: combinators, then array items, then properties. */
  method NodeFields(schema: Schema, table: Components, seen: VisitedNames) returns (fields: set<string>)
    requires schema.Node?
    modifies seen
    ensures Exact(table, schema, old(seen.names), fields, seen.names)
    ensures forall f :: f in fields <==> IsFieldByBranch(table, schema, f, old(seen.names))
    decreases |table.Keys - seen.names|, Depth(schema), 1
  {
    ghost var avoid := seen.names;
    fields := CombinatorFields(schema, table, seen, avoid);
    ghost var before := seen.names;
    var sub := {};
    if schema.isArray {
      ItemSchemaIsSmaller(table, schema, avoid, before);
      sub := LeafFields(ItemSchema(schema), table, seen);
    }
    ExploreItems(table, avoid, schema, fields, before, sub, seen.names);
    fields := fields + sub;
    fields := PropertyFields(schema, table, seen, fields, avoid);
    NodeIsExact(table, schema, avoid, fields, seen.names);
    ExactByBranch(table, schema, avoid, fields, seen.names);
  }

  /** The first loop of the walk: `anyOf`, `oneOf` and `allOf` in turn. */
  method CombinatorFields(schema: Schema, table: Components, seen: VisitedNames, ghost avoid: set<string>)
    returns (fields: set<string>)
    requires schema.Node? && avoid == seen.names
    modifies seen
    ensures ExploredInside(table, avoid, schema, |Combinators(schema)|, 0, fields, seen.names)
    ensures avoid <= seen.names
    decreases |table.Keys - avoid|, Depth(schema), 0
  {
    var combinators := Combinators(schema);
    fields := {};
    for i := 0 to |combinators|
      invariant avoid <= seen.names
      invariant ExploredInside(table, avoid, schema, i, 0, fields, seen.names)
    {
      ghost var before := seen.names;
      ChildIsSmaller(table, schema, i, avoid, before);
      var sub := LeafFields(combinators[i], table, seen);
      ExploreChild(table, avoid, schema, i, 0, fields, before, sub, seen.names);
      fields := fields + sub;
    }
  }

  /** The last loop of the walk: each property's name, and whatever its own schema reaches. */
  method PropertyFields(schema: Schema, table: Components, seen: VisitedNames, found: set<string>,
                        ghost avoid: set<string>)
    returns (fields: set<string>)
    requires schema.Node? && avoid <= seen.names
    requires ExploredProperties(table, avoid, schema, 0, found, seen.names)
    modifies seen
    ensures ExploredProperties(table, avoid, schema, |schema.properties|, fields, seen.names)
    decreases |table.Keys - avoid|, Depth(schema), 0
  {
    var properties := schema.properties;
    fields := found;
    for j := 0 to |properties|
      invariant avoid <= seen.names
      invariant ExploredProperties(table, avoid, schema, j, fields, seen.names)
    {
      ghost var before, earlier := seen.names, fields;
      PropertyIsSmaller(table, schema, j, avoid, before);
      fields := fields + {properties[j].name};
      var sub := LeafFields(properties[j].schema, table, seen);
      fields := fields + sub;
      ExploreProperty(table, avoid, schema, j, earlier, before, sub, seen.names);
    }
  }

  /** The report's use of the walk: a fresh visited set per response schema.  Whatever the cycles,
      shared components and dangling references, the result is exactly the reachable field names. */
  method ResponseFields(schema: Schema, table: Components) returns (fields: set<string>)
    ensures forall f :: f in fields <==> HasField(table, schema, f, {})
    ensures schema.Node? ==> forall f :: f in fields <==> IsFieldByBranch(table, schema, f, {})
  {
    var seen := new VisitedNames();
    fields := LeafFields(schema, table, seen);
    if schema.Node? {
      forall f ensures f in fields <==> IsFieldByBranch(table, schema, f, {}) {
        FieldsByBranch(table, schema, f, {});
      }
    }
  }
}
