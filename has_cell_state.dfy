/**
 * Resolution of a dotted column name (`author.posts.title`) against an Eloquent model: which
 * leading segments are relations to follow, which remainder names the attribute, and which
 * related records the loaded relation values lead to.
 */
module CellState {
  import opened Wrappers
  import opened Strings
  import opened Values

  /**
   * What a model class declares: the attribute keys every instance answers to without a value
   * being set (casts, accessors, mutators), and its relation methods with the class each
   * relation leads to.
   */
  datatype ModelType = ModelType(attributes: set<string>, relations: map<string, string>)

  /** The model classes of the application, by class name. */
  type Schema = map<string, ModelType>

  /**
   * The model instance a path walk stands on: its class and the attribute keys set on that
   * very instance. The walk starts on the record itself and then moves to the fresh, empty
   * instance `$relation->getRelated()` gives for each relation it follows.
   */
  datatype Cursor = Cursor(typeName: string, keys: set<string>)

  /** The relation `$record->{$name}()` returns: declared on `parent`, leading to `related`. */
  datatype Relation = Relation(parent: string, name: string, related: string)

  function RootCursor(r: Record): Cursor {
    Cursor(r.typeName, r.attributes.Keys)
  }

  predicate IsWordStart(c: char) {
    IsUpper(c) || IsLower(c) || c == '_' || c as int >= 0x80
  }

  /** A name PHP accepts for a method: relations are methods, so only such a name can be one. */
  predicate IsIdentifier(s: string) {
    |s| > 0 && IsWordStart(s[0]) && forall i :: 0 <= i < |s| ==> IsWordStart(s[i]) || '0' <= s[i] <= '9'
  }

  /** `$record->hasAttribute($key)`. */
  predicate HasAttribute(schema: Schema, c: Cursor, key: string) {
    key in c.keys || (c.typeName in schema && key in schema[c.typeName].attributes)
  }

  /** `$record->isRelation($key)`: the class has a relation method of that name. */
  predicate IsRelation(schema: Schema, c: Cursor, key: string) {
    IsIdentifier(key) && c.typeName in schema && key in schema[c.typeName].relations
  }

  /** The walk goes through `key`: it is a relation and not an attribute of the current instance. */
  predicate CanStep(schema: Schema, c: Cursor, key: string) {
    !HasAttribute(schema, c, key) && IsRelation(schema, c, key)
  }

  /** `$record = $record->{$key}()->getRelated()`. */
  function Step(schema: Schema, c: Cursor, key: string): Cursor
    requires IsRelation(schema, c, key)
  {
    Cursor(schema[c.typeName].relations[key], {})
  }

  /** How many leading `parts` the walk goes through before it stops. */
  function Walk(schema: Schema, c: Cursor, parts: seq<string>): (n: nat)
    ensures n <= |parts|
    decreases |parts|
  {
    if parts == [] || !CanStep(schema, c, parts[0]) then 0
    else 1 + Walk(schema, Step(schema, c, parts[0]), parts[1..])
  }

  /** The instance reached by going through every one of `parts`, or None if some part is not a relation there. */
  function Reach(schema: Schema, c: Cursor, parts: seq<string>): Option<Cursor>
    decreases |parts|
  {
    if parts == [] then Some(c)
    else if !CanStep(schema, c, parts[0]) then None
    else Reach(schema, Step(schema, c, parts[0]), parts[1..])
  }

  /** The walk goes through the longest prefix of `parts` that can be followed, and no further. */
  lemma {:induction false} WalkIsLongest(schema: Schema, c: Cursor, parts: seq<string>)
    ensures Reach(schema, c, parts[..Walk(schema, c, parts)]).Some?
    ensures forall m :: Walk(schema, c, parts) < m <= |parts| ==> Reach(schema, c, parts[..m]).None?
    decreases |parts|
  {
    if parts != [] && CanStep(schema, c, parts[0]) {
      var d := Step(schema, c, parts[0]);
      WalkIsLongest(schema, d, parts[1..]);
      var n := Walk(schema, c, parts);
      assert parts[..n][1..] == parts[1..][..n - 1];
      forall m | n < m <= |parts| ensures Reach(schema, c, parts[..m]).None? {
        assert parts[..m][1..] == parts[1..][..m - 1];
      }
    } else {
      forall m | 0 < m <= |parts| ensures Reach(schema, c, parts[..m]).None? {
        assert parts[..m][0] == parts[0];
      }
    }
  }

  /** The last relation the walk goes through, `getRelationship`'s answer, or None if it goes through none. */
  function LastHop(schema: Schema, c: Cursor, parts: seq<string>): Option<Relation>
    decreases |parts|
  {
    if parts == [] || !CanStep(schema, c, parts[0]) then None
    else
      var d := Step(schema, c, parts[0]);
      var later := LastHop(schema, d, parts[1..]);
      if later.Some? then later else Some(Relation(c.typeName, parts[0], d.typeName))
  }

  /** There is a last relation exactly when the walk goes through at least one, and it is the last part gone through. */
  lemma {:induction false} LastHopIsLastConsumed(schema: Schema, c: Cursor, parts: seq<string>)
    ensures LastHop(schema, c, parts).Some? <==> Walk(schema, c, parts) > 0
    ensures LastHop(schema, c, parts).Some? ==> LastHop(schema, c, parts).value.name == parts[Walk(schema, c, parts) - 1]
    decreases |parts|
  {
    if parts != [] && CanStep(schema, c, parts[0]) {
      LastHopIsLastConsumed(schema, Step(schema, c, parts[0]), parts[1..]);
    }
  }

  // Splitting a column name on dots.

  /** `str($name)->contains('.')`. */
  predicate Dotted(name: string) {
    Contains(name, ".")
  }

  /** `explode('.', $name)`. */
  function Segments(name: string): (parts: seq<string>)
    ensures |parts| >= 1
  {
    Explode(".", name)
  }

  /** `explode('.', $name)` with the last segment popped off: the segments that may be relations. */
  function Leading(name: string): seq<string> {
    var parts := Segments(name);
    parts[..|parts| - 1]
  }

  /** How many leading segments of a dotted name the walk from `c` treats as relations. */
  function Consumed(schema: Schema, c: Cursor, name: string): (n: nat)
    ensures Dotted(name) ==> n < |Segments(name)|
  {
    if Dotted(name) then Walk(schema, c, Leading(name)) else 0
  }

  /** `getRelationshipName`: the consumed segments joined with dots, or null. */
  function RelationshipName(schema: Schema, c: Cursor, name: string): Option<string> {
    if !Dotted(name) then None
    else
      var joined := Implode(".", Leading(name)[..Consumed(schema, c, name)]);
      if Truthy(joined) then Some(joined) else None
  }

  /** `getFullAttributeName`: the unconsumed segments, the last one included, joined with dots. */
  function FullAttributeName(schema: Schema, c: Cursor, name: string): string {
    if !Dotted(name) then name
    else Implode(".", Segments(name)[Consumed(schema, c, name)..])
  }

  /** `getAttributeName`: the first unconsumed segment. */
  function AttributeName(schema: Schema, c: Cursor, name: string): string {
    if !Dotted(name) then name
    else Segments(name)[Consumed(schema, c, name)]
  }

  /** `hasRelationship`: the name is dotted and its first segment is a relation, not an attribute. */
  predicate HasRelationship(schema: Schema, c: Cursor, name: string) {
    Dotted(name) && !HasAttribute(schema, c, Before(name, ".")) && IsRelation(schema, c, Before(name, "."))
  }

  /** `getRelationship($record, $relationshipName)`: the last relation along the given path, or along the leading segments. */
  function RelationshipOf(schema: Schema, c: Cursor, name: string, path: Option<string>): Option<Relation> {
    if path.Some? then LastHop(schema, c, Explode(".", path.value))
    else if !Dotted(name) then None
    else LastHop(schema, c, Leading(name))
  }

  /** The relation names `hasMultipleRelationship` and `getRelationshipResults` follow: `explode('.', $relationshipName ?? '')`. */
  function RelationList(schema: Schema, c: Cursor, name: string): seq<string> {
    Explode(".", RelationshipName(schema, c, name).GetOr(""))
  }

  lemma {:induction false} SegmentsRejoin(name: string)
    ensures Implode(".", Segments(name)) == name
    ensures forall k :: 0 <= k < |Segments(name)| ==> '.' !in Segments(name)[k]
    ensures |Segments(name)| >= 2 <==> Dotted(name)
  {
    ExplodePieces(".", name);
    forall k | 0 <= k < |Segments(name)| ensures '.' !in Segments(name)[k] {
      ContainsChar(Segments(name)[k], '.');
    }
  }

  /** Joining segments the walk went through gives a truthy string: each is an identifier. */
  lemma {:induction false} ConsumedJoinTruthy(schema: Schema, c: Cursor, parts: seq<string>)
    requires Walk(schema, c, parts) > 0
    ensures Truthy(Implode(".", parts[..Walk(schema, c, parts)]))
  {
    var taken := parts[..Walk(schema, c, parts)];
    ImplodeStartsWith(".", taken);
    assert IsIdentifier(taken[0]);
    var s := Implode(".", taken);
    assert s[0] == taken[0][0];
  }

  /** `hasRelationship` holds exactly when `getRelationshipName` and `getRelationship` are non-null. */
  lemma {:induction false} HasRelationshipIff(schema: Schema, c: Cursor, name: string)
    ensures HasRelationship(schema, c, name) <==> RelationshipName(schema, c, name).Some?
    ensures HasRelationship(schema, c, name) <==> RelationshipOf(schema, c, name, None).Some?
  {
    if Dotted(name) {
      SegmentsRejoin(name);
      var lead := Leading(name);
      assert lead[0] == Segments(name)[0] == Before(name, ".");
      LastHopIsLastConsumed(schema, c, lead);
      if Walk(schema, c, lead) > 0 {
        ConsumedJoinTruthy(schema, c, lead);
      } else {
        assert lead[..0] == [];
      }
    }
  }

  /**
   * The name is the relationship name, a dot and the full attribute name when there is a
   * relationship, and the full attribute name alone otherwise.
   */
  lemma {:induction false} NameReconstruction(schema: Schema, c: Cursor, name: string)
    ensures RelationshipName(schema, c, name).Some? ==>
      RelationshipName(schema, c, name).value + "." + FullAttributeName(schema, c, name) == name
    ensures RelationshipName(schema, c, name).None? ==> FullAttributeName(schema, c, name) == name
  {
    if Dotted(name) {
      SegmentsRejoin(name);
      var parts := Segments(name);
      var k := Consumed(schema, c, name);
      if k == 0 {
        assert parts[k..] == parts;
        assert Leading(name)[..0] == [];
      } else {
        ConsumedJoinTruthy(schema, c, Leading(name));
        assert Leading(name)[..k] == parts[..k];
        assert parts == parts[..k] + parts[k..];
        ImplodeAppend(".", parts[..k], parts[k..]);
      }
    }
  }

  /**
   * The full attribute name splits back into the unconsumed segments: its first segment is
   * the attribute name and its last is always the name's last segment, which the walk never
   * consumes.
   */
  lemma {:induction false} FullAttributeNameSegments(schema: Schema, c: Cursor, name: string)
    ensures var full := Explode(".", FullAttributeName(schema, c, name));
      full[0] == AttributeName(schema, c, name) && full[|full| - 1] == Segments(name)[|Segments(name)| - 1]
  {
    SegmentsRejoin(name);
    var parts := Segments(name);
    if Dotted(name) {
      var k := Consumed(schema, c, name);
      var tail := parts[k..];
      assert forall j :: 0 <= j < |tail| ==> '.' !in tail[j] by {
        forall j | 0 <= j < |tail| ensures '.' !in tail[j] {
          assert tail[j] == parts[k + j];
        }
      }
      ExplodeImplode('.', tail);
      assert Explode(".", FullAttributeName(schema, c, name)) == tail;
    } else {
      assert |parts| == 1;
      assert Implode(".", parts) == parts[0];
    }
  }

  // Following the loaded relation values.

  /** `$record->getRelationValue($key)` on a record whose relations are all loaded: absent reads as null. */
  function RelationValue(r: Record, key: string): Loaded {
    if key in r.relations then r.relations[key] else Missing
  }

  /** `hasMultipleRelationship`: the walk along `rels` meets a collection before a null or the last name. */
  predicate HasMultiple(r: Record, rels: seq<string>) {
    if rels == [] then false
    else
      match RelationValue(r, rels[0])
      case Many(_) => true
      case Missing => false
      case One(next) => |rels| > 1 && HasMultiple(next, rels[1..])
  }

  /** `getRelationshipResults`: the records at the end of the path, fanning out over every collection met. */
  function Results(r: Record, rels: seq<string>): seq<Record>
    decreases |rels|, 0
  {
    if rels == [] then []
    else
      match RelationValue(r, rels[0])
      case Missing => []
      case One(next) => if |rels| == 1 then [next] else Results(next, rels[1..])
      case Many(ms) => if |rels| == 1 then ms else ResultsOfEach(ms, rels[1..])
  }

  /** The results for each member of a collection, concatenated in member order. */
  function ResultsOfEach(ms: seq<Record>, rels: seq<string>): seq<Record>
    decreases |rels|, 1, |ms|
  {
    if ms == [] then []
    else ResultsOfEach(ms[..|ms| - 1], rels) + Results(ms[|ms| - 1], rels)
  }

  lemma {:induction false} ResultsOfEachAppend(a: seq<Record>, b: seq<Record>, rels: seq<string>)
    ensures ResultsOfEach(a + b, rels) == ResultsOfEach(a, rels) + ResultsOfEach(b, rels)
    decreases |b|
  {
    if b == [] {
      assert a + b == a;
    } else {
      assert (a + b)[..|a + b| - 1] == a + b[..|b| - 1];
      ResultsOfEachAppend(a, b[..|b| - 1], rels);
    }
  }

  /** Without a to-many hop the path leads to at most one record. */
  lemma {:induction false} SingleValuedPath(r: Record, rels: seq<string>)
    requires !HasMultiple(r, rels)
    ensures |Results(r, rels)| <= 1
    decreases |rels|
  {
    if rels != [] {
      match RelationValue(r, rels[0])
      case Missing =>
      case Many(_) =>
      case One(next) =>
        if |rels| > 1 {
          SingleValuedPath(next, rels[1..]);
        }
    }
  }

  /** Every record reached through a member of a collection comes from that member's own results. */
  lemma {:induction false} ResultsOfEachMembers(ms: seq<Record>, rels: seq<string>, x: Record)
    ensures x in ResultsOfEach(ms, rels) <==> exists j :: 0 <= j < |ms| && x in Results(ms[j], rels)
    decreases |ms|
  {
    if ms != [] {
      var init := ms[..|ms| - 1];
      ResultsOfEachMembers(init, rels, x);
      if x in ResultsOfEach(ms, rels) && x !in Results(ms[|ms| - 1], rels) {
        var j :| 0 <= j < |init| && x in Results(init[j], rels);
        assert ms[j] == init[j];
      }
      if exists j :: 0 <= j < |ms| && x in Results(ms[j], rels) {
        var j :| 0 <= j < |ms| && x in Results(ms[j], rels);
        if j < |ms| - 1 {
          assert init[j] == ms[j];
        }
      }
    }
  }

  /** The relation names the walk consumed are exactly what `explode('.', $relationshipName)` gives back. */
  lemma {:induction false} RelationListIsConsumed(schema: Schema, c: Cursor, name: string)
    requires RelationshipName(schema, c, name).Some?
    ensures RelationList(schema, c, name) == Leading(name)[..Consumed(schema, c, name)]
  {
    SegmentsRejoin(name);
    var taken := Leading(name)[..Consumed(schema, c, name)];
    assert |taken| >= 1;
    forall k | 0 <= k < |taken| ensures '.' !in taken[k] {
      assert taken[k] == Segments(name)[k];
    }
    ExplodeImplode('.', taken);
  }

  /** `posts.title` splits into a relation candidate `posts` and the last segment `title`. */
  lemma {:induction false} PostsTitleSegments()
    ensures Dotted("posts.title") && Segments("posts.title") == ["posts", "title"]
    ensures Leading("posts.title") == ["posts"] && Before("posts.title", ".") == "posts"
    ensures Explode(".", "posts") == ["posts"]
  {
    var parts := ["posts", "title"];
    assert Implode(".", parts) == "posts.title";
    ExplodeImplode('.', parts);
    SegmentsRejoin("posts.title");
    ExplodeImplode('.', ["posts"]);
  }

  /** A schema with a class `Owner` whose `posts` relation leads to `Post`. */
  function OwnerSchema(): Schema {
    map["Owner" := ModelType({}, map["posts" := "Post"]), "Post" := ModelType({}, map[])]
  }

  /** `posts.title` on a model with a `posts` relation: the relation `posts`, the attribute `title`. */
  lemma {:induction false} PostsTitleExample()
    ensures var c := Cursor("Owner", {});
      && HasRelationship(OwnerSchema(), c, "posts.title")
      && RelationshipName(OwnerSchema(), c, "posts.title") == Some("posts")
      && RelationshipOf(OwnerSchema(), c, "posts.title", None) == Some(Relation("Owner", "posts", "Post"))
      && AttributeName(OwnerSchema(), c, "posts.title") == "title"
      && FullAttributeName(OwnerSchema(), c, "posts.title") == "title"
  {
    PostsTitleSegments();
    assert IsIdentifier("posts");
    assert Consumed(OwnerSchema(), Cursor("Owner", {}), "posts.title") == 1;
    assert Segments("posts.title")[1..] == ["title"];
  }

  /** With a loaded collection of posts, the path fans out to exactly those posts. */
  lemma {:induction false} PostsResultsExample(post: Record)
    ensures var owner := Record("Owner", map[], map["posts" := Many([post])]);
      var rels := RelationList(OwnerSchema(), RootCursor(owner), "posts.title");
      HasMultiple(owner, rels) && Results(owner, rels) == [post]
  {
    PostsTitleExample();
    PostsTitleSegments();
    var owner := Record("Owner", map[], map["posts" := Many([post])]);
    assert RootCursor(owner) == Cursor("Owner", {});
    var rels := RelationList(OwnerSchema(), RootCursor(owner), "posts.title");
    assert rels == ["posts"];
    assert RelationValue(owner, "posts") == Many([post]);
  }

  /** On a model without relations `posts.title` stays whole, and an undotted name is its own attribute. */
  lemma {:induction false} PlainNameExamples()
    ensures FullAttributeName(map["Owner" := ModelType({}, map[])], Cursor("Owner", {}), "posts.title") == "posts.title"
    ensures !HasRelationship(OwnerSchema(), Cursor("Owner", {}), "name")
    ensures RelationshipName(OwnerSchema(), Cursor("Owner", {}), "name") == None
    ensures AttributeName(OwnerSchema(), Cursor("Owner", {}), "name") == "name"
  {
    PostsTitleSegments();
    assert Segments("posts.title")[0..] == ["posts", "title"];
    ContainsChar("name", '.');
  }

  // The loops of the source, each proved to compute the function above it.

  /** `getRelationshipName`. */
  method GetRelationshipName(schema: Schema, record: Cursor, name: string) returns (r: Option<string>)
    ensures r == RelationshipName(schema, record, name)
  {
    if !Dotted(name) {
      return None;
    }
    var nameParts := Explode(".", name);
    nameParts := nameParts[..|nameParts| - 1];
    var relationshipParts: seq<string> := [];
    var current := record;
    var i := 0;
    while i < |nameParts|
      invariant 0 <= i <= |nameParts|
      invariant relationshipParts == nameParts[..i]
      invariant Walk(schema, record, nameParts) == i + Walk(schema, current, nameParts[i..])
    {
      var part := nameParts[i];
      if HasAttribute(schema, current, part) {
        break;
      }
      if !IsRelation(schema, current, part) {
        break;
      }
      relationshipParts := relationshipParts + [part];
      current := Step(schema, current, part);
      assert nameParts[i..][1..] == nameParts[i + 1..];
      i := i + 1;
    }
    var joined := Implode(".", relationshipParts);
    r := if Truthy(joined) then Some(joined) else None;
  }

  /** `getFullAttributeName`: the foreach runs over a copy while `array_shift` drops consumed parts. */
  method GetFullAttributeName(schema: Schema, record: Cursor, name: string) returns (r: string)
    ensures r == FullAttributeName(schema, record, name)
  {
    if !Dotted(name) {
      return name;
    }
    var all := Explode(".", name);
    var lastPart := all[|all| - 1];
    var parts := all[..|all| - 1];
    var nameParts := parts;
    var current := record;
    var i := 0;
    while i < |parts|
      invariant 0 <= i <= |parts|
      invariant nameParts == parts[i..]
      invariant Walk(schema, record, parts) == i + Walk(schema, current, parts[i..])
    {
      var part := parts[i];
      if HasAttribute(schema, current, part) {
        break;
      }
      if !IsRelation(schema, current, part) {
        break;
      }
      nameParts := nameParts[1..];
      current := Step(schema, current, part);
      i := i + 1;
    }
    assert nameParts + [lastPart] == all[i..];
    r := Implode(".", nameParts + [lastPart]);
  }

  /** `getAttributeName`: `Arr::first` of the parts left after the walk. */
  method GetAttributeName(schema: Schema, record: Cursor, name: string) returns (r: string)
    ensures r == AttributeName(schema, record, name)
  {
    if !Dotted(name) {
      return name;
    }
    var all := Explode(".", name);
    var lastPart := all[|all| - 1];
    var parts := all[..|all| - 1];
    var nameParts := parts;
    var current := record;
    var i := 0;
    while i < |parts|
      invariant 0 <= i <= |parts|
      invariant nameParts == parts[i..]
      invariant Walk(schema, record, parts) == i + Walk(schema, current, parts[i..])
    {
      var part := parts[i];
      if HasAttribute(schema, current, part) {
        break;
      }
      if !IsRelation(schema, current, part) {
        break;
      }
      nameParts := nameParts[1..];
      current := Step(schema, current, part);
      i := i + 1;
    }
    assert (nameParts + [lastPart])[0] == all[i];
    r := (nameParts + [lastPart])[0];
  }

  /** `getRelationship($record, $relationshipName)`. */
  method GetRelationship(schema: Schema, record: Cursor, name: string, relationshipName: Option<string>)
    returns (relationship: Option<Relation>)
    ensures relationship == RelationshipOf(schema, record, name, relationshipName)
  {
    var nameParts: seq<string>;
    if relationshipName.Some? {
      nameParts := Explode(".", relationshipName.value);
    } else {
      if !Dotted(name) {
        return None;
      }
      nameParts := Explode(".", name);
      nameParts := nameParts[..|nameParts| - 1];
    }
    relationship := None;
    var current := record;
    var i := 0;
    while i < |nameParts|
      invariant 0 <= i <= |nameParts|
      invariant LastHop(schema, record, nameParts) ==
        if LastHop(schema, current, nameParts[i..]).Some? then LastHop(schema, current, nameParts[i..]) else relationship
    {
      var part := nameParts[i];
      if HasAttribute(schema, current, part) {
        break;
      }
      if !IsRelation(schema, current, part) {
        break;
      }
      var related := Step(schema, current, part);
      relationship := Some(Relation(current.typeName, part, related.typeName));
      assert nameParts[i..][1..] == nameParts[i + 1..];
      current := related;
      i := i + 1;
    }
  }

  /** `hasMultipleRelationship`. */
  method HasMultipleRelationship(schema: Schema, record: Record, name: string) returns (b: bool)
    ensures b == HasMultiple(record, RelationList(schema, RootCursor(record), name))
  {
    var relationshipName := GetRelationshipName(schema, RootCursor(record), name);
    var relationships := Explode(".", relationshipName.GetOr(""));
    ghost var all := relationships;
    var current := record;
    while |relationships| > 0
      invariant HasMultiple(record, all) == HasMultiple(current, relationships)
    {
      var currentName := relationships[0];
      relationships := relationships[1..];
      var value := RelationValue(current, currentName);
      if value.Many? {
        return true;
      }
      if !value.One? {
        break;
      }
      if |relationships| == 0 {
        break;
      }
      current := value.record;
    }
    return false;
  }

  /**
   * `getRelationshipResults($record, $relationships)`: a collection at the last name adds all
   * its members, a collection part way along adds each member's own results, a null stops.
   */
  method GetRelationshipResults(schema: Schema, record: Record, name: string, relationships: Option<seq<string>>)
    returns (results: seq<Record>)
    ensures results == Results(record, relationships.GetOr(RelationList(schema, RootCursor(record), name)))
    decreases if relationships.Some? then |relationships.value| else |RelationList(schema, RootCursor(record), name)| + 1, 0
  {
    results := [];
    var rels: seq<string>;
    if relationships.Some? {
      rels := relationships.value;
    } else {
      var relationshipName := GetRelationshipName(schema, RootCursor(record), name);
      rels := Explode(".", relationshipName.GetOr(""));
    }
    ghost var all := rels;
    var current := record;
    while |rels| > 0
      invariant |rels| <= |all|
      invariant results + Results(current, rels) == Results(record, all)
    {
      var currentName := rels[0];
      ghost var before := rels;
      rels := rels[1..];
      var value := RelationValue(current, currentName);
      assert before[1..] == rels;
      if value.Many? {
        if |rels| == 0 {
          assert Results(current, before) == value.members;
          results := results + value.members;
          continue;
        }
        var more := ResultsOfMembers(schema, value.members, name, rels);
        assert Results(current, before) == more;
        results := results + more;
        break;
      }
      if !value.One? {
        break;
      }
      if |rels| == 0 {
        assert Results(current, before) == [value.record];
        results := results + [value.record];
        break;
      }
      assert Results(current, before) == Results(value.record, rels);
      current := value.record;
    }
  }

  /** The `foreach` of `getRelationshipResults` over a collection met part way along the path. */
  method ResultsOfMembers(schema: Schema, members: seq<Record>, name: string, rels: seq<string>)
    returns (results: seq<Record>)
    ensures results == ResultsOfEach(members, rels)
    decreases |rels|, 1
  {
    results := [];
    var j := 0;
    while j < |members|
      invariant 0 <= j <= |members|
      invariant results == ResultsOfEach(members[..j], rels)
    {
      var more := GetRelationshipResults(schema, members[j], name, Some(rels));
      assert members[..j + 1][..j] == members[..j];
      results := results + more;
      j := j + 1;
    }
    assert members[..j] == members;
  }
}
