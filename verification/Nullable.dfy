/** The nullable rewrite of the published API schema.
 *
 * A two-way choice between a schema and null is folded into the schema: into a type array where the kept
 * branch has a plain type, into the bare reference where it is one.
 */
module Nullable {
  import opened Wrappers

  datatype Json =
    | Null
    | Bool(flag: bool)
    | Num(number: real)
    | Str(text: string)
    | Arr(items: seq<Json>)
    | Obj(fields: map<string, Json>)

  /** The schema that accepts null alone. */
  const NULL_SCHEMA := Obj(map["type" := Str("null")])

  // ---------------------------------------------------------------- the rewrite

  /** The branch that a two-way choice with null keeps, if the node is one. */
  function Kept(m: map<string, Json>): Option<Json> {
    if "anyOf" in m && m["anyOf"].Arr? && |m["anyOf"].items| == 2 then
      var a, b := m["anyOf"].items[0], m["anyOf"].items[1];
      if a == NULL_SCHEMA && b != NULL_SCHEMA then Some(b)
      else if b == NULL_SCHEMA && a != NULL_SCHEMA then Some(a)
      else None
    else None
  }

  /** The node is a choice the rewrite folds. */
  predicate Rewritable(m: map<string, Json>) {
    Kept(m).Some? && Kept(m).value.Obj?
    && ("$ref" in Kept(m).value.fields || ("type" in Kept(m).value.fields && Kept(m).value.fields["type"].Str?))
  }

  /** Fold a choice into its kept branch, whose keywords win over the node's own. */
  function Folded(m: map<string, Json>): map<string, Json>
    requires Rewritable(m)
  {
    var kept := Kept(m).value.fields;
    if "$ref" in kept then (m - {"anyOf"}) + kept
    else (m - {"anyOf"}) + kept["type" := Arr([kept["type"], Str("null")])]
  }

  /** The rewrite, children first. */
  function Normalise(j: Json): Json {
    match j
    case Arr(items) => Arr(seq(|items|, i requires 0 <= i < |items| => Normalise(items[i])))
    case Obj(fields) =>
      var m := map k | k in fields :: Normalise(fields[k]);
      if Rewritable(m) then Obj(Folded(m)) else Obj(m)
    case _ => j
  }

  function Children(fields: map<string, Json>): map<string, Json> {
    map k | k in fields :: Normalise(fields[k])
  }

  /** The rewrite runs into a branch that is not an object somewhere, and stops with an error. */
  predicate Fails(j: Json) {
    match j
    case Arr(items) => exists i | 0 <= i < |items| :: Fails(items[i])
    case Obj(fields) => (exists k | k in fields :: Fails(fields[k])) || (Kept(fields).Some? && !Kept(fields).value.Obj?)
    case _ => false
  }

  datatype ExportError = KeptBranchNotAnObject

  function Export(j: Json): Result<Json, ExportError> {
    if Fails(j) then Err(KeptBranchNotAnObject) else Ok(Normalise(j))
  }

  // ---------------------------------------------------------------- shape

  lemma NormaliseKinds(j: Json)
    ensures Normalise(j).Obj? <==> j.Obj?
    ensures Normalise(j).Arr? <==> j.Arr?
    ensures Normalise(j).Str? ==> Normalise(j) == j
    ensures Normalise(j).Arr? ==> |Normalise(j).items| == |j.items|
  {
  }

  lemma FoldedIsNotNull(m: map<string, Json>)
    requires Rewritable(m)
    ensures Obj(Folded(m)) != NULL_SCHEMA
  {
    var f := Folded(m);
    assert "$ref" in f || ("type" in f && f["type"].Arr?);
  }

  lemma OnlyNullIsNull(fields: map<string, Json>)
    requires Children(fields) == NULL_SCHEMA.fields
    ensures Obj(fields) == NULL_SCHEMA
  {
    assert fields.Keys == Children(fields).Keys;
    assert "type" in fields;
    NormaliseKinds(fields["type"]);
  }

  /** The null schema comes from itself and from nothing else. */
  lemma NullSchemaIsFixed(j: Json)
    ensures Normalise(j) == NULL_SCHEMA <==> j == NULL_SCHEMA
  {
    if j.Obj? {
      var m := Children(j.fields);
      if j == NULL_SCHEMA {
        assert m == j.fields;
        assert "anyOf" !in m;
      } else if Rewritable(m) {
        FoldedIsNotNull(m);
      } else if m == NULL_SCHEMA.fields {
        OnlyNullIsNull(j.fields);
      }
    }
  }

  /** Rewriting the children does not change which branch a choice keeps. */
  lemma KeptOfChildren(fields: map<string, Json>)
    ensures Kept(Children(fields)).Some? <==> Kept(fields).Some?
    ensures Kept(fields).Some? ==> Kept(Children(fields)).value == Normalise(Kept(fields).value)
  {
    if "anyOf" in fields {
      NormaliseKinds(fields["anyOf"]);
      if fields["anyOf"].Arr? && |fields["anyOf"].items| == 2 {
        NullSchemaIsFixed(fields["anyOf"].items[0]);
        NullSchemaIsFixed(fields["anyOf"].items[1]);
      }
    }
  }

  // ---------------------------------------------------------------- nothing is left, and once is enough

  /** The node offers two options, one of them null and the other an object that is a reference or names one
   * type. */
  ghost predicate NullChoice(m: map<string, Json>, kept: Json) {
    && "anyOf" in m && (m["anyOf"] == Arr([kept, NULL_SCHEMA]) || m["anyOf"] == Arr([NULL_SCHEMA, kept]))
    && kept != Obj(map["type" := Str("null")]) && kept.Obj?
    && ("$ref" in kept.fields || ("type" in kept.fields && kept.fields["type"].Str?))
  }

  ghost predicate HasNullChoice(m: map<string, Json>) {
    exists kept :: NullChoice(m, kept)
  }

  /** These are the nodes that the rewrite folds, and this is the option it keeps. */
  lemma FoldsChoices(m: map<string, Json>)
    ensures Rewritable(m) <==> HasNullChoice(m)
    ensures forall kept :: NullChoice(m, kept) ==> Kept(m) == Some(kept)
  {
    if Rewritable(m) {
      var a, b := m["anyOf"].items[0], m["anyOf"].items[1];
      assert m["anyOf"] == Arr([a, b]);
      assert NullChoice(m, Kept(m).value);
    }
  }

  /** A fold drops the choice, puts the kept option's keywords over the node's own, and lets a plain type be null
   * as well, unless the option is a reference. */
  lemma FoldsExactly(m: map<string, Json>, kept: Json, k: string)
    requires NullChoice(m, kept)
    ensures Rewritable(m)
    ensures k in Folded(m) <==> (k in m && k != "anyOf") || k in kept.fields
    ensures k in Folded(m) ==>
              Folded(m)[k] == if k !in kept.fields then m[k]
                              else if k == "type" && "$ref" !in kept.fields then Arr([kept.fields["type"], Str("null")])
                              else kept.fields[k]
  {
    FoldsChoices(m);
    FoldedParts(m);
  }

  lemma FoldedParts(m: map<string, Json>)
    requires Rewritable(m)
    ensures var kept := Kept(m).value.fields;
            Folded(m) == (m - {"anyOf"}) + if "$ref" in kept then kept
              else kept["type" := Arr([kept["type"], Str("null")])]
  {
  }

  /** No such choice, anywhere. */
  ghost predicate Clean(j: Json) {
    match j
    case Arr(items) => forall i | 0 <= i < |items| :: Clean(items[i])
    case Obj(fields) => !HasNullChoice(fields) && forall k | k in fields :: Clean(fields[k])
    case _ => true
  }

  /** Folding clean children leaves a clean node. */
  lemma FoldedIsClean(m: map<string, Json>)
    requires Rewritable(m) && forall k :: k in m ==> Clean(m[k])
    ensures Clean(Obj(Folded(m)))
  {
    var kept := Kept(m).value;
    var f := Folded(m);
    FoldsChoices(kept.fields);
    FoldsChoices(f);
    hide HasNullChoice;
    assert m["anyOf"] == Arr(m["anyOf"].items) && Clean(m["anyOf"]);
    assert Clean(kept);
    assert !Rewritable(kept.fields);
    assert "anyOf" in f ==> "anyOf" in kept.fields && f["anyOf"] == kept.fields["anyOf"];
    assert !Rewritable(f);
    forall k | k in f ensures Clean(f[k]) {
      if k in kept.fields {
        assert Clean(kept.fields[k]);
        if f[k] != kept.fields[k] {
          assert f[k] == Arr([kept.fields["type"], Str("null")]);
          assert kept.fields["type"].Str?;
        }
      }
    }
  }

  /** The output has no choice with null left that is a reference or a plain type, at any depth. */
  lemma {:induction false} NormaliseIsClean(j: Json)
    ensures Clean(Normalise(j))
  {
    match j
    case Arr(items) =>
      forall i | 0 <= i < |items| ensures Clean(Normalise(items[i])) {
        NormaliseIsClean(items[i]);
      }
    case Obj(fields) =>
      var m := Children(fields);
      FoldsChoices(m);
      hide HasNullChoice;
      forall k | k in fields ensures Clean(m[k]) {
        NormaliseIsClean(fields[k]);
      }
      if Rewritable(m) {
        FoldedIsClean(m);
      }
    case _ =>
  }

  /** A clean document is left alone. */
  lemma {:induction false} CleanIsFixed(j: Json)
    requires Clean(j)
    ensures Normalise(j) == j
  {
    match j
    case Arr(items) =>
      forall i | 0 <= i < |items| ensures Normalise(items[i]) == items[i] {
        CleanIsFixed(items[i]);
      }
      assert Normalise(j).items == items;
    case Obj(fields) =>
      forall k | k in fields ensures Normalise(fields[k]) == fields[k] {
        CleanIsFixed(fields[k]);
      }
      assert Children(fields) == fields;
      FoldsChoices(fields);
    case _ =>
  }

  /** Once is enough; and a document is its own rewrite exactly when it has nothing to fold. */
  lemma Idempotent(j: Json)
    ensures Normalise(Normalise(j)) == Normalise(j)
    ensures Normalise(j) == j <==> Clean(j)
  {
    NormaliseIsClean(j);
    CleanIsFixed(Normalise(j));
    if Clean(j) {
      CleanIsFixed(j);
    }
  }

  /** A rewrite that succeeded succeeds on its own output. */
  lemma {:induction false} SucceedsAgain(j: Json)
    requires !Fails(j)
    ensures !Fails(Normalise(j))
  {
    match j
    case Arr(items) =>
      forall i | 0 <= i < |items| ensures !Fails(Normalise(items[i])) {
        SucceedsAgain(items[i]);
      }
    case Obj(fields) =>
      var m := Children(fields);
      forall k | k in fields ensures !Fails(m[k]) {
        SucceedsAgain(fields[k]);
      }
      KeptOfChildren(fields);
      if Kept(fields).Some? {
        NormaliseKinds(Kept(fields).value);
      }
      assert !Fails(Obj(m));
      if Rewritable(m) {
        FoldedSucceeds(m);
      }
    case _ =>
  }

  lemma FoldedSucceeds(m: map<string, Json>)
    requires Rewritable(m) && !Fails(Obj(m))
    ensures !Fails(Obj(Folded(m)))
  {
    var kept := Kept(m).value;
    var f := Folded(m);
    assert m["anyOf"] == Arr(m["anyOf"].items) && !Fails(m["anyOf"]);
    assert !Fails(kept);
    assert "anyOf" in f ==> "anyOf" in kept.fields && f["anyOf"] == kept.fields["anyOf"];
    forall k | k in f ensures !Fails(f[k]) {
      if k in kept.fields {
        assert !Fails(kept.fields[k]);
        if f[k] != kept.fields[k] {
          assert f[k] == Arr([kept.fields["type"], Str("null")]);
        }
      }
    }
  }

  // ---------------------------------------------------------------- when it fails

  datatype Hop = Under(key: string) | Item(index: nat)

  /** The part of a document that a path leads to, if there is one. */
  function Follow(j: Json, path: seq<Hop>): Option<Json> {
    if path == [] then Some(j)
    else if path[0].Under? && j.Obj? && path[0].key in j.fields then Follow(j.fields[path[0].key], path[1..])
    else if path[0].Item? && j.Arr? && path[0].index < |j.items| then Follow(j.items[path[0].index], path[1..])
    else None
  }

  /** A choice between null and something that is not an object. */
  ghost predicate BrokenChoice(j: Json, x: Json) {
    && j.Obj? && "anyOf" in j.fields && !x.Obj?
    && (j.fields["anyOf"] == Arr([x, NULL_SCHEMA]) || j.fields["anyOf"] == Arr([NULL_SCHEMA, x]))
  }

  ghost predicate BrokenAt(j: Json, path: seq<Hop>) {
    Follow(j, path).Some? && exists x :: BrokenChoice(Follow(j, path).value, x)
  }

  lemma BrokenHere(j: Json)
    requires j.Obj?
    ensures Kept(j.fields).Some? && !Kept(j.fields).value.Obj? <==> exists x :: BrokenChoice(j, x)
  {
    if Kept(j.fields).Some? && !Kept(j.fields).value.Obj? {
      var a, b := j.fields["anyOf"].items[0], j.fields["anyOf"].items[1];
      assert j.fields["anyOf"] == Arr([a, b]);
      assert BrokenChoice(j, Kept(j.fields).value);
    }
  }

  lemma BrokenBelow(j: Json, hop: Hop, path: seq<Hop>)
    requires path != [] && path[0] == hop && Follow(j, [hop]).Some?
    ensures Follow(j, path) == Follow(Follow(j, [hop]).value, path[1..])
    ensures BrokenAt(j, path) <==> BrokenAt(Follow(j, [hop]).value, path[1..])
  {
    assert [hop][1..] == [] && [hop][0] == hop;
    if hop.Under? {
      var child := j.fields[hop.key];
      assert Follow(child, []) == Some(child);
      assert Follow(j, [hop]) == Follow(child, []);
      assert Follow(j, path) == Follow(child, path[1..]);
    } else {
      var child := j.items[hop.index];
      assert Follow(child, []) == Some(child);
      assert Follow(j, [hop]) == Follow(child, []);
      assert Follow(j, path) == Follow(child, path[1..]);
    }
    hide Follow, BrokenChoice;
  }

  lemma {:induction false} FailsAt(j: Json) returns (path: seq<Hop>)
    requires Fails(j)
    ensures BrokenAt(j, path)
  {
    if j.Arr? {
      var i :| 0 <= i < |j.items| && Fails(j.items[i]);
      var rest := FailsAt(j.items[i]);
      path := [Item(i)] + rest;
      assert [Item(i)][1..] == [] && path[1..] == rest;
      BrokenBelow(j, Item(i), path);
    } else if exists k :: k in j.fields && Fails(j.fields[k]) {
      var k :| k in j.fields && Fails(j.fields[k]);
      var rest := FailsAt(j.fields[k]);
      path := [Under(k)] + rest;
      assert [Under(k)][1..] == [] && path[1..] == rest;
      BrokenBelow(j, Under(k), path);
    } else {
      BrokenHere(j);
      path := [];
    }
  }

  lemma {:induction false} BrokenFails(j: Json, path: seq<Hop>)
    requires BrokenAt(j, path)
    ensures Fails(j)
    decreases |path|
  {
    if path == [] {
      BrokenHere(j);
    } else {
      assert [path[0]][1..] == [];
      BrokenBelow(j, path[0], path);
      BrokenFails(Follow(j, [path[0]]).value, path[1..]);
    }
  }

  /** The export stops with an error exactly when the document offers, anywhere, a choice between null and something
   * that is not an object. */
  lemma FailsExactly(j: Json)
    ensures Export(j).Err? <==> exists path :: BrokenAt(j, path)
  {
    if Fails(j) {
      var path := FailsAt(j);
    }
    forall path | BrokenAt(j, path) ensures Fails(j) {
      BrokenFails(j, path);
    }
  }

  /** Exporting an exported document changes nothing. */
  lemma ExportIsIdempotent(j: Json)
    requires Export(j).Ok?
    ensures Export(Export(j).value) == Export(j)
  {
    SucceedsAgain(j);
    Idempotent(j);
  }

  // ---------------------------------------------------------------- what a schema accepts

  /** The definitions that references resolve to, and a reading of the keywords that are not spelled out
   * below, each by itself. */
  datatype World = World(defs: map<string, Json>, other: (string, Json, Json) -> bool)

  predicate TypeIs(name: string, inst: Json) {
    match name
    case "null" => inst.Null?
    case "boolean" => inst.Bool?
    case "number" => inst.Num?
    case "integer" => inst.Num? && inst.number == inst.number.Floor as real
    case "string" => inst.Str?
    case "array" => inst.Arr?
    case "object" => inst.Obj?
    case _ => false
  }

  predicate OneOfTypes(names: seq<Json>, inst: Json) {
    exists i | 0 <= i < |names| :: names[i].Str? && TypeIs(names[i].text, inst)
  }

  /** The properties a node names; what it says of additional ones is about the rest. */
  function Named(m: map<string, Json>): set<string> {
    if "properties" in m && m["properties"].Obj? then m["properties"].fields.Keys else {}
  }

  /** Validation, to a depth of `fuel` references. */
  predicate Accepts(w: World, fuel: nat, s: Json, inst: Json)
    decreases fuel, s, 0
  {
    match s
    case Bool(flag) => flag
    case Obj(m) => forall k | k in m :: KeywordHolds(w, fuel, Named(m), k, m[k], inst)
    case _ => true
  }

  predicate KeywordHolds(w: World, fuel: nat, named: set<string>, k: string, v: Json, inst: Json)
    decreases fuel, v, 1
  {
    if k == "$ref" && v.Str? then v.text in w.defs && (fuel == 0 || Accepts(w, fuel - 1, w.defs[v.text], inst))
    else if k == "type" && v.Str? then TypeIs(v.text, inst)
    else if k == "type" && v.Arr? then OneOfTypes(v.items, inst)
    else if k == "anyOf" && v.Arr? then exists i | 0 <= i < |v.items| :: Accepts(w, fuel, v.items[i], inst)
    else if k == "allOf" && v.Arr? then forall i | 0 <= i < |v.items| :: Accepts(w, fuel, v.items[i], inst)
    else if k == "oneOf" && v.Arr? then
      exists i | 0 <= i < |v.items| ::
          Accepts(w, fuel, v.items[i], inst)
            && forall j | 0 <= j < |v.items| && j != i :: !Accepts(w, fuel, v.items[j], inst)
    else if k == "not" then !Accepts(w, fuel, v, inst)
    else if k == "properties" && v.Obj? then
      inst.Obj? ==> forall p | p in v.fields && p in inst.fields :: Accepts(w, fuel, v.fields[p], inst.fields[p])
    else if k == "additionalProperties" then
      inst.Obj? ==> forall p | p in inst.fields && p !in named :: Accepts(w, fuel, v, inst.fields[p])
    else if k == "items" then
      inst.Arr? ==> forall i | 0 <= i < |inst.items| :: Accepts(w, fuel, v, inst.items[i])
    else if k == "$defs" then true
    else w.other(k, v, inst)
  }

  predicate NullFree(inst: Json) {
    match inst
    case Null => false
    case Arr(items) => forall i | 0 <= i < |items| :: NullFree(items[i])
    case Obj(fields) => forall k | k in fields :: NullFree(fields[k])
    case _ => true
  }

  // ---------------------------------------------------------------- one fold

  function Rewritten(w: World): World {
    w.(defs := Children(w.defs))
  }

  /** Only what a node says of additional properties looks at the names beside it. */
  lemma NamesMatterOnce(w: World, fuel: nat, a: set<string>, b: set<string>, k: string, v: Json, inst: Json)
    requires k != "additionalProperties" || a == b
    ensures KeywordHolds(w, fuel, a, k, v, inst) == KeywordHolds(w, fuel, b, k, v, inst)
  {
  }

  lemma AcceptsNull(w: World, fuel: nat, inst: Json)
    ensures Accepts(w, fuel, NULL_SCHEMA, inst) <==> inst.Null?
  {
    var m := map["type" := Str("null")];
    assert "type" in m && m.Keys == {"type"};
    assert KeywordHolds(w, fuel, Named(m), "type", m["type"], inst) == inst.Null?;
  }

  /** A choice with null, for an instance that is not null, is its kept branch. */
  lemma ChoiceIsKept(w: World, fuel: nat, named: set<string>, m: map<string, Json>, inst: Json)
    requires Kept(m).Some? && !inst.Null?
    ensures KeywordHolds(w, fuel, named, "anyOf", m["anyOf"], inst) == Accepts(w, fuel, Kept(m).value, inst)
  {
    AcceptsNull(w, fuel, inst);
    var options := m["anyOf"].items;
    assert |options| == 2;
    if Kept(m).value == options[0] {
      assert options[1] == NULL_SCHEMA;
    } else {
      assert options[0] == NULL_SCHEMA;
    }
  }

  lemma TypeArrayIsNullable(w: World, fuel: nat, named: set<string>, t: Json, inst: Json)
    requires t.Str?
    ensures KeywordHolds(w, fuel, named, "type", Arr([t, Str("null")]), inst)
            <==> KeywordHolds(w, fuel, named, "type", t, inst) || inst.Null?
  {
    var names := [t, Str("null")];
    assert names[0] == t && names[1] == Str("null");
  }

  /** The keyword is the folded branch's own type, which comes to allow null. */
  predicate IsNullableType(m: map<string, Json>, k: string)
    requires Rewritable(m)
  {
    k == "type" && "$ref" !in Kept(m).value.fields
  }

  /** What the kept branch asks of the instance. Additional properties are looked at apart, since what is
   * additional depends on the names beside it. */
  ghost predicate KeptHolds(w: World, fuel: nat, m: map<string, Json>, inst: Json)
    requires Rewritable(m)
  {
    var kept := Kept(m).value.fields;
    forall k ::
        k in kept && k != "additionalProperties" && !(inst.Null? && IsNullableType(m, k)) ==>
          KeywordHolds(w, fuel, {}, k, kept[k], inst)
  }

  /** What the siblings that the kept branch does not override ask of it. */
  ghost predicate RestHolds(w: World, fuel: nat, m: map<string, Json>, inst: Json)
    requires Rewritable(m)
  {
    forall k ::
        k in m && k != "anyOf" && k !in Kept(m).value.fields && k != "additionalProperties" ==>
          KeywordHolds(w, fuel, {}, k, m[k], inst)
  }

  /** What the siblings that it does override asked. */
  ghost predicate OverriddenHolds(w: World, fuel: nat, m: map<string, Json>, inst: Json)
    requires Rewritable(m)
  {
    forall k ::
        k in m && k != "anyOf" && k in Kept(m).value.fields && k != "additionalProperties" ==>
          KeywordHolds(w, fuel, {}, k, m[k], inst)
  }

  /** What was asked of additional properties on both sides, each beside its own names. */
  predicate AdditionalBefore(w: World, fuel: nat, m: map<string, Json>, inst: Json)
    requires Rewritable(m)
  {
    var kept := Kept(m).value.fields;
    && ("additionalProperties" in m
        ==> KeywordHolds(w, fuel, Named(m), "additionalProperties", m["additionalProperties"], inst))
    && ("additionalProperties" in kept
        ==> KeywordHolds(w, fuel, Named(kept), "additionalProperties", kept["additionalProperties"], inst))
  }

  /** The properties that the folded node names: the kept branch's, if it speaks of properties at all. */
  function NamedAfter(m: map<string, Json>): set<string>
    requires Rewritable(m)
  {
    if "properties" in Kept(m).value.fields then Named(Kept(m).value.fields) else Named(m)
  }

  /** What is asked of them after the fold: the kept branch wins, beside the names that are left. */
  predicate AdditionalAfter(w: World, fuel: nat, m: map<string, Json>, inst: Json)
    requires Rewritable(m)
  {
    var kept := Kept(m).value.fields;
    if "additionalProperties" in kept then
      KeywordHolds(w, fuel, NamedAfter(m), "additionalProperties", kept["additionalProperties"], inst)
    else
      "additionalProperties" in m ==>
        KeywordHolds(w, fuel, NamedAfter(m), "additionalProperties", m["additionalProperties"], inst)
  }

  /** The folded node asks just that. */
  lemma FoldedAdditional(w: World, fuel: nat, m: map<string, Json>, inst: Json)
    requires Rewritable(m)
    ensures var f := Folded(m);
            AdditionalAfter(w, fuel, m, inst)
            <==> ("additionalProperties" in f
                 ==> KeywordHolds(w, fuel, Named(f), "additionalProperties", f["additionalProperties"], inst))
  {
    hide KeywordHolds, Kept;
    var kept, f := Kept(m).value.fields, Folded(m);
    assert "additionalProperties" in f <==> "additionalProperties" in kept || "additionalProperties" in m;
    assert Named(f) == NamedAfter(m);
    hide Named, NamedAfter;
  }

  /** What a keyword of the folded node said where it stood, a folded type being no concern of null. */
  predicate SaidAt(w: World, fuel: nat, m: map<string, Json>, k: string, inst: Json)
    requires Rewritable(m) && k in Folded(m)
  {
    var kept := Kept(m).value.fields;
    (inst.Null? && IsNullableType(m, k)) || KeywordHolds(w, fuel, {}, k, if k in kept then kept[k] else m[k], inst)
  }

  /** A keyword of the folded node says what it said where it stood, and the folded type allows null. */
  lemma FoldedKeyword(w: World, fuel: nat, m: map<string, Json>, k: string, inst: Json)
    requires Rewritable(m) && k in Folded(m) && k != "additionalProperties"
    ensures KeywordHolds(w, fuel, Named(Folded(m)), k, Folded(m)[k], inst) <==> SaidAt(w, fuel, m, k, inst)
  {
    var kept, f := Kept(m).value.fields, Folded(m);
    hide KeywordHolds;
    NamesMatterOnce(w, fuel, Named(f), {}, k, f[k], inst);
    if IsNullableType(m, k) {
      TypeArrayIsNullable(w, fuel, {}, kept[k], inst);
    }
  }

  /** What a folded node means: its kept branch, the siblings that the branch does not override, and what is
   * left of additional properties. */
  lemma FoldMeans(w: World, fuel: nat, m: map<string, Json>, inst: Json)
    requires Rewritable(m)
    ensures Accepts(w, fuel, Obj(Folded(m)), inst)
            <==> KeptHolds(w, fuel, m, inst) && RestHolds(w, fuel, m, inst) && AdditionalAfter(w, fuel, m, inst)
  {
    hide KeywordHolds, Named, Folded, Rewritable, SaidAt, KeptHolds, RestHolds, AdditionalAfter;
    var f := Folded(m);
    FoldedAdditional(w, fuel, m, inst);
    forall k | k in f && k != "additionalProperties"
      ensures KeywordHolds(w, fuel, Named(f), k, f[k], inst) <==> SaidAt(w, fuel, m, k, inst)
    {
      FoldedKeyword(w, fuel, m, k, inst);
    }
    SaidOnBothSides(w, fuel, m, inst);
  }

  lemma FoldedKeys(m: map<string, Json>)
    requires Rewritable(m)
    ensures Folded(m).Keys == (m.Keys - {"anyOf"}) + Kept(m).value.fields.Keys
    ensures forall k :: IsNullableType(m, k) ==> k in Kept(m).value.fields
  {
  }

  lemma SaidOnBothSides(w: World, fuel: nat, m: map<string, Json>, inst: Json)
    requires Rewritable(m)
    ensures (forall k :: k in Folded(m) && k != "additionalProperties" ==> SaidAt(w, fuel, m, k, inst))
            <==> KeptHolds(w, fuel, m, inst) && RestHolds(w, fuel, m, inst)
  {
    hide KeywordHolds, Kept, Folded, Rewritable, IsNullableType;
    ChoiceKey(m);
    FoldedKeys(m);
    var kept, f := Kept(m).value.fields, Folded(m);
    if forall k :: k in f && k != "additionalProperties" ==> SaidAt(w, fuel, m, k, inst) {
      forall k | k in kept && k != "additionalProperties" && !(inst.Null? && IsNullableType(m, k))
          ensures KeywordHolds(w, fuel, {}, k, kept[k], inst) {
        assert k in f && SaidAt(w, fuel, m, k, inst);
      }
      forall k | k in m && k != "anyOf" && k !in kept && k != "additionalProperties"
          ensures KeywordHolds(w, fuel, {}, k, m[k], inst) {
        assert k in f && SaidAt(w, fuel, m, k, inst);
      }
    }
  }

  lemma NullChooses(w: World, fuel: nat, named: set<string>, m: map<string, Json>, inst: Json)
    requires Kept(m).Some? && inst.Null?
    ensures KeywordHolds(w, fuel, named, "anyOf", m["anyOf"], inst)
  {
    AcceptsNull(w, fuel, inst);
    assert m["anyOf"].items[0] == NULL_SCHEMA || m["anyOf"].items[1] == NULL_SCHEMA;
  }

  /** The siblings of a choice, whatever it is a choice of. */
  lemma SiblingsHold(w: World, fuel: nat, m: map<string, Json>, inst: Json)
    requires Rewritable(m)
    ensures (forall k :: k in m && k != "anyOf" ==> KeywordHolds(w, fuel, Named(m), k, m[k], inst))
            <==> RestHolds(w, fuel, m, inst) && OverriddenHolds(w, fuel, m, inst)
                 && ("additionalProperties" in m
                     ==> KeywordHolds(w, fuel, Named(m), "additionalProperties", m["additionalProperties"], inst))
  {
    hide KeywordHolds, Kept, Rewritable, Named;
    forall k | k in m && k != "additionalProperties"
        ensures KeywordHolds(w, fuel, Named(m), k, m[k], inst) == KeywordHolds(w, fuel, {}, k, m[k], inst) {
      NamesMatterOnce(w, fuel, Named(m), {}, k, m[k], inst);
    }
  }

  /** What a choice means: its siblings, and, for anything but null, its kept branch. */
  lemma ChoiceMeans(w: World, fuel: nat, m: map<string, Json>, inst: Json)
    requires Rewritable(m)
    ensures Accepts(w, fuel, Obj(m), inst)
            <==> RestHolds(w, fuel, m, inst) && OverriddenHolds(w, fuel, m, inst)
                 && (!inst.Null? ==> KeptHolds(w, fuel, m, inst) && AdditionalBefore(w, fuel, m, inst))
  {
    hide KeywordHolds, Kept, Rewritable, Named, RestHolds, OverriddenHolds, KeptHolds;
    SiblingsHold(w, fuel, m, inst);
    ChoiceKey(m);
    if inst.Null? {
      NullChooses(w, fuel, Named(m), m, inst);
      NullHasNoProperties(w, fuel, m, inst);
    } else {
      ChoiceIsKept(w, fuel, Named(m), m, inst);
      KeptMeans(w, fuel, m, inst);
    }
    assert Accepts(w, fuel, Obj(m), inst)
           <==> KeywordHolds(w, fuel, Named(m), "anyOf", m["anyOf"], inst)
                && forall k :: k in m && k != "anyOf" ==> KeywordHolds(w, fuel, Named(m), k, m[k], inst);
  }

  lemma ChoiceKey(m: map<string, Json>)
    requires Rewritable(m)
    ensures Kept(m).Some? && "anyOf" in m && Kept(m).value == Obj(Kept(m).value.fields)
  {
  }

  lemma NullHasNoProperties(w: World, fuel: nat, m: map<string, Json>, inst: Json)
    requires Rewritable(m) && inst.Null?
    ensures AdditionalBefore(w, fuel, m, inst) && AdditionalAfter(w, fuel, m, inst)
  {
    hide Kept, Folded, Named, Rewritable;
  }

  lemma KeptMeans(w: World, fuel: nat, m: map<string, Json>, inst: Json)
    requires Rewritable(m) && !inst.Null?
    ensures var kept := Kept(m).value.fields;
            Accepts(w, fuel, Obj(kept), inst)
            <==> KeptHolds(w, fuel, m, inst)
                 && ("additionalProperties" in kept
                     ==> KeywordHolds(w, fuel, Named(kept), "additionalProperties", kept["additionalProperties"], inst))
  {
    var kept := Kept(m).value.fields;
    hide KeywordHolds, Rewritable, Named;
    forall k | k in kept && k != "additionalProperties"
        ensures KeywordHolds(w, fuel, Named(kept), k, kept[k], inst) == KeywordHolds(w, fuel, {}, k, kept[k], inst) {
      NamesMatterOnce(w, fuel, Named(kept), {}, k, kept[k], inst);
    }
    hide Kept;
  }

  /** A fold does no harm to an instance: wherever the siblings that are kept hold of it, then, for null, the
   * kept keywords hold exactly if the overridden ones do, and for anything else, where the kept keywords
   * hold, what is asked of additional properties afterwards is what was asked before and what was overridden
   * asked nothing more. */
  ghost predicate HarmlessAt(w: World, fuel: nat, m: map<string, Json>, inst: Json)
    requires Rewritable(m)
  {
    RestHolds(w, fuel, m, inst) ==>
      if inst.Null? then KeptHolds(w, fuel, m, inst) <==> OverriddenHolds(w, fuel, m, inst)
      else KeptHolds(w, fuel, m, inst) ==>
             (AdditionalAfter(w, fuel, m, inst) <==>
                 AdditionalBefore(w, fuel, m, inst) && OverriddenHolds(w, fuel, m, inst))
  }

  /** Folding keeps a node's meaning on an instance, null or not, exactly where it does no harm. */
  lemma FoldPreservesExactly(w: World, fuel: nat, m: map<string, Json>, inst: Json)
    requires Rewritable(m)
    ensures Accepts(w, fuel, Obj(Folded(m)), inst) == Accepts(w, fuel, Obj(m), inst) <==> HarmlessAt(w, fuel, m, inst)
  {
    FoldMeans(w, fuel, m, inst);
    ChoiceMeans(w, fuel, m, inst);
    if inst.Null? {
      NullHasNoProperties(w, fuel, m, inst);
    }
    hide Accepts, KeptHolds, RestHolds, OverriddenHolds, AdditionalBefore, AdditionalAfter, Folded, Rewritable;
  }

  /** Null, exactly: the choice accepts it if its siblings do; the folded node if the siblings that are kept
   * do and so does every keyword of the kept branch but its folded type. */
  lemma NullExactly(w: World, fuel: nat, m: map<string, Json>)
    requires Rewritable(m)
    ensures Accepts(w, fuel, Obj(m), Null) <==> RestHolds(w, fuel, m, Null) && OverriddenHolds(w, fuel, m, Null)
    ensures Accepts(w, fuel, Obj(Folded(m)), Null) <==> RestHolds(w, fuel, m, Null) && KeptHolds(w, fuel, m, Null)
  {
    FoldMeans(w, fuel, m, Null);
    ChoiceMeans(w, fuel, m, Null);
    NullHasNoProperties(w, fuel, m, Null);
    hide Accepts, KeptHolds, RestHolds, OverriddenHolds, AdditionalBefore, AdditionalAfter, Folded, Rewritable;
  }

  // ---------------------------------------------------------------- harmless by shape

  /** The kept branch shares no keyword with its siblings, and neither side speaks of additional properties
   * where the other names some. */
  ghost predicate Apart(m: map<string, Json>)
    requires Rewritable(m)
  {
    var rest, kept := m.Keys - {"anyOf"}, Kept(m).value.fields.Keys;
    && rest * kept == {}
    && ("additionalProperties" in kept ==> "properties" !in rest)
    && ("additionalProperties" in rest ==> "properties" !in kept)
  }

  /** The kept branch only names a type, and no sibling does. */
  predicate IsBareType(m: map<string, Json>)
    requires Rewritable(m)
  {
    Kept(m).value.fields.Keys == {"type"} && "type" !in m
  }

  /** A fold of two sides that are apart does no harm to anything but null; of a bare type, to nothing. */
  lemma ApartIsHarmless(w: World, fuel: nat, m: map<string, Json>, inst: Json)
    requires Rewritable(m) && Apart(m) && (inst.Null? ==> IsBareType(m))
    ensures HarmlessAt(w, fuel, m, inst)
  {
    var kept, f := Kept(m).value.fields, Folded(m);
    assert OverriddenHolds(w, fuel, m, inst) by {
      hide KeywordHolds;
      assert forall k :: k in m && k != "anyOf" ==> k in m.Keys - {"anyOf"};
    }
    if inst.Null? {
      hide KeywordHolds;
    } else {
      assert "additionalProperties" in kept ==> "additionalProperties" !in m.Keys - {"anyOf"};
      assert "properties" in m ==> "properties" in m.Keys - {"anyOf"};
      assert "additionalProperties" in m ==> "additionalProperties" in m.Keys - {"anyOf"};
      assert "additionalProperties" in kept
             ==> Named(f) == Named(kept) && f["additionalProperties"] == kept["additionalProperties"];
      assert "additionalProperties" in m
             ==> Named(f) == Named(m) && f["additionalProperties"] == m["additionalProperties"];
      hide KeywordHolds, Named, Folded, Kept, Rewritable, KeptHolds, RestHolds, OverriddenHolds;
    }
  }

  // ---------------------------------------------------------------- whole documents

  /** No fold of this node does harm, to data without null or, if `nulls`, to any. */
  ghost predicate Harmless(w: World, m: map<string, Json>, nulls: bool)
    requires Rewritable(m)
  {
    forall fuel: nat, inst :: nulls || NullFree(inst) ==> HarmlessAt(w, fuel, m, inst)
  }

  /** A document whose every fold is harmless, whose subschemas are where schemas belong, and whose other
   * keywords hold nothing the rewrite would touch. */
  ghost predicate Mergeable(w: World, s: Json, nulls: bool)
    decreases s, 0
  {
    match s
    case Bool(_) => true
    case Obj(m) =>
      && (forall k | k in m :: MergeableKeyword(w, k, m[k], nulls))
      && (Rewritable(Children(m)) ==> Harmless(w, Children(m), nulls))
    case _ => false
  }

  ghost predicate MergeableKeyword(w: World, k: string, v: Json, nulls: bool)
    decreases v, 1
  {
    if k == "anyOf" || k == "allOf" || k == "oneOf"
        then v.Arr? && forall i | 0 <= i < |v.items| :: Mergeable(w, v.items[i], nulls)
    else if k == "not" || k == "additionalProperties" || k == "items" then Mergeable(w, v, nulls)
    else if k == "properties" then v.Obj? && forall p | p in v.fields :: Mergeable(w, v.fields[p], nulls)
    else if k == "$ref" then v.Str?
    else k == "$defs" || Normalise(v) == v
  }

  ghost predicate MergeableWorld(w: World, nulls: bool) {
    forall r :: r in w.defs ==> Mergeable(Rewritten(w), w.defs[r], nulls)
  }

  /** The same, told from the document's shape alone. */
  ghost predicate Plain(s: Json, nulls: bool)
    decreases s, 0
  {
    match s
    case Bool(_) => true
    case Obj(m) =>
      && (forall k | k in m :: PlainKeyword(k, m[k], nulls))
      && (Rewritable(Children(m)) ==> Apart(Children(m)) && (nulls ==> IsBareType(Children(m))))
    case _ => false
  }

  ghost predicate PlainKeyword(k: string, v: Json, nulls: bool)
    decreases v, 1
  {
    if k == "anyOf" || k == "allOf" || k == "oneOf"
        then v.Arr? && forall i | 0 <= i < |v.items| :: Plain(v.items[i], nulls)
    else if k == "not" || k == "additionalProperties" || k == "items" then Plain(v, nulls)
    else if k == "properties" then v.Obj? && forall p | p in v.fields :: Plain(v.fields[p], nulls)
    else if k == "$ref" then v.Str?
    else k == "$defs" || Normalise(v) == v
  }

  lemma {:induction false} PlainIsMergeable(w: World, s: Json, nulls: bool)
    requires Plain(s, nulls)
    ensures Mergeable(w, s, nulls)
    decreases s, 0
  {
    if s.Obj? {
      var m := s.fields;
      forall k | k in m ensures MergeableKeyword(w, k, m[k], nulls) {
        PlainKeywordIsMergeable(w, k, m[k], nulls);
      }
      if Rewritable(Children(m)) {
        forall fuel: nat, inst | nulls || NullFree(inst) ensures HarmlessAt(w, fuel, Children(m), inst) {
          ApartIsHarmless(w, fuel, Children(m), inst);
        }
        assert Harmless(w, Children(m), nulls) by { hide HarmlessAt, NullFree; }
      }
      hide HarmlessAt, Harmless, MergeableKeyword, PlainKeyword;
    }
  }

  lemma {:induction false} PlainKeywordIsMergeable(w: World, k: string, v: Json, nulls: bool)
    requires PlainKeyword(k, v, nulls)
    ensures MergeableKeyword(w, k, v, nulls)
    decreases v, 1
  {
    if k == "anyOf" || k == "allOf" || k == "oneOf" {
      forall i | 0 <= i < |v.items| ensures Mergeable(w, v.items[i], nulls) {
        PlainIsMergeable(w, v.items[i], nulls);
      }
    } else if k == "not" || k == "additionalProperties" || k == "items" {
      PlainIsMergeable(w, v, nulls);
    } else if k == "properties" {
      forall p | p in v.fields ensures Mergeable(w, v.fields[p], nulls) {
        PlainIsMergeable(w, v.fields[p], nulls);
      }
    }
    hide Mergeable, Plain, Normalise;
  }

  /** Two lists of choices that accept the same make the same of any of the three ways to combine them. */
  lemma ChoicesAgree(w: World, w': World, fuel: nat, named: set<string>, k: string, v: Json, v': Json, inst: Json)
    requires k == "anyOf" || k == "allOf" || k == "oneOf"
    requires v.Arr? && v'.Arr? && |v.items| == |v'.items|
    requires forall i ::
             0 <= i < |v.items| ==> Accepts(w', fuel, v'.items[i], inst) == Accepts(w, fuel, v.items[i], inst)
    ensures KeywordHolds(w', fuel, named, k, v', inst) == KeywordHolds(w, fuel, named, k, v, inst)
  {
    hide Accepts;
  }

  lemma AdditionalAgree(w: World, w': World, fuel: nat, named: set<string>, v: Json, v': Json, inst: Json)
    requires inst.Obj?
             ==> forall p ::
                 p in inst.fields && p !in named ==>
                   Accepts(w', fuel, v', inst.fields[p]) == Accepts(w, fuel, v, inst.fields[p])
    ensures KeywordHolds(w', fuel, named, "additionalProperties", v', inst)
            == KeywordHolds(w, fuel, named, "additionalProperties", v, inst)
  {
    hide Accepts;
  }

  lemma ItemsAgree(w: World, w': World, fuel: nat, named: set<string>, v: Json, v': Json, inst: Json)
    requires inst.Arr?
             ==> forall i ::
                 0 <= i < |inst.items| ==> Accepts(w', fuel, v', inst.items[i]) == Accepts(w, fuel, v, inst.items[i])
    ensures KeywordHolds(w', fuel, named, "items", v', inst) == KeywordHolds(w, fuel, named, "items", v, inst)
  {
    hide Accepts;
  }

  lemma PropertiesAgree(w: World, w': World, fuel: nat, named: set<string>, v: Json, v': Json, inst: Json)
    requires v.Obj? && v'.Obj? && v'.fields.Keys == v.fields.Keys
    requires inst.Obj?
             ==> forall p ::
                 p in v.fields && p in inst.fields ==>
                   Accepts(w', fuel, v'.fields[p], inst.fields[p]) == Accepts(w, fuel, v.fields[p], inst.fields[p])
    ensures KeywordHolds(w', fuel, named, "properties", v', inst) == KeywordHolds(w, fuel, named, "properties", v, inst)
  {
    hide Accepts;
  }

  /** The keywords that hold no schema. */
  lemma PlainAgree(w: World, fuel: nat, named: set<string>, k: string, v: Json, inst: Json)
    requires k !in {"anyOf", "allOf", "oneOf", "not", "additionalProperties", "items", "properties", "$ref"}
    requires k == "$defs" || Normalise(v) == v
    ensures KeywordHolds(Rewritten(w), fuel, named, k, Normalise(v), inst) == KeywordHolds(w, fuel, named, k, v, inst)
  {
    hide Accepts, Normalise;
  }

  lemma ReferencesAgree(w: World, fuel: nat, named: set<string>, v: Json, inst: Json)
    requires v.Str?
             && (v.text in w.defs && fuel > 0
                 ==> Accepts(Rewritten(w), fuel - 1, Normalise(w.defs[v.text]), inst)
                     == Accepts(w, fuel - 1, w.defs[v.text], inst))
    ensures KeywordHolds(Rewritten(w), fuel, named, "$ref", Normalise(v), inst)
            == KeywordHolds(w, fuel, named, "$ref", v, inst)
  {
    hide Accepts;
  }

  lemma NegationsAgree(w: World, w': World, fuel: nat, named: set<string>, v: Json, v': Json, inst: Json)
    requires Accepts(w', fuel, v', inst) == Accepts(w, fuel, v, inst)
    ensures KeywordHolds(w', fuel, named, "not", v', inst) == KeywordHolds(w, fuel, named, "not", v, inst)
  {
    hide Accepts;
  }

  /** Keyword by keyword, a node with rewritten children means what it meant. */
  lemma {:induction false} KeywordPreserved(w: World, fuel: nat, named: set<string>, k: string, v: Json, inst: Json,
                                            nulls: bool)
    requires MergeableWorld(w, nulls) && MergeableKeyword(Rewritten(w), k, v, nulls) && (nulls || NullFree(inst))
    ensures KeywordHolds(Rewritten(w), fuel, named, k, Normalise(v), inst) == KeywordHolds(w, fuel, named, k, v, inst)
    decreases fuel, v, 1
  {
    hide KeywordHolds, Accepts;
    var w' := Rewritten(w);
    if k == "$ref" {
      if v.text in w.defs && fuel > 0 {
        MeaningPreserved(w, fuel - 1, w.defs[v.text], inst, nulls);
      }
      ReferencesAgree(w, fuel, named, v, inst);
    } else if k == "anyOf" || k == "allOf" || k == "oneOf" {
      forall i | 0 <= i < |v.items|
          ensures Accepts(w', fuel, Normalise(v).items[i], inst) == Accepts(w, fuel, v.items[i], inst) {
        MeaningPreserved(w, fuel, v.items[i], inst, nulls);
      }
      ChoicesAgree(w, w', fuel, named, k, v, Normalise(v), inst);
    } else if k == "not" {
      MeaningPreserved(w, fuel, v, inst, nulls);
      NegationsAgree(w, w', fuel, named, v, Normalise(v), inst);
    } else if k == "additionalProperties" {
      if inst.Obj? {
        forall p | p in inst.fields && p !in named
            ensures Accepts(w', fuel, Normalise(v), inst.fields[p]) == Accepts(w, fuel, v, inst.fields[p]) {
          MeaningPreserved(w, fuel, v, inst.fields[p], nulls);
        }
      }
      AdditionalAgree(w, w', fuel, named, v, Normalise(v), inst);
    } else if k == "items" {
      if inst.Arr? {
        forall i | 0 <= i < |inst.items|
            ensures Accepts(w', fuel, Normalise(v), inst.items[i]) == Accepts(w, fuel, v, inst.items[i]) {
          MeaningPreserved(w, fuel, v, inst.items[i], nulls);
        }
      }
      ItemsAgree(w, w', fuel, named, v, Normalise(v), inst);
    } else if k == "properties" {
      PropertiesStay(Rewritten(w), v, nulls);
      if inst.Obj? {
        forall p | p in v.fields && p in inst.fields
            ensures Accepts(w', fuel, Normalise(v).fields[p], inst.fields[p])
                    == Accepts(w, fuel, v.fields[p], inst.fields[p]) {
          MeaningPreserved(w, fuel, v.fields[p], inst.fields[p], nulls);
        }
      }
      PropertiesAgree(w, w', fuel, named, v, Normalise(v), inst);
    } else {
      PlainAgree(w, fuel, named, k, v, inst);
    }
    hide Accepts, Normalise, Mergeable, MergeableKeyword, NullFree, MergeableWorld;
  }

  /** A map of property schemas is not itself a choice, even if a property is called "anyOf". */
  lemma PropertiesStay(w: World, v: Json, nulls: bool)
    requires v.Obj? && MergeableKeyword(w, "properties", v, nulls)
    ensures Normalise(v) == Obj(Children(v.fields))
  {
    if "anyOf" in v.fields {
      assert Mergeable(w, v.fields["anyOf"], nulls);
      NormaliseKinds(v.fields["anyOf"]);
    }
  }

  lemma NamedStays(w: World, m: map<string, Json>, nulls: bool)
    requires forall k :: k in m ==> MergeableKeyword(w, k, m[k], nulls)
    ensures Named(Children(m)) == Named(m)
  {
    if "properties" in m {
      PropertiesStay(w, m["properties"], nulls);
    }
  }

  /** The rewrite keeps the meaning of a schema on every instance that holds no null. */
  lemma {:induction false} MeaningPreserved(w: World, fuel: nat, s: Json, inst: Json, nulls: bool)
    requires MergeableWorld(w, nulls) && Mergeable(Rewritten(w), s, nulls) && (nulls || NullFree(inst))
    ensures Accepts(Rewritten(w), fuel, Normalise(s), inst) == Accepts(w, fuel, s, inst)
    decreases fuel, s, 0
  {
    hide KeywordHolds, Named, MergeableKeyword, Harmless, Rewritable, Folded, NullFree;
    if s.Obj? {
      var m, c := s.fields, Children(s.fields);
      NamedStays(Rewritten(w), m, nulls);
      forall k | k in m
          ensures KeywordHolds(Rewritten(w), fuel, Named(c), k, c[k], inst)
                  == KeywordHolds(w, fuel, Named(m), k, m[k], inst) {
        KeywordPreserved(w, fuel, Named(m), k, m[k], inst, nulls);
      }
      SameKeywords(Rewritten(w), w, fuel, c, m, inst);
      hide Accepts;
      if Rewritable(c) {
        HarmlessEverywhere(Rewritten(w), fuel, c, inst, nulls);
        FoldPreservesExactly(Rewritten(w), fuel, c, inst);
      }
    }
  }

  lemma HarmlessEverywhere(w: World, fuel: nat, m: map<string, Json>, inst: Json, nulls: bool)
    requires Rewritable(m) && Harmless(w, m, nulls) && (nulls || NullFree(inst))
    ensures HarmlessAt(w, fuel, m, inst)
  {
    hide HarmlessAt, Rewritable, NullFree;
  }

  lemma SameKeywords(w: World, w': World, fuel: nat, m: map<string, Json>, m': map<string, Json>, inst: Json)
    requires m.Keys == m'.Keys
    requires forall k ::
             k in m ==>
               KeywordHolds(w, fuel, Named(m), k, m[k], inst)
               == KeywordHolds(w', fuel, Named(m'), k, m'[k], inst)
    ensures Accepts(w, fuel, Obj(m), inst) == Accepts(w', fuel, Obj(m'), inst)
  {
    hide KeywordHolds, Named;
  }

  /** What is published accepts what the service's own schema accepts, for all data that holds no null, or,
   * if no fold does harm to null either, for all data. */
  lemma ExportKeepsMeaning(w: World, fuel: nat, s: Json, inst: Json, nulls: bool)
    requires MergeableWorld(w, nulls) && Mergeable(Rewritten(w), s, nulls) && (nulls || NullFree(inst)) && Export(s).Ok?
    ensures Accepts(Rewritten(w), fuel, Export(s).value, inst) == Accepts(w, fuel, s, inst)
  {
    MeaningPreserved(w, fuel, s, inst, nulls);
  }

  /** So for documents in which kept branches and siblings are apart, and for all data if every kept branch
   * only names a type. */
  lemma ExportOfPlain(w: World, fuel: nat, s: Json, inst: Json, nulls: bool)
    requires (forall r :: r in w.defs ==> Plain(w.defs[r], nulls)) && Plain(s, nulls)
    requires (nulls || NullFree(inst)) && Export(s).Ok?
    ensures Accepts(Rewritten(w), fuel, Export(s).value, inst) == Accepts(w, fuel, s, inst)
  {
    forall r | r in w.defs ensures Mergeable(Rewritten(w), w.defs[r], nulls) {
      PlainIsMergeable(Rewritten(w), w.defs[r], nulls);
    }
    PlainIsMergeable(Rewritten(w), s, nulls);
    hide Plain, Mergeable, Accepts, NullFree;
    ExportKeepsMeaning(w, fuel, s, inst, nulls);
  }

  // ---------------------------------------------------------------- where it is lost

  function TypeOnly(name: string): Json {
    Obj(map["type" := Str(name)])
  }

  lemma TypeOnlyMeans(w: World, fuel: nat, name: string, inst: Json)
    ensures Accepts(w, fuel, TypeOnly(name), inst) <==> TypeIs(name, inst)
    ensures Clean(TypeOnly(name))
  {
    CleanTypeOnly(name);
    var m := TypeOnly(name).fields;
    assert "type" in m && m.Keys == {"type"};
    assert KeywordHolds(w, fuel, Named(m), "type", m["type"], inst) == TypeIs(name, inst);
    hide KeywordHolds, TypeIs, Named;
  }

  /** A choice with null of one clean schema, seen by the rewrite. */
  lemma ChoiceSeen(m: map<string, Json>, kept: Json)
    requires "anyOf" in m && m["anyOf"] == Arr([kept, NULL_SCHEMA]) && kept != NULL_SCHEMA && Clean(kept)
    requires forall k :: k in m && k != "anyOf" ==> Clean(m[k])
    ensures Children(m) == m && Kept(m) == Some(kept)
  {
    assert Clean(NULL_SCHEMA);
    assert Clean(m["anyOf"]);
    forall k | k in m ensures Normalise(m[k]) == m[k] {
      CleanIsFixed(m[k]);
    }
  }

  /** A node that asks for a number, and for a string or null. */
  function Torn(): map<string, Json> {
    map["type" := Str("number"), "anyOf" := Arr([TypeOnly("string"), NULL_SCHEMA])]
  }

  /** A sibling that shares a keyword with the kept branch is dropped: a node that no string satisfies
   * comes to accept them all. */
  lemma SharedKeywordIsLost(w: World, text: string)
    ensures !Accepts(w, 0, Obj(Torn()), Str(text)) && Accepts(Rewritten(w), 0, Normalise(Obj(Torn())), Str(text))
  {
    hide *;
    TornRefuses(w, text);
    TornSeen();
    FoldMeans(Rewritten(w), 0, Torn(), Str(text));
    StringsHold(Rewritten(w), Torn(), Str(text));
  }

  lemma TornRefuses(w: World, text: string)
    ensures !Accepts(w, 0, Obj(Torn()), Str(text))
  {
    assert "type" in Torn() && !KeywordHolds(w, 0, Named(Torn()), "type", Torn()["type"], Str(text));
    hide KeywordHolds, Named;
  }

  lemma TornSeen()
    ensures Rewritable(Torn()) && Kept(Torn()) == Some(TypeOnly("string")) && Torn().Keys == {"type", "anyOf"}
    ensures Normalise(Obj(Torn())) == Obj(Folded(Torn()))
  {
    StringIsNotNull();
    CleanTypeOnly("string");
    hide TypeOnly, Folded;
    ChoiceSeen(Torn(), TypeOnly("string"));
  }

  lemma CleanTypeOnly(name: string)
    ensures Clean(TypeOnly(name))
  {
    assert TypeOnly(name).fields.Keys == {"type"};
  }

  lemma StringsHold(w: World, m: map<string, Json>, inst: Json)
    requires m.Keys == {"type", "anyOf"} && Rewritable(m) && Kept(m) == Some(TypeOnly("string")) && inst.Str?
    ensures KeptHolds(w, 0, m, inst) && RestHolds(w, 0, m, inst) && AdditionalAfter(w, 0, m, inst)
  {
    assert KeywordHolds(w, 0, {}, "type", Str("string"), inst);
    hide KeywordHolds, Kept, Rewritable;
    assert TypeOnly("string").fields.Keys == {"type"} && TypeOnly("string").fields["type"] == Str("string");
    hide TypeOnly;
  }

  lemma StringIsNotNull()
    ensures TypeOnly("string") != NULL_SCHEMA && TypeOnly("string").Obj?
    ensures "type" in TypeOnly("string").fields && TypeOnly("string").fields["type"] == Str("string")
  {
    assert "type" in TypeOnly("string").fields && "type" in NULL_SCHEMA.fields;
    assert TypeOnly("string").fields["type"] != NULL_SCHEMA.fields["type"];
  }

  function Reference(name: string): Json {
    Obj(map["$ref" := Str(name)])
  }

  function OrNull(s: Json): Json {
    Obj(map["anyOf" := Arr([s, NULL_SCHEMA])])
  }

  /** A nullable reference becomes the bare reference. */
  lemma NullableReference(name: string)
    ensures Normalise(OrNull(Reference(name))) == Reference(name)
  {
    var m := OrNull(Reference(name)).fields;
    assert "$ref" in Reference(name).fields && "$ref" !in NULL_SCHEMA.fields;
    ChoiceSeen(m, Reference(name));
    assert Folded(m) == Reference(name).fields;
  }

  /** A nullable plain type becomes the type array that names it and null, whatever the type. */
  lemma NullableType(name: string)
    requires name != "null"
    ensures Normalise(OrNull(TypeOnly(name))) == Obj(map["type" := Arr([Str(name), Str("null")])])
  {
    var m := OrNull(TypeOnly(name)).fields;
    CleanTypeOnly(name);
    assert TypeOnly(name).fields["type"] != NULL_SCHEMA.fields["type"];
    ChoiceSeen(m, TypeOnly(name));
    assert m.Keys == {"anyOf"};
    assert Folded(m) == TypeOnly(name).fields["type" := Arr([Str(name), Str("null")])];
  }

  lemma NullSatisfiesOrNull(w: World, fuel: nat, s: Json)
    ensures Accepts(w, fuel, OrNull(s), Null)
  {
    var m := OrNull(s).fields;
    AcceptsNull(w, fuel, Null);
    assert m["anyOf"].items[1] == NULL_SCHEMA && m.Keys == {"anyOf"};
  }

  lemma ChildAt(m: map<string, Json>, k: string)
    requires k in m
    ensures k in Children(m) && Children(m)[k] == Normalise(m[k])
  {
  }

  /** A nullable reference accepts null afterwards if and only if what it refers to does. */
  lemma NullOnReferencesExactly(w: World, name: string, fuel: nat)
    ensures Accepts(w, fuel + 1, OrNull(Reference(name)), Null)
    ensures Accepts(Rewritten(w), fuel + 1, Normalise(OrNull(Reference(name))), Null)
            <==> name in w.defs && Accepts(Rewritten(w), fuel, Rewritten(w).defs[name], Null)
  {
    NullSatisfiesOrNull(w, fuel + 1, Reference(name));
    NullableReference(name);
    ReferenceMeans(Rewritten(w), name, fuel, Null);
  }

  lemma ReferenceMeans(w: World, name: string, fuel: nat, inst: Json)
    ensures Accepts(w, fuel + 1, Reference(name), inst) <==> name in w.defs && Accepts(w, fuel, w.defs[name], inst)
  {
    var m := Reference(name).fields;
    assert m.Keys == {"$ref"} && m["$ref"] == Str(name);
    assert KeywordHolds(w, fuel + 1, Named(m), "$ref", m["$ref"], inst)
           <==> name in w.defs && Accepts(w, fuel, w.defs[name], inst);
  }

  /** So one that refers to a definition of strings stops accepting null. */
  lemma NullIsLostOnReferences(w: World, name: string)
    requires name in w.defs && w.defs[name] == TypeOnly("string")
    ensures Accepts(w, 1, OrNull(Reference(name)), Null)
    ensures !Accepts(Rewritten(w), 1, Normalise(OrNull(Reference(name))), Null)
  {
    hide *;
    NullOnReferencesExactly(w, name, 0);
    StringsRefuseNull(Rewritten(w));
    DefinitionAt(w, name);
  }

  lemma StringsRefuseNull(w: World)
    ensures !Accepts(w, 0, TypeOnly("string"), Null) && Normalise(TypeOnly("string")) == TypeOnly("string")
  {
    TypeOnlyMeans(w, 0, "string", Null);
    CleanIsFixed(TypeOnly("string"));
    assert !TypeIs("string", Null);
    hide Accepts, Normalise, TypeOnly;
  }

  lemma DefinitionAt(w: World, name: string)
    requires name in w.defs
    ensures name in Rewritten(w).defs && Rewritten(w).defs[name] == Normalise(w.defs[name])
  {
    ChildAt(w.defs, name);
  }

  /** And a nullable choice among listed strings loses null to its own list. */
  lemma NullIsLostOnLists(w: World, fuel: nat, m: map<string, Json>)
    requires Rewritable(m) && m.Keys == {"anyOf"} && "enum" in Kept(m).value.fields
    requires !w.other("enum", Kept(m).value.fields["enum"], Null)
    ensures Accepts(w, fuel, Obj(m), Null) && !Accepts(w, fuel, Obj(Folded(m)), Null)
  {
    NullExactly(w, fuel, m);
    assert !KeywordHolds(w, fuel, {}, "enum", Kept(m).value.fields["enum"], Null);
    hide KeywordHolds, Accepts, Folded, Kept, Rewritable;
  }

  function Sealed(): map<string, Json> {
    map["type" := Str("object"), "additionalProperties" := Bool(false)]
  }

  /** A choice with null of an object without further properties, beside a sibling that names one. */
  function SealedBesideNames(): map<string, Json> {
    map["properties" := Obj(map["a" := TypeOnly("string")]), "anyOf" := Arr([Obj(Sealed()), NULL_SCHEMA])]
  }

  lemma SealedSeen()
    ensures Rewritable(SealedBesideNames()) && Kept(SealedBesideNames()) == Some(Obj(Sealed()))
    ensures Normalise(Obj(SealedBesideNames())) == Obj(Folded(SealedBesideNames()))
  {
    var m := SealedBesideNames();
    assert "additionalProperties" in Sealed() && "additionalProperties" !in NULL_SCHEMA.fields;
    SealedIsClean();
    hide Clean, Sealed, TypeOnly, Folded;
    assert Obj(Sealed()) != NULL_SCHEMA;
    assert "type" in Sealed() && Sealed()["type"].Str? by { SealedKeys(); }
    ChoiceSeen(m, Obj(Sealed()));
  }

  lemma SealedKeys()
    ensures Sealed().Keys == {"type", "additionalProperties"}
    ensures Sealed()["type"] == Str("object") && Sealed()["additionalProperties"] == Bool(false)
  {
  }

  lemma SealedIsClean()
    ensures Clean(Obj(Sealed())) && Clean(SealedBesideNames()["properties"])
  {
    SealedKeys();
    CleanTypeOnly("string");
    hide TypeOnly, Sealed;
    assert map["a" := TypeOnly("string")].Keys == {"a"};
  }

  /** A branch that admits no further properties, beside siblings that name some: the names come to count for
   * the branch, and an object that the choice refused is accepted. No keyword is shared. */
  lemma NamesAreBorrowed(w: World, text: string)
    ensures var inst := Obj(map["a" := Str(text)]);
            !Accepts(w, 0, Obj(SealedBesideNames()), inst)
              && Accepts(Rewritten(w), 0, Normalise(Obj(SealedBesideNames())), inst)
  {
    var inst := Obj(map["a" := Str(text)]);
    hide *;
    SealedSeen();
    SealedKeys();
    NamesBeside();
    SealedRefuses(w, SealedBesideNames(), Sealed(), inst);
    SealedAccepts(Rewritten(w), SealedBesideNames(), Sealed(), SealedBesideNames()["properties"], inst);
  }

  lemma NamesBeside()
    ensures SealedBesideNames().Keys == {"properties", "anyOf"}
    ensures SealedBesideNames()["properties"] == Obj(map["a" := TypeOnly("string")])
  {
    hide TypeOnly, Sealed;
  }

  lemma SealedRefuses(w: World, m: map<string, Json>, sealed: map<string, Json>, inst: Json)
    requires Rewritable(m) && Kept(m) == Some(Obj(sealed)) && "properties" !in sealed && inst.Obj? && "a" in inst.fields
    requires "additionalProperties" in sealed && sealed["additionalProperties"] == Bool(false)
    ensures !Accepts(w, 0, Obj(m), inst)
  {
    ChoiceIsKept(w, 0, Named(m), m, inst);
    assert !Accepts(w, 0, Bool(false), inst.fields["a"]);
    assert !KeywordHolds(w, 0, Named(sealed), "additionalProperties", sealed["additionalProperties"], inst);
    hide KeywordHolds, Kept, Rewritable, Named;
    assert !Accepts(w, 0, Obj(sealed), inst);
    assert "anyOf" in m;
  }

  lemma SealedAccepts(w: World, m: map<string, Json>, sealed: map<string, Json>, names: Json, inst: Json)
    requires Rewritable(m) && Kept(m) == Some(Obj(sealed)) && m.Keys == {"properties", "anyOf"}
             && m["properties"] == names
    requires sealed.Keys == {"type", "additionalProperties"} && sealed["type"] == Str("object")
             && sealed["additionalProperties"] == Bool(false)
    requires names == Obj(map["a" := TypeOnly("string")]) && inst.Obj? && inst.fields.Keys == {"a"}
             && inst.fields["a"].Str?
    ensures Accepts(w, 0, Obj(Folded(m)), inst)
  {
    hide *;
    FoldMeans(w, 0, m, inst);
    NamesHold(w, names, inst);
    SealedKeeps(w, m, sealed, inst);
    SealedNames(w, m, sealed, inst);
  }

  lemma SealedKeeps(w: World, m: map<string, Json>, sealed: map<string, Json>, inst: Json)
    requires Rewritable(m) && Kept(m) == Some(Obj(sealed)) && m.Keys == {"properties", "anyOf"}
    requires sealed.Keys == {"type", "additionalProperties"} && sealed["type"] == Str("object") && inst.Obj?
    requires KeywordHolds(w, 0, {}, "properties", m["properties"], inst)
    ensures KeptHolds(w, 0, m, inst) && RestHolds(w, 0, m, inst)
  {
    assert KeywordHolds(w, 0, {}, "type", sealed["type"], inst);
    hide KeywordHolds, Kept, Rewritable;
  }

  lemma SealedNames(w: World, m: map<string, Json>, sealed: map<string, Json>, inst: Json)
    requires Rewritable(m) && Kept(m) == Some(Obj(sealed)) && m.Keys == {"properties", "anyOf"}
    requires m["properties"].Obj? && m["properties"].fields.Keys == {"a"} && inst.Obj? && inst.fields.Keys == {"a"}
    requires sealed.Keys == {"type", "additionalProperties"} && sealed["additionalProperties"] == Bool(false)
    ensures AdditionalAfter(w, 0, m, inst)
  {
    assert NamedAfter(m) == {"a"};
    assert KeywordHolds(w, 0, {"a"}, "additionalProperties", Bool(false), inst);
    hide KeywordHolds, Kept, Rewritable, Named, NamedAfter;
  }

  lemma NamesHold(w: World, names: Json, inst: Json)
    requires names == Obj(map["a" := TypeOnly("string")]) && inst.Obj? && inst.fields.Keys == {"a"}
             && inst.fields["a"].Str?
    ensures KeywordHolds(w, 0, {}, "properties", names, inst)
  {
    TypeOnlyMeans(w, 0, "string", inst.fields["a"]);
    hide TypeOnly, Accepts;
  }
}
