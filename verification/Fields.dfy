/** What a path names and what an index takes from a row, told in bytes and
    values: `$.a.b` is read step by step from the row, and the values of a row
    follow from the field, the flags and the predicate. */
module Fields {
  import opened Options
  import opened ByteOrder
  import opened Utf8
  import opened Key
  import opened Document

  // ── Paths ─────────────────────────────────────────────────────────────────

  /** The names with a dot before each. */
  function Dotted(names: seq<Bytes>): Bytes {
    if names == [] then [] else [0x2E] + names[0] + Dotted(names[1..])
  }

  /** `$.a.b` of the names `a` and `b`. */
  function Spelled(names: seq<Bytes>): Bytes {
    [0x24] + Dotted(names)
  }

  /** At least one name, the first not empty, and no dot in any. */
  ghost predicate Plain(names: seq<Bytes>) {
    names != [] && names[0] != [] && forall i :: 0 <= i < |names| ==> 0x2E !in names[i]
  }

  /** The values met on the way from `row` to `v`: each an object with the next
      under its name. */
  ghost predicate Leads(row: Value, names: seq<Bytes>, v: Value, met: seq<Value>) {
    && |met| == |names| + 1 && met[0] == row && met[|names|] == v
    && forall i :: 0 <= i < |names| ==>
         met[i].Object? && names[i] in met[i].fields && met[i].fields[names[i]] == met[i + 1]
  }

  lemma {:induction false} SegmentsOfName(name: Bytes, rest: Bytes)
    requires 0x2E !in name
    ensures Segments(name + [0x2E] + rest) == [name] + Segments(rest)
    ensures Segments(name) == [name]
    decreases |name|
  {
    if name == [] {
      assert name + [0x2E] + rest == [0x2E] + rest;
      assert ([0x2E] + rest)[1..] == rest;
    } else {
      var whole := name + [0x2E] + rest;
      assert whole[1..] == name[1..] + [0x2E] + rest && whole[0] == name[0];
      SegmentsOfName(name[1..], rest);
      assert name[0] in name;
      assert [name[0]] + name[1..] == name;
      assert ([name[1..]] + Segments(rest))[1..] == Segments(rest);
    }
  }

  lemma {:induction false} SegmentsOfNames(names: seq<Bytes>)
    requires names != [] && forall i :: 0 <= i < |names| ==> 0x2E !in names[i]
    ensures Segments(Dotted(names)[1..]) == names
    decreases |names|
  {
    var rest := names[1..];
    assert Dotted(names)[1..] == names[0] + Dotted(rest);
    if rest == [] {
      assert names[0] + Dotted(rest) == names[0] && names == [names[0]];
      SegmentsOfName(names[0], []);
    } else {
      SegmentsOfNames(rest);
      assert Dotted(rest) == [0x2E] + Dotted(rest)[1..];
      assert names[0] + Dotted(rest) == names[0] + [0x2E] + Dotted(rest)[1..];
      SegmentsOfName(names[0], Dotted(rest)[1..]);
      assert names == [names[0]] + rest;
    }
  }

  lemma SpelledTrims(names: seq<Bytes>)
    requires Plain(names)
    ensures TrimStart(TrimStart(Spelled(names), 0x24), 0x2E) == Dotted(names)[1..] != []
  {
    var path, dotted := Spelled(names), Dotted(names);
    assert path[1..] == dotted && dotted[0] == 0x2E;
    assert dotted[1..] == names[0] + Dotted(names[1..]);
    assert dotted[1..][0] == names[0][0] && names[0][0] in names[0];
  }

  lemma {:induction false} WalkLeads(row: Value, names: seq<Bytes>, v: Value)
    ensures Walk(row, names) == Some(v) <==> exists met :: Leads(row, names, v, met)
    decreases |names|
  {
    if names == [] {
      if row == v { assert Leads(row, names, v, [row]); }
    } else {
      if row.Object? && names[0] in row.fields {
        var next := row.fields[names[0]];
        WalkLeads(next, names[1..], v);
        if met: seq<Value> :| Leads(next, names[1..], v, met) {
          var longer := [row] + met;
          forall i | 0 <= i < |names|
            ensures longer[i].Object? && names[i] in longer[i].fields && longer[i].fields[names[i]] == longer[i + 1]
          {
            if i > 0 { assert names[i] == names[1..][i - 1]; }
          }
          assert Leads(row, names, v, longer);
        }
        if met: seq<Value> :| Leads(row, names, v, met) {
          assert met[0].fields[names[0]] == met[1];
          assert forall i :: 0 <= i < |names| - 1 ==> names[1..][i] == names[i + 1];
          assert Leads(next, names[1..], v, met[1..]);
        }
      }
    }
  }

  /** A path reads the value its names lead to, and nothing where they lead
      nowhere: a name is missing, or what has it is no object. */
  lemma PathReads(row: Value, names: seq<Bytes>)
    requires Plain(names)
    ensures forall v :: FieldAt(row, Spelled(names)) == Some(v) <==> exists met :: Leads(row, names, v, met)
    ensures FieldAt(row, [0x24]) == Some(row) && FieldAt(row, []) == Some(row)
  {
    SpelledTrims(names);
    SegmentsOfNames(names);
    forall v ensures Walk(row, names) == Some(v) <==> exists met :: Leads(row, names, v, met) { WalkLeads(row, names, v); }
    assert [0x24][1..] == [];
  }

  /** In particular, reading stops at the first name that is not there. */
  lemma PathStops(row: Value, names: seq<Bytes>, i: nat, w: Value, met: seq<Value>)
    requires Plain(names) && i < |names| && Leads(row, names[..i], w, met) && !(w.Object? && names[i] in w.fields)
    ensures FieldAt(row, Spelled(names)) == None
  {
    PathReads(row, names);
    if FieldAt(row, Spelled(names)).Some? {
      var v := FieldAt(row, Spelled(names)).value;
      var all :| Leads(row, names, v, all);
      SameSteps(row, names, i, met, all, i);
    }
  }

  lemma {:induction false} SameSteps(row: Value, names: seq<Bytes>, n: nat, met: seq<Value>, all: seq<Value>, i: nat)
    requires i <= n <= |names| && |met| == n + 1 && |all| == |names| + 1
    requires Leads(row, names[..n], met[n], met) && Leads(row, names, all[|names|], all)
    ensures met[i] == all[i]
    decreases i
  {
    if i > 0 {
      SameSteps(row, names, n, met, all, i - 1);
      assert names[..n][i - 1] == names[i - 1];
    }
  }

  // ── The field of a CREATE INDEX ───────────────────────────────────────────

  /** The path and the array flag of a field as written: `[]` at the end makes an
      array index, and `$.` is put before a field that does not start with `$`. */
  function CanonicalField(field: Bytes): (Bytes, bool) {
    var isArray := |field| >= 2 && field[|field| - 2..] == [0x5B, 0x5D];
    var inner := if isArray then field[..|field| - 2] else field;
    (if inner != [] && inner[0] == 0x24 then inner else [0x24, 0x2E] + inner, isArray)
  }

  /** A path and its flag as the planner spells them. */
  function FieldSpec(path: Bytes, isArray: bool): Bytes {
    if isArray then path + [0x5B, 0x5D] else path
  }

  /** The names with a dot between them. */
  function Joined(names: seq<Bytes>): Bytes
    requires names != []
  {
    Dotted(names)[1..]
  }

  predicate EndsInBrackets(s: Bytes) {
    |s| >= 2 && s[|s| - 2..] == [0x5B, 0x5D]
  }

  /** `a.b` and `$.a.b` are one path, `a.b[]` the array index over it, and the
      planner's spelling of a canonical field names it again. */
  lemma FieldIsCanonical(names: seq<Bytes>)
    requires Plain(names) && Joined(names)[0] != 0x24 && !EndsInBrackets(Joined(names))
    ensures CanonicalField(Joined(names)) == CanonicalField(Spelled(names)) == (Spelled(names), false)
    ensures CanonicalField(Joined(names) + [0x5B, 0x5D]) == (Spelled(names), true)
    ensures forall isArray :: CanonicalField(FieldSpec(Spelled(names), isArray)) == (Spelled(names), isArray)
  {
    var joined, path := Joined(names), Spelled(names);
    assert path == [0x24, 0x2E] + joined;
    assert (joined + [0x5B, 0x5D])[..|joined|] == joined && (joined + [0x5B, 0x5D])[|joined|..] == [0x5B, 0x5D];
    assert (path + [0x5B, 0x5D])[..|path|] == path && (path + [0x5B, 0x5D])[|path|..] == [0x5B, 0x5D];
    if |joined| >= 2 { assert joined[|joined| - 2..] == path[|path| - 2..]; }
    if |joined| == 1 { assert path[|path| - 2..][0] == 0x2E; }
  }

  // ── Values ────────────────────────────────────────────────────────────────

  /** The row is one the index covers: it has no predicate, or one that holds. */
  ghost predicate Passes(env: Env, def: IndexDef, row: Value) {
    match def.partial case None => true case Some(p) => env.holds(p, row)
  }

  /** A row the predicate rejects has no value and no entry. */
  lemma RejectedHasNothing(env: Env, def: IndexDef, row: Value, docId: Text)
    requires !Passes(env, def, row)
    ensures IndexValues(env, def, row) == [] && EntryKeys(env, def, docId, row) == {}
  {
  }

  predicate Scalar(v: Value) {
    v.Bool? || v.Integer? || v.Float? || v.Decimal? || v.DateTime? || v.NaiveDateTime? || v.String? || v.Packed?
  }

  /** The scalar `x` is at the field: the field itself or, under an array index,
      one of its elements. */
  ghost predicate AtField(def: IndexDef, row: Value, x: Value) {
    && Scalar(x) && FieldAt(row, def.path).Some?
    && var field := FieldAt(row, def.path).value;
    field == x || (def.isArray && field.Array? && x in field.items)
  }

  lemma {:induction false} FoldedItems(env: Env, def: IndexDef, items: seq<Value>, v: Value)
    ensures v in FoldItems(env, def, items) <==> exists x :: x in items && Scalar(x) && v == FoldCase(env, def, x)
    decreases |items|
  {
    hide FoldCase;
    if items != [] {
      FoldedItems(env, def, items[1..], v);
      assert forall x :: x in items <==> x == items[0] || x in items[1..];
    }
  }

  lemma FoldedField(env: Env, def: IndexDef, row: Value, v: Value)
    ensures v in IndexValues(env, def, row) <==> Passes(env, def, row) && exists x :: AtField(def, row, x) && v == FoldCase(env, def, x)
  {
    hide FoldCase;
    hide FieldAt;
    hide FoldItems;
    if FieldAt(row, def.path).Some? {
      var field := FieldAt(row, def.path).value;
      if field.Array? && def.isArray {
        FoldedItems(env, def, field.items, v);
        if x :| x in field.items && Scalar(x) && v == FoldCase(env, def, x) { assert AtField(def, row, x); }
      } else if Scalar(field) {
        assert AtField(def, row, field);
      }
    }
  }

  /** A row has the values of the scalars at its field, lowercased texts in place
      of texts where the index ignores case, if the predicate lets it in. */
  lemma ValuesOfRow(env: Env, def: IndexDef, row: Value, v: Value)
    ensures v in IndexValues(env, def, row)
       <==> Passes(env, def, row)
            && ((exists x :: AtField(def, row, x) && v == x && !(def.caseInsensitive && x.String?))
                || (exists x :: AtField(def, row, x) && x.String? && def.caseInsensitive && v == String(env.lowercase(x.text))))
  {
    hide AtField;
    hide IndexValues;
    FoldedField(env, def, row, v);
  }

  /** A scalar field under an index that minds case is its one value. */
  lemma ScalarIsItself(env: Env, def: IndexDef, row: Value, v: Value)
    requires Passes(env, def, row) && FieldAt(row, def.path) == Some(v) && Scalar(v) && !def.caseInsensitive
    ensures IndexValues(env, def, row) == [v]
  {
  }

  /** Under one that does not, texts of one lowercase form are one value. */
  lemma CaseIsIgnored(env: Env, def: IndexDef, a: Value, b: Value, s: Text, t: Text)
    requires Passes(env, def, a) && Passes(env, def, b) && def.caseInsensitive
    requires FieldAt(a, def.path) == Some(String(s)) && FieldAt(b, def.path) == Some(String(t))
    requires env.lowercase(s) == env.lowercase(t)
    ensures IndexValues(env, def, a) == IndexValues(env, def, b) == [String(env.lowercase(s))]
  {
  }
}
