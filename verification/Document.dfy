/** From a row to its entries: the field an index reads, the values in it, and
    the keys under which they are stored and looked for. */
module Document {
  import opened Options
  import opened ByteOrder
  import opened Utf8
  import opened Numbers
  import opened Casts
  import opened Key

  /** A document value. `Packed` is any scalar without a class of its own, by
      its MessagePack bytes, absent when it cannot be packed. */
  datatype Value =
    | Null
    | Bool(b: bool)
    | Integer(i: Micros)
    | Float(bits: Double)
    | Decimal(digits: Bytes)
    | DateTime(micros: Micros)
    | NaiveDateTime(micros: Micros)
    | String(text: Text)
    | Packed(bytes: Option<Bytes>)
    | Array(items: seq<Value>)
    | Object(fields: map<Bytes, Value>)

  datatype Engine = DocumentRows | StrictRows | KeyValueRows

  datatype IndexDef = IndexDef(
    name: Ident,
    collection: Ident,
    path: Bytes,
    unique: bool,
    caseInsensitive: bool,
    isArray: bool,
    partial: Option<Bytes>,
    engine: Engine)
  {
    function EntryPrefix(): Bytes {
      IndexPrefix(collection, name)
    }

    function Key(): Bytes {
      DefKey(collection, name)
    }
  }

  /** A row's identity: its collection and document id. */
  type DocRef = (Ident, Text)

  /** The parts of the system the index calls and does not define: the number
      and timestamp parsers, lowercasing, the evaluation of a partial index's
      predicate, and coerced SQL equality. */
  datatype Env = Env(
    number: Bytes -> Option<Double>,
    moment: Bytes -> Option<Micros>,
    lowercase: Text -> Text,
    holds: (Bytes, Value) -> bool,
    eq: (Value, Value) -> bool)

  // ── Field access ──────────────────────────────────────────────────────────

  const DOLLAR: byte := 0x24
  const DOT: byte := 0x2E

  function TrimStart(s: Bytes, c: byte): Bytes {
    if s != [] && s[0] == c then TrimStart(s[1..], c) else s
  }

  /** The segments of `path` between dots: always at least one. */
  function Segments(path: Bytes): (parts: seq<Bytes>)
    ensures parts != []
  {
    if path == [] then [[]]
    else
      var rest := Segments(path[1..]);
      if path[0] == DOT then [[]] + rest else [[path[0]] + rest[0]] + rest[1..]
  }

  function Walk(value: Value, segments: seq<Bytes>): Option<Value> {
    if segments == [] then Some(value)
    else if value.Object? && segments[0] in value.fields then
      Walk(value.fields[segments[0]], segments[1..])
    else None
  }

  function FieldAt(row: Value, path: Bytes): Option<Value> {
    var path := TrimStart(TrimStart(path, DOLLAR), DOT);
    if path == [] then Some(row) else Walk(row, Segments(path))
  }

  method ReadField(row: Value, path: Bytes) returns (field: Option<Value>)
    ensures field == FieldAt(row, path)
  {
    var path := TrimStart(TrimStart(path, DOLLAR), DOT);
    if path == [] {
      return Some(row);
    }
    var current := row;
    var segments := Segments(path);
    for i := 0 to |segments|
      invariant Walk(current, segments[i..]) == Walk(row, segments)
    {
      assert segments[i..][0] == segments[i] && segments[i..][1..] == segments[i + 1..];
      if !current.Object? || segments[i] !in current.fields {
        return None;
      }
      current := current.fields[segments[i]];
    }
    return Some(current);
  }

  // ── Values and entries of a row ───────────────────────────────────────────

  function FoldCase(env: Env, def: IndexDef, value: Value): Value {
    if value.String? && def.caseInsensitive then String(env.lowercase(value.text)) else value
  }

  predicate Indexable(value: Value) {
    !value.Null? && !value.Array? && !value.Object?
  }

  function FoldItems(env: Env, def: IndexDef, items: seq<Value>): seq<Value> {
    if items == [] then []
    else (if Indexable(items[0]) then [FoldCase(env, def, items[0])] else []) + FoldItems(env, def, items[1..])
  }

  predicate Covers(env: Env, def: IndexDef, row: Value) {
    def.partial.Some? ==> env.holds(def.partial.value, row)
  }

  /** What the index takes from the row, case folded where it asks for that. */
  function IndexValues(env: Env, def: IndexDef, row: Value): seq<Value> {
    if !Covers(env, def, row) then []
    else
      match FieldAt(row, def.path)
      case None => []
      case Some(field) =>
        if field.Array? && def.isArray then FoldItems(env, def, field.items)
        else if Indexable(field) then [FoldCase(env, def, field)]
        else []
  }

  function EncodeTyped(env: Env, value: Value): Option<Bytes> {
    match value
    case Null => None
    case Array(_) => None
    case Object(_) => None
    case Bool(b) => Some(BoolKey(b))
    case Integer(i) => Some(NumberKey(FromInteger(i)))
    case Float(f) => Some(NumberKey(f))
    case Decimal(d) => (match env.number(d) case None => None case Some(f) => Some(NumberKey(f)))
    case DateTime(t) => Some(MomentKey(t))
    case NaiveDateTime(t) => Some(MomentKey(t))
    case String(s) => Some(Escaped(TAG_STRING, s))
    case Packed(p) => (match p case None => None case Some(bytes) => Some(Escaped(TAG_OTHER, bytes)))
  }

  function Listed(key: Option<Bytes>): seq<Bytes> {
    match key case None => [] case Some(k) => [k]
  }

  function NumberKeyOf(env: Env, s: Bytes): Option<Bytes> {
    match env.number(s) case None => None case Some(f) => Some(NumberKey(f))
  }

  function MomentKeyOf(env: Env, s: Bytes): Option<Bytes> {
    match env.moment(s) case None => None case Some(t) => Some(MomentKey(t))
  }

  /** The keys of every class a coerced comparison can match `value` in. */
  function EncodeCoercible(env: Env, value: Value): seq<Bytes> {
    if value.String? then
      [Escaped(TAG_STRING, value.text)]
      + Listed(NumberKeyOf(env, value.text)) + Listed(MomentKeyOf(env, value.text))
    else Listed(EncodeTyped(env, value))
  }

  /** The same values as bytes, each in all its classes. */
  function EncodedValues(env: Env, def: IndexDef, row: Value): set<Bytes> {
    set v, e | v in IndexValues(env, def, row) && e in EncodeCoercible(env, v) :: e
  }

  /** One entry for each of those, under the index and ending in the id. */
  function EntryKeys(env: Env, def: IndexDef, docId: Text, row: Value): set<Bytes> {
    set e | e in EncodedValues(env, def, row) :: EntryKey(def.EntryPrefix(), e, docId)
  }

  /** The comparison a scan makes on the field itself. */
  predicate MatchesProbe(env: Env, def: IndexDef, row: Value, probe: Value) {
    match FieldAt(row, def.path)
    case None => false
    case Some(field) => env.eq(FoldCase(env, def, field), FoldCase(env, def, probe))
  }

  // ── Coerced comparison ────────────────────────────────────────────────────

  /** One way coerced comparison can read a value. A number is read as what it
      denotes, so the integer 3 and the float 3.0 have one reading. */
  datatype Reading =
    | AsBool(b: bool)
    | AsNumber(numeric: int)
    | AsNaN
    | AsMoment(micros: Micros)
    | AsCharacters(text: Bytes)
    | AsPacked(bytes: Bytes)

  function NumberReading(f: Double): Reading {
    if IsNaN(f) then AsNaN else AsNumber(Numeric(f))
  }

  /** A value in one class, the source of one key and of one reading. */
  datatype Form =
    | BoolForm(b: bool)
    | NumberForm(f: Double)
    | MomentForm(t: Micros)
    | TextForm(s: Bytes)
    | PackedForm(s: Bytes)

  function FormKey(form: Form): Bytes {
    match form
    case BoolForm(b) => BoolKey(b)
    case NumberForm(f) => NumberKey(f)
    case MomentForm(t) => MomentKey(t)
    case TextForm(s) => Escaped(TAG_STRING, s)
    case PackedForm(s) => Escaped(TAG_OTHER, s)
  }

  function FormReading(form: Form): Reading {
    match form
    case BoolForm(b) => AsBool(b)
    case NumberForm(f) => NumberReading(f)
    case MomentForm(t) => AsMoment(t)
    case TextForm(s) => AsCharacters(s)
    case PackedForm(s) => AsPacked(s)
  }

  /** The forms coerced comparison gives a value. */
  function Forms(env: Env, value: Value): seq<Form> {
    match value
    case Null => []
    case Array(_) => []
    case Object(_) => []
    case Bool(b) => [BoolForm(b)]
    case Integer(i) => [NumberForm(FromInteger(i))]
    case Float(f) => [NumberForm(f)]
    case Decimal(d) => NumberForms(env, d)
    case DateTime(t) => [MomentForm(t)]
    case NaiveDateTime(t) => [MomentForm(t)]
    case String(s) => [TextForm(s)] + NumberForms(env, s) + MomentForms(env, s)
    case Packed(p) => (match p case None => [] case Some(bytes) => [PackedForm(bytes)])
  }

  function NumberForms(env: Env, s: Bytes): seq<Form> {
    match env.number(s) case None => [] case Some(f) => [NumberForm(f)]
  }

  function MomentForms(env: Env, s: Bytes): seq<Form> {
    match env.moment(s) case None => [] case Some(t) => [MomentForm(t)]
  }

  ghost function Readings(env: Env, value: Value): set<Reading> {
    set form | form in Forms(env, value) :: FormReading(form)
  }

  ghost predicate ShareReading(env: Env, a: Value, b: Value) {
    exists r :: r in Readings(env, a) && r in Readings(env, b)
  }

  /** The documented rule of coerced equality: it is symmetric, and values it
      holds equal, one of them a scalar, agree in some class both have. */
  ghost predicate Lawful(env: Env) {
    && (forall a, b :: env.eq(a, b) ==> env.eq(b, a))
    && (forall a, b :: env.eq(a, b) && Indexable(b) ==> ShareReading(env, a, b))
  }

  function FormTag(form: Form): byte {
    match form
    case BoolForm(_) => TAG_BOOL
    case NumberForm(_) => TAG_NUMBER
    case MomentForm(_) => TAG_DATETIME
    case TextForm(_) => TAG_STRING
    case PackedForm(_) => TAG_OTHER
  }

  lemma FormKeyIsEncoded(form: Form)
    ensures IsEncoded(FormKey(form)) && FormKey(form)[0] == FormTag(form)
  {
    match form
    case TextForm(s) => EscapedIsEncoded(TAG_STRING, s);
    case PackedForm(s) => EscapedIsEncoded(TAG_OTHER, s);
    case _ =>
  }

  lemma NumberFormsAgree(f: Double, g: Double)
    ensures NumberKey(f) == NumberKey(g) <==> NumberReading(f) == NumberReading(g)
  {
    NumberBytesOrder(f, g);
    NumberBytesOrder(g, f);
    Trichotomy(NumberBytes(f), NumberBytes(g));
    assert NumberKey(f)[1..] == NumberBytes(f) && NumberKey(g)[1..] == NumberBytes(g);
  }

  lemma MomentFormsAgree(t: Micros, u: Micros)
    ensures MomentKey(t) == MomentKey(u) <==> t == u
  {
    MomentBytesOrder(t, u);
    assert MomentKey(t)[1..] == MomentBytes(t) && MomentKey(u)[1..] == MomentBytes(u);
  }

  /** One key for one reading, and one reading for one key. */
  lemma FormsAgree(a: Form, b: Form)
    ensures FormKey(a) == FormKey(b) <==> FormReading(a) == FormReading(b)
  {
    FormKeyIsEncoded(a);
    FormKeyIsEncoded(b);
    match (a, b)
    case (NumberForm(f), NumberForm(g)) => NumberFormsAgree(f, g);
    case (MomentForm(t), MomentForm(u)) => MomentFormsAgree(t, u);
    case (TextForm(s), TextForm(t)) => EscapedOrder(TAG_STRING, s, t);
    case (PackedForm(s), PackedForm(t)) => EscapedOrder(TAG_OTHER, s, t);
    case (BoolForm(x), BoolForm(y)) => assert FormKey(a)[1] == (if x then 1 else 0);
    case _ =>
  }

  function FormKeys(forms: seq<Form>): (keys: seq<Bytes>)
    ensures |keys| == |forms| && forall i :: 0 <= i < |forms| ==> keys[i] == FormKey(forms[i])
  {
    if forms == [] then [] else [FormKey(forms[0])] + FormKeys(forms[1..])
  }

  /** The stored keys are the keys of the value's forms, class by class. */
  lemma KeysOfForms(env: Env, value: Value)
    ensures EncodeCoercible(env, value) == FormKeys(Forms(env, value))
  {
  }

  /** A value has at most one form in a class. */
  lemma FormsDiffer(env: Env, value: Value)
    ensures forall i, j :: 0 <= i < j < |Forms(env, value)| ==>
              FormTag(Forms(env, value)[i]) != FormTag(Forms(env, value)[j])
  {
  }

  lemma KeyHasForm(env: Env, value: Value, key: Bytes) returns (form: Form)
    requires key in EncodeCoercible(env, value)
    ensures form in Forms(env, value) && FormKey(form) == key && IsEncoded(key)
  {
    KeysOfForms(env, value);
    var i :| 0 <= i < |EncodeCoercible(env, value)| && EncodeCoercible(env, value)[i] == key;
    form := Forms(env, value)[i];
    FormKeyIsEncoded(form);
  }

  lemma FormHasKey(env: Env, value: Value, form: Form)
    requires form in Forms(env, value)
    ensures FormKey(form) in EncodeCoercible(env, value)
  {
    KeysOfForms(env, value);
    var i :| 0 <= i < |Forms(env, value)| && Forms(env, value)[i] == form;
    assert FormKeys(Forms(env, value))[i] == FormKey(form);
  }

  lemma SharedKeyGivesReading(env: Env, a: Value, b: Value, k: Bytes)
    requires k in EncodeCoercible(env, a) && k in EncodeCoercible(env, b)
    ensures ShareReading(env, a, b)
  {
    hide EncodeCoercible;
    hide Forms;
    hide FormReading;
    hide FormKey;
    hide IsEncoded;
    var f := KeyHasForm(env, a, k);
    var g := KeyHasForm(env, b, k);
    FormsAgree(f, g);
    assert FormReading(f) in Readings(env, a) && FormReading(g) in Readings(env, b);
  }

  lemma SharedReadingGivesKey(env: Env, a: Value, b: Value) returns (k: Bytes)
    requires ShareReading(env, a, b)
    ensures k in EncodeCoercible(env, a) && k in EncodeCoercible(env, b)
  {
    hide EncodeCoercible;
    hide Forms;
    hide FormReading;
    hide FormKey;
    var r :| r in Readings(env, a) && r in Readings(env, b);
    var f :| f in Forms(env, a) && FormReading(f) == r;
    var g :| g in Forms(env, b) && FormReading(g) == r;
    FormsAgree(f, g);
    FormHasKey(env, a, f);
    FormHasKey(env, b, g);
    k := FormKey(f);
  }

  /** Values share an index key exactly when they share a reading. */
  lemma SharedKeyIffSharedReading(env: Env, a: Value, b: Value)
    ensures (exists k :: k in EncodeCoercible(env, a) && k in EncodeCoercible(env, b))
       <==> ShareReading(env, a, b)
  {
    hide EncodeCoercible;
    hide ShareReading;
    if k :| k in EncodeCoercible(env, a) && k in EncodeCoercible(env, b) {
      SharedKeyGivesReading(env, a, b, k);
    }
    if ShareReading(env, a, b) {
      var k := SharedReadingGivesKey(env, a, b);
    }
  }

  /** Sharing a reading, the documented rule taken as the definition of coerced
      equality, is lawful whatever the parsers. */
  lemma CoercedEqualityIsLawful(env: Env)
    ensures Lawful(env.(eq := (a, b) => ShareReading(env, a, b)))
  {
    var coerced := env.(eq := (a, b) => ShareReading(env, a, b));
    forall v ensures Forms(coerced, v) == Forms(env, v) { }
    forall a, b | ShareReading(env, a, b) ensures ShareReading(env, b, a) && ShareReading(coerced, a, b) {
      var r :| r in Readings(env, a) && r in Readings(env, b);
      assert Readings(coerced, a) == Readings(env, a) && Readings(coerced, b) == Readings(env, b);
    }
  }

  /** The entries of a row, told from the keys alone. */
  lemma EntryKeysParse(env: Env, def: IndexDef, docId: Text, row: Value, key: Bytes)
    ensures key in EntryKeys(env, def, docId, row)
       <==> && ParseEntry(key).Some?
            && ParseEntry(key).value.collection == def.collection
            && ParseEntry(key).value.index == def.name
            && ParseEntry(key).value.docId == docId
            && ParseEntry(key).value.value in EncodedValues(env, def, row)
  {
    if key in EntryKeys(env, def, docId, row) {
      var e :| e in EncodedValues(env, def, row) && key == EntryKey(def.EntryPrefix(), e, docId);
      EncodedValuesAreEncoded(env, def, row, e);
      EntryParses(def.collection, def.name, e, docId);
    }
    if ParseEntry(key).Some? {
      ParsedRebuilds(key);
    }
  }

  lemma EncodedValuesAreEncoded(env: Env, def: IndexDef, row: Value, e: Bytes)
    requires e in EncodedValues(env, def, row)
    ensures IsEncoded(e)
  {
    var v :| v in IndexValues(env, def, row) && e in EncodeCoercible(env, v);
    var _ := KeyHasForm(env, v, e);
  }

  lemma {:induction false} FoldedItemsAreIndexable(env: Env, def: IndexDef, items: seq<Value>)
    ensures forall v :: v in FoldItems(env, def, items) ==> Indexable(v)
  {
    if items != [] {
      FoldedItemsAreIndexable(env, def, items[1..]);
    }
  }

  lemma IndexValuesAreIndexable(env: Env, def: IndexDef, row: Value)
    ensures forall v :: v in IndexValues(env, def, row) ==> Indexable(v)
  {
    var field := FieldAt(row, def.path);
    if field.Some? && field.value.Array? {
      FoldedItemsAreIndexable(env, def, field.value.items);
    }
  }
}
