/** Range reads: the documents an index holds between two bounds. */
module Range {
  import opened Options
  import opened ByteOrder
  import opened Utf8
  import opened Numbers
  import opened Key
  import opened Document
  import opened Store
  import opened Maintain
  import opened Install
  import opened Lookup

  /** The part of a range that falls in one class. */
  datatype ClassRange = ClassRange(tag: byte, low: Option<Bytes>, high: Option<Bytes>)

  datatype Bound = Included(key: Bytes) | Excluded(key: Bytes)

  // ── Choosing the classes ──────────────────────────────────────────────────

  function WithTag(keys: seq<Bytes>, tag: byte): Option<Bytes> {
    if keys == [] then None
    else if keys[0] != [] && keys[0][0] == tag then Some(keys[0])
    else WithTag(keys[1..], tag)
  }

  /** One range per class, from the lower keys. */
  function FromLow(low: seq<Bytes>, high: Option<seq<Bytes>>): seq<ClassRange> {
    if low == [] then []
    else
      var init, last := FromLow(low[..|low| - 1], high), low[|low| - 1];
      if last == [] then init
      else
        match high
        case None => init + [ClassRange(last[0], Some(last), None)]
        case Some(keys) =>
          match WithTag(keys, last[0])
          case None => init
          case Some(h) => init + [ClassRange(last[0], Some(last), Some(h))]
  }

  function FromHigh(high: seq<Bytes>): seq<ClassRange> {
    if high == [] then []
    else
      var init, last := FromHigh(high[..|high| - 1]), high[|high| - 1];
      if last == [] then init else init + [ClassRange(last[0], None, Some(last))]
  }

  /** The value classes both bounds share; none when neither bound is given. */
  function Classes(low: Option<seq<Bytes>>, high: Option<seq<Bytes>>): seq<ClassRange> {
    match (low, high)
    case (Some(l), h) => FromLow(l, h)
    case (None, Some(h)) => FromHigh(h)
    case (None, None) => []
  }

  // ── Reading one class ─────────────────────────────────────────────────────

  function StartOf(prefix: Bytes, r: ClassRange): Bytes {
    prefix + (match r.low case Some(l) => l case None => [r.tag])
  }

  function EndOf(prefix: Bytes, r: ClassRange): Bound
    requires r.tag < 255
  {
    match r.high
    case Some(h) => Included(prefix + (h + [0xFF]))
    case None => Excluded(prefix + [r.tag + 1])
  }

  predicate Crossed(start: Bytes, end: Bound) {
    match end
    case Included(e) => Less(e, start)
    case Excluded(e) => AtMost(e, start)
  }

  predicate Below(k: Bytes, end: Bound) {
    match end
    case Included(e) => AtMost(k, e)
    case Excluded(e) => Less(k, e)
  }

  /** An ordered set's range, which refuses a start past its end. */
  function OrderedRange(entries: set<Bytes>, start: Bytes, end: Bound): seq<Bytes>
    requires AtMost(start, end.key)
  {
    Ascending(set k | k in entries && AtMost(start, k) && Below(k, end))
  }

  lemma UncrossedIsOrdered(start: Bytes, end: Bound)
    requires !Crossed(start, end)
    ensures AtMost(start, end.key)
  {
    Trichotomy(start, end.key);
  }

  function RangeKeys(entries: set<Bytes>, prefix: Bytes, r: ClassRange): seq<Bytes>
    requires r.tag < 255
  {
    var start, end := StartOf(prefix, r), EndOf(prefix, r);
    if Crossed(start, end) then []
    else
      UncrossedIsOrdered(start, end);
      OrderedRange(entries, start, end)
  }

  function IdsOfRanges(entries: set<Bytes>, prefix: Bytes, ranges: seq<ClassRange>): seq<Text>
    requires forall r :: r in ranges ==> Tagged(r)
  {
    if ranges == [] then []
    else
      assert ranges[|ranges| - 1] in ranges;
      assert Tagged(ranges[|ranges| - 1]);
      IdsOfRanges(entries, prefix, ranges[..|ranges| - 1])
      + DocIds(RangeKeys(entries, prefix, ranges[|ranges| - 1]), prefix)
  }

  function BoundKeys(env: Env, def: IndexDef, bound: Option<Value>): Option<seq<Bytes>> {
    match bound case None => None case Some(v) => Some(EncodeCoercible(env, FoldCase(env, def, v)))
  }

  function RangeClasses(env: Env, def: IndexDef, lower: Option<Value>, upper: Option<Value>): seq<ClassRange> {
    Classes(BoundKeys(env, def, lower), BoundKeys(env, def, upper))
  }

  /** Candidates class by class; no answer when there is no class to read. */
  function RangeIds(env: Env, s: State, def: IndexDef, lower: Option<Value>, upper: Option<Value>): Option<seq<Text>> {
    var ranges := RangeClasses(env, def, lower, upper);
    if ranges == [] then None
    else
      ClassesAreTagged(env, def, lower, upper);
      Some(Dedup(IdsOfRanges(s.entries, def.EntryPrefix(), ranges)))
  }

  // ── The classes are those of encoded bounds ───────────────────────────────

  /** Bounds that are encoded values of the range's own class. */
  ghost predicate Tagged(r: ClassRange) {
    && r.tag < 255
    && (r.low.Some? ==> IsEncoded(r.low.value) && r.low.value[0] == r.tag)
    && (r.high.Some? ==> IsEncoded(r.high.value) && r.high.value[0] == r.tag)
  }

  lemma {:induction false} WithTagFinds(keys: seq<Bytes>, tag: byte)
    ensures WithTag(keys, tag).Some? ==>
      WithTag(keys, tag).value in keys && WithTag(keys, tag).value != [] && WithTag(keys, tag).value[0] == tag
    ensures WithTag(keys, tag).None? ==> forall k :: k in keys ==> k == [] || k[0] != tag
  {
    if keys != [] {
      WithTagFinds(keys[1..], tag);
    }
  }

  lemma {:induction false} FromLowTagged(low: seq<Bytes>, high: Option<seq<Bytes>>)
    requires forall k :: k in low ==> IsEncoded(k)
    requires high.Some? ==> forall k :: k in high.value ==> IsEncoded(k)
    ensures forall r :: r in FromLow(low, high) ==> Tagged(r)
    decreases |low|
  {
    if low != [] {
      FromLowTagged(low[..|low| - 1], high);
      var last := low[|low| - 1];
      assert last in low;
      if high.Some? && last != [] { WithTagFinds(high.value, last[0]); }
    }
  }

  lemma {:induction false} FromHighTagged(high: seq<Bytes>)
    requires forall k :: k in high ==> IsEncoded(k)
    ensures forall r :: r in FromHigh(high) ==> Tagged(r)
    decreases |high|
  {
    if high != [] {
      FromHighTagged(high[..|high| - 1]);
      assert high[|high| - 1] in high;
    }
  }

  lemma BoundIsEncoded(env: Env, def: IndexDef, bound: Option<Value>)
    ensures BoundKeys(env, def, bound).Some? ==> forall k :: k in BoundKeys(env, def, bound).value ==> IsEncoded(k)
  {
    if bound.Some? {
      var v := FoldCase(env, def, bound.value);
      forall k | k in EncodeCoercible(env, v) ensures IsEncoded(k) {
        var _ := KeyHasForm(env, v, k);
      }
    }
  }

  lemma ClassesAreTagged(env: Env, def: IndexDef, lower: Option<Value>, upper: Option<Value>)
    ensures forall r :: r in RangeClasses(env, def, lower, upper) ==> Tagged(r)
  {
    hide IsEncoded;
    BoundIsEncoded(env, def, lower);
    BoundIsEncoded(env, def, upper);
    hide BoundKeys;
    var low, high := BoundKeys(env, def, lower), BoundKeys(env, def, upper);
    if low.Some? {
      FromLowTagged(low.value, high);
    } else if high.Some? {
      FromHighTagged(high.value);
    }
  }

  // ── Byte bounds are value bounds ──────────────────────────────────────────

  lemma PrefixesDiffer(a: Bytes, b: Bytes)
    requires IsEncoded(a) && IsEncoded(b) && a != b
    ensures !(a <= b)
  {
    if a <= b {
      var tail := b[|a|..];
      assert b == a + tail && b + [] == b;
      EncodedSplitsUniquely(a, tail, b, []);
    }
  }

  /** What follows an encoded value does not move it past another value. */
  lemma EncodedDecides(a: Bytes, x: Bytes, b: Bytes, y: Bytes)
    requires IsEncoded(a) && IsEncoded(b) && Less(a, b)
    ensures Less(a + x, b + y)
  {
    Trichotomy(a, b);
    PrefixesDiffer(a, b);
    DecidedEarly(a, b, x, y);
  }

  /** The lower cut-off: an entry reaches it exactly when its value does. */
  lemma LowCut(low: Bytes, e: Bytes, docId: Text)
    requires IsEncoded(low) && IsEncoded(e)
    ensures AtMost(low, e + docId) <==> AtMost(low, e)
  {
    hide IsEncoded;
    Trichotomy(low, e);
    assert low + [] == low;
    if Less(low, e) {
      EncodedDecides(low, [], e, docId);
    } else if Less(e, low) {
      EncodedDecides(e, docId, low, []);
      Trichotomy(low, e + docId);
    } else {
      PrefixSortsFirst(e, docId);
    }
  }

  /** The upper cut-off `high | 0xFF`: an entry stays below it exactly when its
      value does, because no document id holds the byte 0xFF. */
  lemma HighCut(high: Bytes, e: Bytes, docId: Text)
    requires IsEncoded(high) && IsEncoded(e)
    ensures AtMost(e + docId, high + [0xFF]) <==> AtMost(e, high)
  {
    hide IsEncoded;
    Trichotomy(high, e);
    if Less(e, high) {
      EncodedDecides(e, docId, high, [0xFF]);
    } else if Less(high, e) {
      EncodedDecides(high, [0xFF], e, docId);
      Trichotomy(e + docId, high + [0xFF]);
    } else {
      CommonPrefix(e, docId, [0xFF]);
      if docId != [] { OctetsBelowF5(docId, 0); }
    }
  }

  lemma TagCuts(tag: byte, e: Bytes, docId: Text)
    requires IsEncoded(e) && tag < 255
    ensures e != [] && (e + docId)[0] == e[0]
    ensures AtMost([tag], e + docId) <==> tag <= e[0]
    ensures Less(e + docId, [tag + 1]) <==> e[0] <= tag
  {
    assert e != [];
    hide IsEncoded;
    var k := e + docId;
    assert k[0] == e[0];
    assert [tag][1..] == [] && [tag + 1][1..] == [];
    assert k == [k[0]] + k[1..];
    if k[0] == tag && k[1..] != [] {
      assert Less([], k[1..]);
      assert Less([tag], k);
    }
  }

  lemma FirstBytesOrder(a: Bytes, b: Bytes)
    requires a != [] && b != [] && AtMost(a, b)
    ensures a[0] <= b[0]
  {
  }

  /** An encoded value lies in the class and within its inclusive bounds. */
  ghost predicate InClass(r: ClassRange, e: Bytes) {
    && IsEncoded(e) && e[0] == r.tag
    && (r.low.Some? ==> AtMost(r.low.value, e))
    && (r.high.Some? ==> AtMost(e, r.high.value))
  }

  ghost predicate InBytes(prefix: Bytes, r: ClassRange, k: Bytes)
    requires r.tag < 255
  {
    AtMost(StartOf(prefix, r), k) && Below(k, EndOf(prefix, r))
  }

  lemma TailInBytes(prefix: Bytes, r: ClassRange, tail: Bytes)
    requires r.tag < 255
    ensures InBytes(prefix, r, prefix + tail) <==> InBytes([], r, tail)
  {
    var low := match r.low case Some(l) => l case None => [r.tag];
    var high := match r.high case Some(h) => h + [0xFF] case None => [r.tag + 1];
    CommonPrefix(prefix, low, tail);
    CommonPrefix(prefix, tail, high);
    assert [] + low == low && [] + high == high;
    assert prefix + low == prefix + tail <==> low == tail by { SameTail(prefix, low, tail); }
    assert prefix + tail == prefix + high <==> tail == high by { SameTail(prefix, tail, high); }
  }

  lemma SameTail(p: Bytes, a: Bytes, b: Bytes)
    ensures p + a == p + b <==> a == b
  {
    assert (p + a)[|p|..] == a && (p + b)[|p|..] == b;
  }

  lemma ValueInBytes(r: ClassRange, e: Bytes, docId: Text)
    requires Tagged(r) && IsEncoded(e)
    ensures InBytes([], r, e + docId) <==> InClass(r, e)
  {
    assert r.low.Some? ==> r.low.value != [];
    assert r.high.Some? ==> r.high.value != [];
    hide IsEncoded;
    TagCuts(r.tag, e, docId);
    assert forall x: Bytes :: [] + x == x;
    match r.low {
      case Some(l) =>
        LowCut(l, e, docId);
        if AtMost(l, e) { FirstBytesOrder(l, e); }
      case None =>
    }
    match r.high {
      case Some(h) =>
        HighCut(h, e, docId);
        if AtMost(e, h) { FirstBytesOrder(e, h); }
      case None =>
    }
  }

  // ── Exactness ─────────────────────────────────────────────────────────────

  lemma RangeKeysMembers(entries: set<Bytes>, prefix: Bytes, r: ClassRange, k: Bytes)
    requires r.tag < 255
    ensures k in RangeKeys(entries, prefix, r) <==> k in entries && InBytes(prefix, r, k)
    ensures Ascends(RangeKeys(entries, prefix, r))
  {
    var start, end := StartOf(prefix, r), EndOf(prefix, r);
    if Crossed(start, end) && AtMost(start, k) && Below(k, end) {
      Trichotomy(start, end.key);
      if start != k && k != end.key { Transitive(start, k, end.key); }
    }
  }

  lemma InBytesIsUnder(prefix: Bytes, r: ClassRange, k: Bytes)
    requires r.tag < 255 && InBytes(prefix, r, k)
    ensures StartsWith(k, prefix)
  {
    var low := match r.low case Some(l) => l case None => [r.tag];
    var high := match r.high case Some(h) => h + [0xFF] case None => [r.tag + 1];
    Squeezed(prefix, low, k, high);
  }

  /** One class's scan finds exactly the documents with a value in it. */
  lemma RangeKeysExact(s: State, def: IndexDef, r: ClassRange, id: Text)
    requires TwoViews(s) && Tagged(r)
    ensures id in DocIds(RangeKeys(s.entries, def.EntryPrefix(), r), def.EntryPrefix())
       <==> exists e :: InClass(r, e) && EntryKey(def.EntryPrefix(), e, id) in s.entries
  {
    var prefix := def.EntryPrefix();
    var keys := RangeKeys(s.entries, prefix, r);
    DocIdsOf(keys, prefix, id);
    if id in DocIds(keys, prefix) {
      var k :| k in keys && EntryDocId(k, prefix) == Some(id);
      RangeKeysMembers(s.entries, prefix, r, k);
      var e := FoundValue(s, def, r, k, id);
    }
    if e :| InClass(r, e) && EntryKey(prefix, e, id) in s.entries {
      var k := EntryKey(prefix, e, id);
      EntryKeySplits(prefix, e, id);
      TailInBytes(prefix, r, e + id);
      ValueInBytes(r, e, id);
      RangeKeysMembers(s.entries, prefix, r, k);
      EntryDocIdReads(prefix, e, id);
    }
  }

  lemma FoundValue(s: State, def: IndexDef, r: ClassRange, k: Bytes, id: Text) returns (e: Bytes)
    requires TwoViews(s) && Tagged(r) && k in s.entries && InBytes(def.EntryPrefix(), r, k)
    requires EntryDocId(k, def.EntryPrefix()) == Some(id)
    ensures InClass(r, e) && EntryKey(def.EntryPrefix(), e, id) == k
  {
    var prefix := def.EntryPrefix();
    InBytesIsUnder(prefix, r, k);
    EntryUnder(s, def, k);
    ParsedRebuilds(k);
    e := ParseEntry(k).value.value;
    var docId := ParseEntry(k).value.docId;
    hide ParseEntry;
    hide InBytes;
    hide Tagged;
    hide InClass;
    EntryDocIdReads(prefix, e, docId);
    EntryKeySplits(prefix, e, docId);
    TailInBytes(prefix, r, e + docId);
    ValueInBytes(r, e, docId);
  }

  lemma {:induction false} IdsOfRangesExact(s: State, def: IndexDef, ranges: seq<ClassRange>, id: Text)
    requires TwoViews(s) && forall r :: r in ranges ==> Tagged(r)
    ensures id in IdsOfRanges(s.entries, def.EntryPrefix(), ranges)
       <==> exists r, e :: r in ranges && InClass(r, e) && EntryKey(def.EntryPrefix(), e, id) in s.entries
    decreases |ranges|
  {
    hide TwoViews;
    hide InClass;
    hide RangeKeys;
    if ranges != [] {
      var init, last := ranges[..|ranges| - 1], ranges[|ranges| - 1];
      assert forall r :: r in ranges <==> r in init || r == last;
      IdsOfRangesExact(s, def, init, id);
      RangeKeysExact(s, def, last, id);
    }
  }

  /** A range read returns precisely the documents with an entry in a class both
      bounds share and an encoded value within the inclusive bounds, each once. */
  lemma RangeExact(env: Env, s: State, def: IndexDef, lower: Option<Value>, upper: Option<Value>, id: Text)
    requires TwoViews(s) && RangeIds(env, s, def, lower, upper).Some?
    ensures var ids := RangeIds(env, s, def, lower, upper).value;
      && (id in ids <==> exists r, e :: r in RangeClasses(env, def, lower, upper) && InClass(r, e)
                                        && EntryKey(def.EntryPrefix(), e, id) in s.entries)
      && (forall i, j :: 0 <= i < j < |ids| ==> ids[i] != ids[j])
  {
    hide TwoViews;
    hide RangeClasses;
    hide InClass;
    ClassesAreTagged(env, def, lower, upper);
    var ranges := RangeClasses(env, def, lower, upper);
    IdsOfRangesExact(s, def, ranges, id);
    DedupExact(IdsOfRanges(s.entries, def.EntryPrefix(), ranges));
  }

  // ── What the bytes mean ───────────────────────────────────────────────────

  /** `a` is at most `b` as values of one class: numbers by what they denote with
      NaN last, timestamps by time, text and packed values bytewise. */
  ghost predicate FormAtMost(a: Form, b: Form) {
    match (a, b)
    case (BoolForm(x), BoolForm(y)) => x ==> y
    case (NumberForm(x), NumberForm(y)) => IsNaN(y) || (!IsNaN(x) && Numeric(x) <= Numeric(y))
    case (MomentForm(x), MomentForm(y)) => x <= y
    case (TextForm(x), TextForm(y)) => AtMost(x, y)
    case (PackedForm(x), PackedForm(y)) => AtMost(x, y)
    case _ => false
  }

  lemma TaggedOrder(tag: byte, a: Bytes, b: Bytes)
    ensures Less([tag] + a, [tag] + b) <==> Less(a, b)
    ensures [tag] + a == [tag] + b <==> a == b
  {
    CommonPrefix([tag], a, b);
    SameTail([tag], a, b);
  }

  lemma NumberOrder(x: Double, y: Double)
    ensures AtMost(NumberKey(x), NumberKey(y)) <==> FormAtMost(NumberForm(x), NumberForm(y))
  {
    TaggedOrder(TAG_NUMBER, NumberBytes(x), NumberBytes(y));
    NumberBytesOrder(x, y);
    NumberBytesOrder(y, x);
    Trichotomy(NumberBytes(x), NumberBytes(y));
  }

  /** Within a class, keys sort as the values they stand for. */
  lemma FormOrder(a: Form, b: Form)
    requires FormTag(a) == FormTag(b)
    ensures AtMost(FormKey(a), FormKey(b)) <==> FormAtMost(a, b)
  {
    match (a, b)
    case (BoolForm(x), BoolForm(y)) =>
      TaggedOrder(TAG_BOOL, [if x then 1 else 0], [if y then 1 else 0]);
      assert BoolKey(x) == [TAG_BOOL] + [if x then 1 else 0] && BoolKey(y) == [TAG_BOOL] + [if y then 1 else 0];
    case (NumberForm(x), NumberForm(y)) => NumberOrder(x, y);
    case (MomentForm(x), MomentForm(y)) =>
      TaggedOrder(TAG_DATETIME, MomentBytes(x), MomentBytes(y));
      MomentBytesOrder(x, y);
    case (TextForm(x), TextForm(y)) => EscapedOrder(TAG_STRING, x, y);
    case (PackedForm(x), PackedForm(y)) => EscapedOrder(TAG_OTHER, x, y);
  }

  ghost predicate Reaches(env: Env, def: IndexDef, bound: Value, f: Form) {
    exists g :: g in Forms(env, FoldCase(env, def, bound)) && FormTag(g) == FormTag(f) && FormAtMost(g, f)
  }

  ghost predicate StaysWithin(env: Env, def: IndexDef, bound: Value, f: Form) {
    exists h :: h in Forms(env, FoldCase(env, def, bound)) && FormTag(h) == FormTag(f) && FormAtMost(f, h)
  }

  /** `f` lies within the bounds given, each read in `f`'s own class. */
  ghost predicate InRange(env: Env, def: IndexDef, lower: Option<Value>, upper: Option<Value>, f: Form) {
    && (lower.Some? || upper.Some?)
    && (lower.Some? ==> Reaches(env, def, lower.value, f))
    && (upper.Some? ==> StaysWithin(env, def, upper.value, f))
  }

  lemma {:induction false} FromLowHas(low: seq<Bytes>, high: Option<seq<Bytes>>, r: ClassRange)
    ensures r in FromLow(low, high)
       <==> exists l :: l in low && l != [] && r.tag == l[0] && r.low == Some(l)
              && (if high.Some? then r.high.Some? && r.high == WithTag(high.value, l[0]) else r.high == None)
    decreases |low|
  {
    if low != [] {
      var init, last := low[..|low| - 1], low[|low| - 1];
      FromLowHas(init, high, r);
      assert forall l :: l in low <==> l in init || l == last;
    }
  }

  lemma {:induction false} FromHighHas(high: seq<Bytes>, r: ClassRange)
    ensures r in FromHigh(high) <==> exists h :: h in high && h != [] && r == ClassRange(h[0], None, Some(h))
    decreases |high|
  {
    if high != [] {
      var init, last := high[..|high| - 1], high[|high| - 1];
      FromHighHas(init, r);
      assert forall h :: h in high <==> h in init || h == last;
    }
  }

  lemma FormOfTag(env: Env, value: Value, f: Form)
    requires f in Forms(env, value)
    ensures WithTag(EncodeCoercible(env, value), FormTag(f)) == Some(FormKey(f))
  {
    KeysOfForms(env, value);
    FormsDiffer(env, value);
    FormHasKey(env, value, f);
    FormKeyIsEncoded(f);
    var keys := EncodeCoercible(env, value);
    WithTagFinds(keys, FormTag(f));
    assert FormKey(f) in keys && FormKey(f) != [];
    var found := WithTag(keys, FormTag(f)).value;
    var g := KeyHasForm(env, value, found);
    FormKeyIsEncoded(g);
    assert FormTag(g) == FormTag(f);
  }

  /** A value in range lies in a class read. */
  lemma InRangeIsRead(env: Env, def: IndexDef, lower: Option<Value>, upper: Option<Value>, f: Form)
    requires InRange(env, def, lower, upper, f)
    ensures exists r :: r in RangeClasses(env, def, lower, upper) && InClass(r, FormKey(f))
  {
    hide EncodeCoercible;
    hide Forms;
    hide FormAtMost;
    FormKeyIsEncoded(f);
    var low, high := BoundKeys(env, def, lower), BoundKeys(env, def, upper);
    var l: Option<Bytes>, h: Option<Bytes> := None, None;
    if lower.Some? {
      var g :| g in Forms(env, FoldCase(env, def, lower.value)) && FormTag(g) == FormTag(f) && FormAtMost(g, f);
      l := Some(FormKey(g));
      FormHasKey(env, FoldCase(env, def, lower.value), g);
      FormKeyIsEncoded(g);
      FormOrder(g, f);
    }
    if upper.Some? {
      var g :| g in Forms(env, FoldCase(env, def, upper.value)) && FormTag(g) == FormTag(f) && FormAtMost(f, g);
      h := Some(FormKey(g));
      FormHasKey(env, FoldCase(env, def, upper.value), g);
      FormOfTag(env, FoldCase(env, def, upper.value), g);
      FormKeyIsEncoded(g);
      FormOrder(f, g);
    }
    var r := ClassRange(FormTag(f), l, h);
    hide FormKey;
    hide IsEncoded;
    if lower.Some? {
      FromLowHas(low.value, high, r);
    } else {
      FromHighHas(high.value, r);
    }
    assert InClass(r, FormKey(f));
  }

  lemma ReadReaches(env: Env, def: IndexDef, bound: Value, l: Bytes, f: Form)
    requires l in EncodeCoercible(env, FoldCase(env, def, bound)) && l != [] && l[0] == FormTag(f)
    ensures AtMost(l, FormKey(f)) ==> Reaches(env, def, bound, f)
    ensures AtMost(FormKey(f), l) ==> StaysWithin(env, def, bound, f)
  {
    var g := KeyHasForm(env, FoldCase(env, def, bound), l);
    FormKeyIsEncoded(g);
    FormOrder(g, f);
    FormOrder(f, g);
  }

  /** A value in a class read is in range. */
  lemma ReadIsInRange(env: Env, def: IndexDef, lower: Option<Value>, upper: Option<Value>, r: ClassRange, f: Form)
    requires r in RangeClasses(env, def, lower, upper) && InClass(r, FormKey(f))
    ensures InRange(env, def, lower, upper, f)
  {
    FormKeyIsEncoded(f);
    var low, high := BoundKeys(env, def, lower), BoundKeys(env, def, upper);
    hide EncodeCoercible;
    hide FormKey;
    hide IsEncoded;
    hide Reaches;
    hide StaysWithin;
    if lower.Some? {
      FromLowHas(low.value, high, r);
      ReadReaches(env, def, lower.value, r.low.value, f);
      if upper.Some? {
        WithTagFinds(high.value, r.tag);
        ReadReaches(env, def, upper.value, r.high.value, f);
      }
    } else if upper.Some? {
      FromHighHas(high.value, r);
      ReadReaches(env, def, upper.value, r.high.value, f);
    }
  }

  /** The bounds give a class to read: one both have, or any the only one has. */
  ghost predicate HasClass(env: Env, def: IndexDef, lower: Option<Value>, upper: Option<Value>) {
    match (lower, upper)
    case (Some(l), Some(u)) =>
      exists f, g :: f in Forms(env, FoldCase(env, def, l)) && g in Forms(env, FoldCase(env, def, u)) && FormTag(f) == FormTag(g)
    case (Some(l), None) => Forms(env, FoldCase(env, def, l)) != []
    case (None, Some(u)) => Forms(env, FoldCase(env, def, u)) != []
    case (None, None) => false
  }

  /** A range read answers exactly when its bounds give a class to read. */
  lemma RangeGivesUp(env: Env, s: State, def: IndexDef, lower: Option<Value>, upper: Option<Value>)
    ensures RangeIds(env, s, def, lower, upper).Some? <==> HasClass(env, def, lower, upper)
  {
    hide EncodeCoercible;
    hide Forms;
    hide IdsOfRanges;
    match (lower, upper) {
      case (Some(l), Some(u)) => SharedClass(env, s, def, l, u);
      case (Some(l), None) => OneClass(env, FoldCase(env, def, l));
      case (None, Some(u)) => OneClass(env, FoldCase(env, def, u));
      case (None, None) =>
    }
  }

  lemma OneClass(env: Env, v: Value)
    ensures FromLow(EncodeCoercible(env, v), None) != [] <==> Forms(env, v) != []
    ensures FromHigh(EncodeCoercible(env, v)) != [] <==> Forms(env, v) != []
  {
    KeysOfForms(env, v);
    var keys := EncodeCoercible(env, v);
    if keys != [] {
      FormKeyIsEncoded(Forms(env, v)[|keys| - 1]);
    }
  }

  lemma SharedClass(env: Env, s: State, def: IndexDef, l: Value, u: Value)
    ensures RangeIds(env, s, def, Some(l), Some(u)).Some? <==> HasClass(env, def, Some(l), Some(u))
  {
    var low, high := FoldCase(env, def, l), FoldCase(env, def, u);
    var ranges := RangeClasses(env, def, Some(l), Some(u));
    hide EncodeCoercible;
    if f, g :| f in Forms(env, low) && g in Forms(env, high) && FormTag(f) == FormTag(g) {
      FormHasKey(env, low, f);
      FormOfTag(env, high, g);
      FormKeyIsEncoded(f);
      FromLowHas(EncodeCoercible(env, low), Some(EncodeCoercible(env, high)), ClassRange(FormTag(f), Some(FormKey(f)), Some(FormKey(g))));
    }
    if ranges != [] {
      var r := ranges[0];
      assert r in ranges;
      FromLowHas(EncodeCoercible(env, low), Some(EncodeCoercible(env, high)), r);
      var f := KeyHasForm(env, low, r.low.value);
      WithTagFinds(EncodeCoercible(env, high), r.tag);
      var g := KeyHasForm(env, high, r.high.value);
      FormKeyIsEncoded(f);
      FormKeyIsEncoded(g);
    }
  }

  /** A row holds, in its index values, a value in range. */
  ghost predicate HoldsInRange(env: Env, def: IndexDef, lower: Option<Value>, upper: Option<Value>, row: Value) {
    exists v, f :: v in IndexValues(env, def, row) && f in Forms(env, v) && InRange(env, def, lower, upper, f)
  }

  /** In a state that agrees with its rows, a range read returns exactly the rows
      holding a value within the bounds, compared class by class. */
  lemma RangeRefinesScan(env: Env, s: State, def: IndexDef, rows: Rows, lower: Option<Value>, upper: Option<Value>, id: Text)
    requires TwoViews(s) && Agrees(env, s, rows) && def.name in s.defs && s.defs[def.name] == def
    requires RangeIds(env, s, def, lower, upper).Some?
    ensures id in RangeIds(env, s, def, lower, upper).value
       <==> (def.collection, id) in rows && HoldsInRange(env, def, lower, upper, rows[(def.collection, id)])
  {
    hide RangeIds;
    hide InClass;
    hide InRange;
    hide RangeClasses;
    hide EncodeCoercible;
    hide TwoViews;
    RangeExact(env, s, def, lower, upper, id);
    if id in RangeIds(env, s, def, lower, upper).value {
      var r, e :| r in RangeClasses(env, def, lower, upper) && InClass(r, e) && EntryKey(def.EntryPrefix(), e, id) in s.entries;
      InClassIsEncoded(r, e);
      EntryParses(def.collection, def.name, e, id);
      assert AgreesOn(env, s, rows, EntryKey(def.EntryPrefix(), e, id));
      var v :| v in IndexValues(env, def, rows[(def.collection, id)]) && e in EncodeCoercible(env, v);
      var f := KeyHasForm(env, v, e);
      ReadIsInRange(env, def, lower, upper, r, f);
    }
    if (def.collection, id) in rows && HoldsInRange(env, def, lower, upper, rows[(def.collection, id)]) {
      var row := rows[(def.collection, id)];
      var v, f :| v in IndexValues(env, def, row) && f in Forms(env, v) && InRange(env, def, lower, upper, f);
      FormHasKey(env, v, f);
      assert FormKey(f) in EncodedValues(env, def, row);
      EncodedValuesAreEncoded(env, def, row, FormKey(f));
      EntryParses(def.collection, def.name, FormKey(f), id);
      assert AgreesOn(env, s, rows, EntryKey(def.EntryPrefix(), FormKey(f), id));
      InRangeIsRead(env, def, lower, upper, f);
    }
  }

  lemma InClassIsEncoded(r: ClassRange, e: Bytes)
    requires InClass(r, e)
    ensures IsEncoded(e)
  {
  }
}
