/** Storage keys of the index catalog and the value encoding entries sort by. */
module Key {
  import opened Options
  import opened ByteOrder
  import opened Utf8
  import opened Numbers

  const ROOT: Bytes := [0xFF, 0x69, 0x64, 0x78]
  const ENTRY: byte := 0x01
  const DEF: byte := 0x02
  const FORMAT: byte := 0x03

  const TAG_BOOL: byte := 0x10
  const TAG_NUMBER: byte := 0x20
  const TAG_DATETIME: byte := 0x30
  const TAG_STRING: byte := 0x40
  const TAG_OTHER: byte := 0x50

  const TERMINATOR: Bytes := [0x00, 0x01]
  const ESCAPED_ZERO: Bytes := [0x00, 0xFF]

  // ── Key layout ────────────────────────────────────────────────────────────

  function FormatKey(): Bytes {
    ROOT + [FORMAT]
  }

  function DefsPrefix(): Bytes {
    ROOT + [DEF]
  }

  function EntriesPrefix(): Bytes {
    ROOT + [ENTRY]
  }

  function Component(component: Bytes): Bytes {
    BigEndian(if |component| <= U32_MAX then |component| else U32_MAX, 4) + component
  }

  function DefKey(collection: Ident, name: Ident): Bytes {
    DefsPrefix() + Component(collection) + Component(name)
  }

  function CollectionPrefix(collection: Ident): Bytes {
    EntriesPrefix() + Component(collection)
  }

  function IndexPrefix(collection: Ident, name: Ident): Bytes {
    CollectionPrefix(collection) + Component(name)
  }

  function EntryKey(indexPrefix: Bytes, encoded: Bytes, docId: Text): Bytes {
    indexPrefix + encoded + docId
  }

  function StripPrefix(key: Bytes, prefix: Bytes): Option<Bytes> {
    if prefix <= key then Some(key[|prefix|..]) else None
  }

  function ReadComponent(s: Bytes): Option<(Ident, Bytes)> {
    if |s| < 4 then None
    else
      var end := 4 + FromBigEndian(s[..4]);
      if end > |s| then None
      else
        BigEndianBelow(s[..4]);
        if Valid(s[4..end]) then Some((s[4..end], s[end..])) else None
  }

  /** The parts of an entry key. */
  datatype ParsedEntry = ParsedEntry(collection: Ident, index: Ident, value: Bytes, docId: Text)

  function ParseEntry(key: Bytes): Option<ParsedEntry> {
    match StripPrefix(key, EntriesPrefix())
    case None => None
    case Some(rest) =>
      match ReadComponent(rest)
      case None => None
      case Some((collection, rest)) =>
        match ReadComponent(rest)
        case None => None
        case Some((index, rest)) => ParseValue(collection, index, rest)
  }

  function ParseValue(collection: Ident, index: Ident, rest: Bytes): Option<ParsedEntry> {
    match EncodedLen(rest)
    case None => None
    case Some(n) =>
      match AsText(rest[n..])
      case None => None
      case Some(docId) => Some(ParsedEntry(collection, index, rest[..n], docId))
  }

  /** The document an entry under `indexPrefix` belongs to. */
  function EntryDocId(key: Bytes, indexPrefix: Bytes): Option<Text> {
    match StripPrefix(key, indexPrefix)
    case None => None
    case Some(rest) =>
      match EncodedLen(rest)
      case None => None
      case Some(n) => AsText(rest[n..])
  }

  // ── Value encoding ────────────────────────────────────────────────────────

  function Escape(payload: Bytes): Bytes {
    if payload == [] then []
    else (if payload[0] == 0x00 then ESCAPED_ZERO else [payload[0]]) + Escape(payload[1..])
  }

  function Escaped(tag: byte, payload: Bytes): Bytes {
    [tag] + (Escape(payload) + TERMINATOR)
  }

  function BoolKey(b: bool): Bytes {
    [TAG_BOOL, if b then 1 else 0]
  }

  function NumberKey(f: Double): Bytes {
    [TAG_NUMBER] + NumberBytes(f)
  }

  function MomentKey(micros: Micros): Bytes {
    [TAG_DATETIME] + MomentBytes(micros)
  }

  /** Where the payload scanned from `i` ends, terminator included. */
  function ScanEnd(s: Bytes, i: nat): (end: Option<nat>)
    ensures end.Some? ==> i < end.value <= |s|
    decreases |s| - i
  {
    if i + 1 >= |s| then None
    else if s[i] != 0x00 then ScanEnd(s, i + 1)
    else if s[i + 1] == 0x01 then Some(i + 2)
    else if s[i + 1] == 0xFF then ScanEnd(s, i + 2)
    else None
  }

  /** Where the leading value of `s` ends, if it starts with one. */
  function EncodedLen(s: Bytes): (n: Option<nat>)
    ensures n.Some? ==> 0 < n.value <= |s|
  {
    if s == [] then None
    else if s[0] == TAG_BOOL then (if |s| >= 2 then Some(2) else None)
    else if s[0] == TAG_NUMBER || s[0] == TAG_DATETIME then (if |s| >= 9 then Some(9) else None)
    else if s[0] == TAG_STRING || s[0] == TAG_OTHER then ScanEnd(s, 1)
    else None
  }

  /** `s` is one encoded value and nothing else. */
  predicate IsEncoded(s: Bytes) {
    EncodedLen(s) == Some(|s|)
  }

  method EncodeEscaped(tag: byte, payload: Bytes) returns (out: Bytes)
    ensures out == Escaped(tag, payload)
  {
    out := [tag];
    for k := 0 to |payload|
      invariant out + (Escape(payload[k..]) + TERMINATOR) == Escaped(tag, payload)
    {
      var b := payload[k];
      assert payload[k..][0] == b && payload[k..][1..] == payload[k + 1..];
      var step := if b == 0x00 then ESCAPED_ZERO else [b];
      assert out + (Escape(payload[k..]) + TERMINATOR)
        == (out + step) + (Escape(payload[k + 1..]) + TERMINATOR);
      out := out + step;
    }
    assert payload[|payload|..] == [];
    out := out + TERMINATOR;
  }

  method EncodedLength(s: Bytes) returns (n: Option<nat>)
    ensures n == EncodedLen(s)
  {
    if s == [] {
      return None;
    }
    if s[0] == TAG_BOOL {
      return if |s| >= 2 then Some(2) else None;
    }
    if s[0] == TAG_NUMBER || s[0] == TAG_DATETIME {
      return if |s| >= 9 then Some(9) else None;
    }
    if s[0] != TAG_STRING && s[0] != TAG_OTHER {
      return None;
    }
    var i := 1;
    while i + 1 < |s|
      invariant 1 <= i
      invariant ScanEnd(s, i) == ScanEnd(s, 1)
    {
      if s[i] == 0x00 {
        if s[i + 1] == 0x01 {
          return Some(i + 2);
        } else if s[i + 1] == 0xFF {
          i := i + 2;
        } else {
          return None;
        }
      } else {
        i := i + 1;
      }
    }
    return None;
  }

  // ── Document ids of rows keyed by bytes ───────────────────────────────────

  function HexDigit(n: nat): byte
    requires n < 16
  {
    if n < 10 then 0x30 + n else 0x61 + (n - 10)
  }

  function Nibble(c: byte): Option<nat> {
    if 0x30 <= c <= 0x39 then Some(c - 0x30)
    else if 0x61 <= c <= 0x66 then Some(c - 0x61 + 10)
    else None
  }

  /** Lowercase hex of the key bytes. */
  function DocIdOfKey(key: Bytes): Bytes {
    if key == [] then []
    else [HexDigit(key[0] / 16), HexDigit(key[0] % 16)] + DocIdOfKey(key[1..])
  }

  function KeyOfDocId(id: Bytes): Option<Bytes>
    decreases |id|
  {
    if id == [] then Some([])
    else if |id| == 1 then None
    else
      match (Nibble(id[0]), Nibble(id[1]), KeyOfDocId(id[2..]))
      case (Some(high), Some(low), Some(rest)) =>
        NibbleBelow16(id[0]);
        NibbleBelow16(id[1]);
        Some([high * 16 + low] + rest)
      case _ => None
  }

  lemma NibbleBelow16(c: byte)
    ensures Nibble(c).Some? ==> Nibble(c).value < 16 && HexDigit(Nibble(c).value) == c
  {
  }

  method HexDocId(key: Bytes) returns (id: Bytes)
    ensures id == DocIdOfKey(key)
    ensures Valid(id)
  {
    id := [];
    for k := 0 to |key|
      invariant id + DocIdOfKey(key[k..]) == DocIdOfKey(key)
    {
      assert key[k..][0] == key[k] && key[k..][1..] == key[k + 1..];
      var pair := [HexDigit(key[k] / 16), HexDigit(key[k] % 16)];
      assert id + DocIdOfKey(key[k..]) == (id + pair) + DocIdOfKey(key[k + 1..]);
      id := id + pair;
    }
    assert key[|key|..] == [];
    assert id == DocIdOfKey(key);
    DocIdIsAscii(key);
    AsciiIsValid(id);
  }

  lemma {:induction false} DocIdIsAscii(key: Bytes)
    ensures forall i :: 0 <= i < |DocIdOfKey(key)| ==> DocIdOfKey(key)[i] <= 0x7F
  {
    if key != [] {
      DocIdIsAscii(key[1..]);
    }
  }

  /** The hex id gives back its key bytes. */
  lemma {:induction false} KeyOfDocIdInverts(key: Bytes)
    ensures KeyOfDocId(DocIdOfKey(key)) == Some(key)
  {
    if key != [] {
      KeyOfDocIdInverts(key[1..]);
      assert DocIdOfKey(key)[2..] == DocIdOfKey(key[1..]);
      assert key == [key[0]] + key[1..];
    }
  }

  /** And only the hex id of a key reads back as that key. */
  lemma {:induction false} DocIdOfKeyInverts(id: Bytes)
    ensures KeyOfDocId(id).Some? ==> DocIdOfKey(KeyOfDocId(id).value) == id
    decreases |id|
  {
    if |id| >= 2 && KeyOfDocId(id).Some? {
      DocIdOfKeyInverts(id[2..]);
      NibbleBelow16(id[0]);
      NibbleBelow16(id[1]);
      var key := KeyOfDocId(id).value;
      assert key[1..] == KeyOfDocId(id[2..]).value;
      assert id == [id[0], id[1]] + id[2..];
    }
  }

  // ── The value encoding is self-delimiting ─────────────────────────────────

  lemma {:induction false} ScanEndExtends(s: Bytes, i: nat, more: Bytes)
    requires ScanEnd(s, i).Some?
    ensures ScanEnd(s + more, i) == ScanEnd(s, i)
    decreases |s| - i
  {
    assert (s + more)[i] == s[i] && (s + more)[i + 1] == s[i + 1];
    if s[i] != 0x00 {
      ScanEndExtends(s, i + 1, more);
    } else if s[i + 1] == 0xFF {
      ScanEndExtends(s, i + 2, more);
    }
  }

  lemma {:induction false} ScanEndTruncates(s: Bytes, i: nat)
    requires ScanEnd(s, i).Some?
    ensures ScanEnd(s[..ScanEnd(s, i).value], i) == ScanEnd(s, i)
    decreases |s| - i
  {
    if s[i] != 0x00 {
      ScanEndTruncates(s, i + 1);
    } else if s[i + 1] == 0xFF {
      ScanEndTruncates(s, i + 2);
    }
  }

  /** An encoded value's length is read back whatever follows it. */
  lemma SelfDelimiting(encoded: Bytes, more: Bytes)
    requires IsEncoded(encoded)
    ensures EncodedLen(encoded + more) == Some(|encoded|)
  {
    assert (encoded + more)[0] == encoded[0];
    if encoded[0] == TAG_STRING || encoded[0] == TAG_OTHER {
      ScanEndExtends(encoded, 1, more);
    }
  }

  lemma LeadingValueIsEncoded(s: Bytes)
    requires EncodedLen(s).Some?
    ensures IsEncoded(s[..EncodedLen(s).value])
  {
    if s[0] == TAG_STRING || s[0] == TAG_OTHER {
      ScanEndTruncates(s, 1);
    }
  }

  /** Encoded values are prefix-free: what follows cannot blur two of them. */
  lemma EncodedSplitsUniquely(a: Bytes, x: Bytes, b: Bytes, y: Bytes)
    requires IsEncoded(a) && IsEncoded(b) && a + x == b + y
    ensures a == b && x == y
  {
    SelfDelimiting(a, x);
    SelfDelimiting(b, y);
    assert a == (a + x)[..|a|] && b == (b + y)[..|b|];
    assert x == (a + x)[|a|..] && y == (b + y)[|b|..];
  }

  lemma {:induction false} EscapeScans(pre: Bytes, payload: Bytes)
    ensures ScanEnd(pre + (Escape(payload) + TERMINATOR), |pre|)
         == Some(|pre| + |Escape(payload)| + 2)
    decreases |payload|
  {
    var s := pre + (Escape(payload) + TERMINATOR);
    if payload == [] {
      assert s[|pre|] == 0x00 && s[|pre| + 1] == 0x01;
    } else {
      var step := if payload[0] == 0x00 then ESCAPED_ZERO else [payload[0]];
      EscapeScans(pre + step, payload[1..]);
      assert s == (pre + step) + (Escape(payload[1..]) + TERMINATOR);
      assert s[|pre|] == step[0];
      assert payload[0] == 0x00 ==> s[|pre| + 1] == 0xFF;
    }
  }

  lemma EscapedIsEncoded(tag: byte, payload: Bytes)
    requires tag == TAG_STRING || tag == TAG_OTHER
    ensures IsEncoded(Escaped(tag, payload))
  {
    EscapeScans([tag], payload);
  }

  lemma TerminatorLeads(q: Bytes)
    ensures Less(TERMINATOR, Escape(q) + TERMINATOR) <==> q != []
    ensures Less(Escape(q) + TERMINATOR, TERMINATOR) <==> false
    ensures Escape([]) + TERMINATOR == TERMINATOR
  {
    var y := Escape(q) + TERMINATOR;
    if q == [] {
      Trichotomy(y, TERMINATOR);
    } else if q[0] == 0x00 {
      assert y[0] == 0x00 && y[1..][0] == 0xFF;
    }
  }

  /** Escaped payloads sort as the payloads do, a prefix before its extensions. */
  lemma {:induction false} EscapeOrder(p: Bytes, q: Bytes)
    ensures Less(Escape(p) + TERMINATOR, Escape(q) + TERMINATOR) <==> Less(p, q)
    decreases |p|
  {
    var x, y := Escape(p) + TERMINATOR, Escape(q) + TERMINATOR;
    if p == [] || q == [] {
      TerminatorLeads(p);
      TerminatorLeads(q);
    } else {
      var a := if p[0] == 0x00 then ESCAPED_ZERO else [p[0]];
      var b := if q[0] == 0x00 then ESCAPED_ZERO else [q[0]];
      var m, n := Escape(p[1..]) + TERMINATOR, Escape(q[1..]) + TERMINATOR;
      assert x == a + m && y == b + n;
      EscapeOrder(p[1..], q[1..]);
      if p[0] == q[0] {
        CommonPrefix(a, m, n);
      }
    }
  }

  lemma EscapedOrder(tag: byte, p: Bytes, q: Bytes)
    ensures Less(Escaped(tag, p), Escaped(tag, q)) <==> Less(p, q)
    ensures Escaped(tag, p) == Escaped(tag, q) <==> p == q
  {
    EscapeOrder(p, q);
    EscapeOrder(q, p);
    CommonPrefix([tag], Escape(p) + TERMINATOR, Escape(q) + TERMINATOR);
    CommonPrefix([tag], Escape(q) + TERMINATOR, Escape(p) + TERMINATOR);
    Trichotomy(p, q);
    Trichotomy(Escaped(tag, p), Escaped(tag, q));
  }

  // ── Keys parse back ───────────────────────────────────────────────────────

  lemma {:induction false} BigEndianBelow(s: Bytes)
    ensures FromBigEndian(s) < Pow256(|s|)
    ensures BigEndian(FromBigEndian(s), |s|) == s
    ensures |s| == 4 ==> FromBigEndian(s) <= U32_MAX
  {
    if s != [] {
      BigEndianBelow(s[..|s| - 1]);
      assert s == s[..|s| - 1] + [s[|s| - 1]];
    }
    WordWidth();
  }

  /** A component reads back exactly when its length fits the length prefix. */
  lemma ComponentReadsBack(component: Text, rest: Bytes)
    ensures ReadComponent(Component(component) + rest) == Some((component, rest))
       <==> |component| <= U32_MAX
  {
    var s := Component(component) + rest;
    var stated := if |component| <= U32_MAX then |component| else U32_MAX;
    WordWidth();
    BigEndianRoundTrip(stated, 4);
    assert s[..4] == BigEndian(stated, 4);
    assert s[4..4 + |component|] == component && s[4 + |component|..] == rest;
  }

  lemma ComponentSplits(s: Bytes)
    requires ReadComponent(s).Some?
    ensures var (component, rest) := ReadComponent(s).value; s == Component(component) + rest
  {
    BigEndianBelow(s[..4]);
    var end := 4 + FromBigEndian(s[..4]);
    assert s == s[..4] + s[4..end] + s[end..];
  }

  lemma PrefixStrips(prefix: Bytes, rest: Bytes)
    ensures StripPrefix(prefix + rest, prefix) == Some(rest)
  {
    assert (prefix + rest)[|prefix|..] == rest;
  }

  lemma Regrouped(a: Bytes, b: Bytes, c: Bytes, d: Bytes)
    ensures ((a + b) + c) + d == a + (b + (c + d))
  {
  }

  /** What follows an index's prefix is all the parser has left to read. */
  lemma PrefixParses(collection: Ident, index: Ident, tail: Bytes)
    ensures ParseEntry(IndexPrefix(collection, index) + tail) == ParseValue(collection, index, tail)
  {
    Regrouped(EntriesPrefix(), Component(collection), Component(index), tail);
    PrefixStrips(EntriesPrefix(), Component(collection) + (Component(index) + tail));
    ComponentReadsBack(collection, Component(index) + tail);
    ComponentReadsBack(index, tail);
  }

  /** No key lies under the prefixes of two indexes. */
  lemma PrefixesApart(key: Bytes, c1: Ident, n1: Ident, c2: Ident, n2: Ident)
    requires StartsWith(key, IndexPrefix(c1, n1)) && StartsWith(key, IndexPrefix(c2, n2))
    ensures c1 == c2 && n1 == n2
  {
    var r1, r2 := HeadersUnder(key, c1, n1), HeadersUnder(key, c2, n2);
  }

  ghost function HeadersUnder(key: Bytes, collection: Ident, index: Ident): (r: Bytes)
    requires StartsWith(key, IndexPrefix(collection, index))
    ensures StripPrefix(key, EntriesPrefix()) == Some(Component(collection) + (Component(index) + r))
    ensures ReadComponent(Component(collection) + (Component(index) + r)) == Some((collection, Component(index) + r))
    ensures ReadComponent(Component(index) + r) == Some((index, r))
  {
    var r := key[|IndexPrefix(collection, index)|..];
    assert key == IndexPrefix(collection, index) + r;
    Regrouped(EntriesPrefix(), Component(collection), Component(index), r);
    PrefixStrips(EntriesPrefix(), Component(collection) + (Component(index) + r));
    ComponentReadsBack(collection, Component(index) + r);
    ComponentReadsBack(index, r);
    r
  }

  lemma ValueParses(collection: Ident, index: Ident, encoded: Bytes, docId: Text)
    requires IsEncoded(encoded)
    ensures ParseValue(collection, index, encoded + docId)
         == Some(ParsedEntry(collection, index, encoded, docId))
  {
    var tail := encoded + docId;
    SelfDelimiting(encoded, docId);
    assert tail[..|encoded|] == encoded && tail[|encoded|..] == docId;
  }

  lemma EntryKeySplits(prefix: Bytes, encoded: Bytes, docId: Text)
    ensures EntryKey(prefix, encoded, docId) == prefix + (encoded + docId)
  {
  }

  /** Every entry key parses back to the parts it was made from. */
  lemma EntryParses(collection: Ident, index: Ident, encoded: Bytes, docId: Text)
    requires IsEncoded(encoded)
    ensures ParseEntry(EntryKey(IndexPrefix(collection, index), encoded, docId))
         == Some(ParsedEntry(collection, index, encoded, docId))
  {
    EntryKeySplits(IndexPrefix(collection, index), encoded, docId);
    PrefixParses(collection, index, encoded + docId);
    ValueParses(collection, index, encoded, docId);
  }

  /** The reader that knows the index finds the same document id. */
  lemma EntryDocIdReads(prefix: Bytes, encoded: Bytes, docId: Text)
    requires IsEncoded(encoded)
    ensures EntryDocId(EntryKey(prefix, encoded, docId), prefix) == Some(docId)
  {
    EntryKeySplits(prefix, encoded, docId);
    PrefixStrips(prefix, encoded + docId);
    SelfDelimiting(encoded, docId);
    assert (encoded + docId)[|encoded|..] == docId;
  }

  lemma HeadersSplit(key: Bytes) returns (collection: Ident, index: Ident, tail: Bytes)
    requires ParseEntry(key).Some?
    ensures key == IndexPrefix(collection, index) + tail
    ensures ParseEntry(key) == ParseValue(collection, index, tail)
  {
    var r0 := StripPrefix(key, EntriesPrefix()).value;
    ComponentSplits(r0);
    var r1 := ReadComponent(r0).value.1;
    ComponentSplits(r1);
    collection, index, tail := ReadComponent(r0).value.0, ReadComponent(r1).value.0, ReadComponent(r1).value.1;
    assert key == EntriesPrefix() + r0;
    Regrouped(EntriesPrefix(), Component(collection), Component(index), tail);
  }

  /** And a key that parses is the entry key of its parts. */
  lemma ParsedRebuilds(key: Bytes)
    requires ParseEntry(key).Some?
    ensures var p := ParseEntry(key).value;
      IsEncoded(p.value) && key == EntryKey(IndexPrefix(p.collection, p.index), p.value, p.docId)
  {
    var collection, index, tail := HeadersSplit(key);
    hide ParseEntry;
    hide ParseValue;
    hide IndexPrefix;
    hide IsEncoded;
    ValueSplits(collection, index, tail);
    var p := ParseEntry(key).value;
    EntryKeySplits(IndexPrefix(collection, index), p.value, p.docId);
  }

  lemma ValueSplits(collection: Ident, index: Ident, tail: Bytes)
    requires ParseValue(collection, index, tail).Some?
    ensures var p := ParseValue(collection, index, tail).value;
      p.collection == collection && p.index == index && IsEncoded(p.value) && tail == p.value + p.docId
  {
    LeadingValueIsEncoded(tail);
    hide IsEncoded;
  }

  /** An entry lies under one index's prefix exactly when it names that index. */
  lemma UnderOwnPrefixOnly(key: Bytes, collection: Ident, index: Ident)
    requires ParseEntry(key).Some?
    ensures StartsWith(key, IndexPrefix(collection, index))
       <==> ParseEntry(key).value.collection == collection && ParseEntry(key).value.index == index
  {
    var prefix := IndexPrefix(collection, index);
    if StartsWith(key, prefix) {
      assert key == prefix + key[|prefix|..];
      PrefixParses(collection, index, key[|prefix|..]);
    }
    var c, n, tail := HeadersSplit(key);
  }

  // ── Definition keys ───────────────────────────────────────────────────────

  /** The collection and index name a definition key names. */
  function ParseDef(key: Bytes): Option<(Ident, Ident)> {
    match StripPrefix(key, DefsPrefix())
    case None => None
    case Some(rest) =>
      match ReadComponent(rest)
      case None => None
      case Some((collection, rest)) =>
        match ReadComponent(rest)
        case None => None
        case Some((name, rest)) => if rest == [] then Some((collection, name)) else None
  }

  lemma DefParses(collection: Ident, name: Ident)
    ensures ParseDef(DefKey(collection, name)) == Some((collection, name))
  {
    assert DefKey(collection, name) == DefsPrefix() + (Component(collection) + (Component(name) + []));
    PrefixStrips(DefsPrefix(), Component(collection) + (Component(name) + []));
    ComponentReadsBack(collection, Component(name) + []);
    ComponentReadsBack(name, []);
  }

  lemma ParsedDefRebuilds(key: Bytes)
    requires ParseDef(key).Some?
    ensures key == DefKey(ParseDef(key).value.0, ParseDef(key).value.1)
  {
    hide ReadComponent;
    hide Component;
    var r0 := StripPrefix(key, DefsPrefix()).value;
    ComponentSplits(r0);
    var r1 := ReadComponent(r0).value.1;
    ComponentSplits(r1);
    assert key == DefsPrefix() + r0;
    hide DefsPrefix;
    var (collection, name) := (ReadComponent(r0).value.0, ReadComponent(r1).value.0);
    assert r1 == Component(name) + [];
    Regrouped(DefsPrefix(), Component(collection), Component(name), []);
  }

  /** Entry keys, definition keys and the format key are three kinds. */
  lemma KindsAreDisjoint(key: Bytes)
    ensures !(ParseEntry(key).Some? && ParseDef(key).Some?)
    ensures ParseEntry(FormatKey()) == None && ParseDef(FormatKey()) == None
  {
    assert EntriesPrefix()[4] == ENTRY && DefsPrefix()[4] == DEF && FormatKey()[4] == FORMAT;
    if EntriesPrefix() <= key { assert key[4] == ENTRY; }
    if DefsPrefix() <= key { assert key[4] == DEF; }
  }
}
