/** The stored bytes, spelled out: the layout other builds of the same format
    version read. */
module Layout {
  import opened ByteOrder
  import opened Utf8
  import opened Numbers
  import opened Key
  import Store
  import opened Views

  /** A length as its four bytes, the most significant first. */
  function Length(s: Bytes): Bytes
    requires |s| <= U32_MAX
  {
    [|s| / 0x1000000, |s| / 0x10000 % 0x100, |s| / 0x100 % 0x100, |s| % 0x100]
  }

  lemma FourBytes(n: nat)
    requires n <= U32_MAX
    ensures BigEndian(n, 4) == [n / 0x1000000, n / 0x10000 % 0x100, n / 0x100 % 0x100, n % 0x100]
  {
    assert BigEndian(n / 0x1000000, 1) == [] + [n / 0x1000000 % 0x100];
    assert n / 0x100 / 0x100 == n / 0x10000 && n / 0x10000 / 0x100 == n / 0x1000000;
    assert BigEndian(n / 0x10000, 2) == BigEndian(n / 0x1000000, 1) + [n / 0x10000 % 0x100];
    assert BigEndian(n / 0x100, 3) == BigEndian(n / 0x10000, 2) + [n / 0x100 % 0x100];
  }

  /** Where the format, a definition and an entry are stored. */
  lemma KeyLayout(collection: Ident, name: Ident, encoded: Bytes, docId: Text)
    ensures FormatKey() == [0xFF, 0x69, 0x64, 0x78, 0x03]
    ensures DefKey(collection, name)
         == [0xFF, 0x69, 0x64, 0x78, 0x02] + Length(collection) + collection + Length(name) + name
    ensures EntryKey(IndexPrefix(collection, name), encoded, docId)
         == [0xFF, 0x69, 0x64, 0x78, 0x01] + Length(collection) + collection + Length(name) + name + encoded + docId
  {
    hide BigEndian;
    hide Length;
    hide Valid;
    ComponentLayout(collection);
    ComponentLayout(name);
    hide Component;
    assert EntriesPrefix() == [0xFF, 0x69, 0x64, 0x78, 0x01] && DefsPrefix() == [0xFF, 0x69, 0x64, 0x78, 0x02];
    hide Key.EntriesPrefix;
    hide Key.DefsPrefix;
    var (c, n) := (Length(collection) + collection, Length(name) + name);
    assert DefKey(collection, name) == DefsPrefix() + c + n;
    assert EntryKey(IndexPrefix(collection, name), encoded, docId) == EntriesPrefix() + c + n + encoded + docId;
  }

  lemma ComponentLayout(name: Ident)
    ensures Component(name) == Length(name) + name
  {
    FourBytes(|name|);
  }

  /** A store is of this format exactly when its format key says version 1. */
  lemma FormatLayout(cells: Store.Cells)
    ensures IsCurrent(cells)
       <==> [0xFF, 0x69, 0x64, 0x78, 0x03] in cells && cells[[0xFF, 0x69, 0x64, 0x78, 0x03]] == Store.FormatCell(1)
  {
    assert FormatKey() == [0xFF, 0x69, 0x64, 0x78, 0x03];
  }

  /** The class a value is in leads its bytes. */
  lemma ValueLayout(b: bool, f: Double, t: Micros, payload: Bytes)
    ensures BoolKey(b) == [0x10, if b then 1 else 0]
    ensures |NumberKey(f)| == 9 && NumberKey(f)[0] == 0x20 && NumberKey(f)[1..] == NumberBytes(f)
    ensures |MomentKey(t)| == 9 && MomentKey(t)[0] == 0x30 && MomentKey(t)[1..] == MomentBytes(t)
    ensures Escaped(TAG_STRING, payload) == [0x40] + Escape(payload) + [0x00, 0x01]
    ensures Escaped(TAG_OTHER, payload) == [0x50] + Escape(payload) + [0x00, 0x01]
  {
  }

  /** In a payload a zero is followed by 0xFF and other bytes stand for
      themselves. */
  lemma {:induction false} EscapeLayout(plain: Bytes, rest: Bytes)
    requires 0x00 !in plain
    ensures Escape(plain + [0x00] + rest) == plain + [0x00, 0xFF] + Escape(rest)
    ensures Escape(plain) == plain
    decreases |plain|
  {
    var whole := plain + [0x00] + rest;
    if plain == [] {
      assert whole == [0x00] + rest && whole[1..] == rest;
      assert [] + [0x00, 0xFF] + Escape(rest) == [0x00, 0xFF] + Escape(rest);
    } else {
      assert whole[0] == plain[0] && plain[0] in plain && whole[1..] == plain[1..] + [0x00] + rest;
      EscapeLayout(plain[1..], rest);
      assert [plain[0]] + (plain[1..] + [0x00, 0xFF] + Escape(rest)) == plain + [0x00, 0xFF] + Escape(rest);
      assert [plain[0]] + plain[1..] == plain;
    }
  }

  /** A document id made of a key: the digits of each byte, lowercase. */
  lemma {:induction false} HexLayout(key: Bytes, i: nat)
    requires i < |key|
    ensures |DocIdOfKey(key)| == 2 * |key|
    ensures DocIdOfKey(key)[2 * i] == "0123456789abcdef"[key[i] / 16] as int
    ensures DocIdOfKey(key)[2 * i + 1] == "0123456789abcdef"[key[i] % 16] as int
    decreases |key|
  {
    HexDigits(key[0] / 16);
    HexDigits(key[0] % 16);
    if |key| == 1 {
      assert DocIdOfKey(key[1..]) == [];
    } else {
      HexLayout(key[1..], if i > 0 then i - 1 else 0);
    }
  }

  lemma HexDigits(n: nat)
    requires n < 16
    ensures HexDigit(n) == "0123456789abcdef"[n] as int
  {
  }
}
