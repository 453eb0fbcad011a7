/** Well-formed UTF-8 as section 4 of RFC 3629 defines it. A Rust string is a
    byte string of this kind, and reading bytes back as text checks it. */
module Utf8 {
  import opened Options
  import opened ByteOrder

  predicate Tail(s: Bytes, i: nat, low: byte, high: byte) {
    i < |s| && low <= s[i] <= high
  }

  predicate AnyTail(s: Bytes, i: nat) {
    Tail(s, i, 0x80, 0xBF)
  }

  /** Length of the character at the start of `s`, or 0 when there is none. */
  function HeadLength(s: Bytes): nat
    requires s != []
  {
    var b := s[0];
    if b <= 0x7F then 1
    else if 0xC2 <= b <= 0xDF && AnyTail(s, 1) then 2
    else if b == 0xE0 && Tail(s, 1, 0xA0, 0xBF) && AnyTail(s, 2) then 3
    else if 0xE1 <= b <= 0xEC && AnyTail(s, 1) && AnyTail(s, 2) then 3
    else if b == 0xED && Tail(s, 1, 0x80, 0x9F) && AnyTail(s, 2) then 3
    else if 0xEE <= b <= 0xEF && AnyTail(s, 1) && AnyTail(s, 2) then 3
    else if b == 0xF0 && Tail(s, 1, 0x90, 0xBF) && AnyTail(s, 2) && AnyTail(s, 3) then 4
    else if 0xF1 <= b <= 0xF3 && AnyTail(s, 1) && AnyTail(s, 2) && AnyTail(s, 3) then 4
    else if b == 0xF4 && Tail(s, 1, 0x80, 0x8F) && AnyTail(s, 2) && AnyTail(s, 3) then 4
    else 0
  }

  predicate Valid(s: Bytes)
    decreases |s|
  {
    s == [] || (var n := HeadLength(s); 0 < n <= |s| && Valid(s[n..]))
  }

  type Text = s: Bytes | Valid(s)

  const U32_MAX := 0xFFFF_FFFF

  /** A collection or index name: an SQL identifier, far below the length a
      component's length prefix can state. */
  type Ident = s: Bytes | Valid(s) && |s| <= U32_MAX

  /** `std::str::from_utf8`. */
  function AsText(s: Bytes): Option<Text> {
    if Valid(s) then Some(s) else None
  }

  /** No octet of well-formed UTF-8 is above 0xF4, so none is 0xFF. */
  lemma {:induction false} OctetsBelowF5(s: Bytes, i: nat)
    requires Valid(s) && i < |s|
    ensures s[i] < 0xF5
    decreases |s|
  {
    var n := HeadLength(s);
    if i >= n {
      OctetsBelowF5(s[n..], i - n);
    }
  }

  lemma {:induction false} AsciiIsValid(s: Bytes)
    requires forall i :: 0 <= i < |s| ==> s[i] <= 0x7F
    ensures Valid(s)
    decreases |s|
  {
    if s != [] {
      AsciiIsValid(s[1..]);
    }
  }

  // ── Text is encoded characters ────────────────────────────────────────────

  /** A Unicode scalar value: a code point that is no surrogate. */
  type Scalar = c: int | 0 <= c <= 0x10FFFF && !(0xD800 <= c <= 0xDFFF)

  /** Its octets, by the table in section 3 of RFC 3629. */
  function EncodeScalar(c: Scalar): Bytes {
    if c < 0x80 then [c]
    else if c < 0x800 then [0xC0 + c / 0x40, 0x80 + c % 0x40]
    else if c < 0x10000 then [0xE0 + c / 0x1000, 0x80 + c / 0x40 % 0x40, 0x80 + c % 0x40]
    else [0xF0 + c / 0x40000, 0x80 + c / 0x1000 % 0x40, 0x80 + c / 0x40 % 0x40, 0x80 + c % 0x40]
  }

  function EncodeScalars(cs: seq<Scalar>): Bytes {
    if cs == [] then [] else EncodeScalar(cs[0]) + EncodeScalars(cs[1..])
  }

  lemma TwoLead(c: Scalar, s: Bytes)
    requires 0x80 <= c < 0x800 && EncodeScalar(c) <= s
    ensures HeadLength(s) == 2
  {
    assert s[0] == EncodeScalar(c)[0] && s[1] == EncodeScalar(c)[1];
    assert 2 <= c / 0x40 < 0x20;
  }

  lemma ThreeLead(c: Scalar, s: Bytes)
    requires 0x800 <= c < 0x10000 && EncodeScalar(c) <= s
    ensures HeadLength(s) == 3
  {
    var x, y, z := c / 0x1000, c / 0x40 % 0x40, c % 0x40;
    assert s[0] == EncodeScalar(c)[0] == 0xE0 + x && s[1] == EncodeScalar(c)[1] == 0x80 + y && s[2] == EncodeScalar(c)[2] == 0x80 + z;
    assert c == x * 0x1000 + y * 0x40 + z && x < 0x10;
    assert x == 0 ==> y >= 0x20;
    assert x == 0xD ==> y < 0x20;
  }

  /** The four groups of bits of a code point above the third range. */
  lemma FourGroups(c: int)
    requires 0x10000 <= c <= 0x10FFFF
    ensures var w, x := c / 0x40000, c / 0x1000 % 0x40;
      0 <= w <= 4 && (w == 0 ==> x >= 0x10) && (w == 4 ==> x < 0x10)
  {
    var h := c / 0x1000;
    assert 0x10 <= h <= 0x10F;
    assert c / 0x40000 == h / 0x40;
  }

  lemma FourLead(c: Scalar, s: Bytes)
    requires 0x10000 <= c && EncodeScalar(c) <= s
    ensures HeadLength(s) == 4
  {
    FourGroups(c);
    var e := EncodeScalar(c);
    assert |e| == 4 && s[0] == e[0] && s[1] == e[1] && s[2] == e[2] && s[3] == e[3];
    assert 0x80 <= e[2] <= 0xBF && 0x80 <= e[3] <= 0xBF && e[0] == 0xF0 + c / 0x40000 && e[1] == 0x80 + c / 0x1000 % 0x40;
    hide EncodeScalar;
  }

  lemma ScalarLeads(c: Scalar, rest: Bytes)
    ensures HeadLength(EncodeScalar(c) + rest) == |EncodeScalar(c)|
  {
    if c >= 0x10000 {
      FourLead(c, EncodeScalar(c) + rest);
    } else if c >= 0x800 {
      ThreeLead(c, EncodeScalar(c) + rest);
    } else if c >= 0x80 {
      TwoLead(c, EncodeScalar(c) + rest);
    }
  }

  lemma HeadIsScalar(s: Bytes) returns (c: Scalar)
    requires s != [] && HeadLength(s) > 0
    ensures HeadLength(s) <= |s| && s[..HeadLength(s)] == EncodeScalar(c)
  {
    var n := HeadLength(s);
    var a: int := s[0];
    if n == 1 {
      c := a;
    } else if n == 2 {
      var b: int := s[1];
      c := (a - 0xC0) * 0x40 + (b - 0x80);
    } else if n == 3 {
      c := ThreeIsScalar(s);
    } else {
      c := FourIsScalar(s);
    }
  }

  lemma ThreeIsScalar(s: Bytes) returns (c: Scalar)
    requires s != [] && HeadLength(s) == 3
    ensures |s| >= 3 && s[..3] == EncodeScalar(c)
  {
    var x: int, y: int, z: int := s[0] - 0xE0, s[1] - 0x80, s[2] - 0x80;
    assert 0 <= x < 0x10 && 0 <= y < 0x40 && 0 <= z < 0x40;
    assert (x == 0 ==> y >= 0x20) && (x == 0xD ==> y < 0x20);
    var v := x * 0x1000 + y * 0x40 + z;
    assert v / 0x1000 == x && v / 0x40 % 0x40 == y && v % 0x40 == z;
    c := v;
  }

  lemma Joined(w: int, x: int, y: int, z: int)
    requires 0 <= w <= 4 && 0 <= x < 0x40 && 0 <= y < 0x40 && 0 <= z < 0x40
    ensures var v := w * 0x40000 + x * 0x1000 + y * 0x40 + z;
      v / 0x40000 == w && v / 0x1000 % 0x40 == x && v / 0x40 % 0x40 == y && v % 0x40 == z
  {
    var v := w * 0x40000 + x * 0x1000 + y * 0x40 + z;
    assert v / 0x40 == w * 0x1000 + x * 0x40 + y;
    assert v / 0x1000 == w * 0x40 + x;
  }

  lemma FourIsScalar(s: Bytes) returns (c: Scalar)
    requires s != [] && HeadLength(s) == 4
    ensures |s| >= 4 && s[..4] == EncodeScalar(c)
  {
    var w: int, x: int, y: int, z: int := s[0] - 0xF0, s[1] - 0x80, s[2] - 0x80, s[3] - 0x80;
    assert 0 <= w <= 4 && 0 <= x < 0x40 && 0 <= y < 0x40 && 0 <= z < 0x40;
    assert (w == 0 ==> x >= 0x10) && (w == 4 ==> x < 0x10);
    Joined(w, x, y, z);
    hide HeadLength;
    c := w * 0x40000 + x * 0x1000 + y * 0x40 + z;
    FourOctets(c);
  }

  lemma FourOctets(c: Scalar)
    requires c >= 0x10000
    ensures EncodeScalar(c) == [0xF0 + c / 0x40000, 0x80 + c / 0x1000 % 0x40, 0x80 + c / 0x40 % 0x40, 0x80 + c % 0x40]
  {
  }

  lemma {:induction false} ScalarsAreValid(cs: seq<Scalar>)
    ensures Valid(EncodeScalars(cs))
    decreases |cs|
  {
    if cs != [] {
      var head, rest := EncodeScalar(cs[0]), EncodeScalars(cs[1..]);
      ScalarLeads(cs[0], rest);
      ScalarsAreValid(cs[1..]);
      assert (head + rest)[|head|..] == rest;
    }
  }

  lemma {:induction false} ValidIsScalars(s: Bytes) returns (cs: seq<Scalar>)
    requires Valid(s)
    ensures s == EncodeScalars(cs)
    decreases |s|
  {
    if s == [] {
      cs := [];
    } else {
      var n := HeadLength(s);
      var c := HeadIsScalar(s);
      var rest := ValidIsScalars(s[n..]);
      cs := [c] + rest;
      assert s == s[..n] + s[n..];
    }
  }

  /** The octets taken as text are exactly the encodings of characters. */
  lemma ValidIffScalars(s: Bytes)
    ensures Valid(s) <==> exists cs :: s == EncodeScalars(cs)
  {
    if Valid(s) { var cs := ValidIsScalars(s); }
    if cs :| s == EncodeScalars(cs) { ScalarsAreValid(cs); }
  }
}
