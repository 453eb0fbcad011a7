/** Byte strings in the order an ordered set of keys keeps them: lexicographic
    comparison, ordered enumeration, and the prefix scan built on both. */
module ByteOrder {

  type byte = x: int | 0 <= x < 256

  type Bytes = seq<byte>

  /** `a` sorts strictly before `b`. */
  predicate Less(a: Bytes, b: Bytes)
    decreases |a|
  {
    b != [] && (a == [] || a[0] < b[0] || (a[0] == b[0] && Less(a[1..], b[1..])))
  }

  predicate AtMost(a: Bytes, b: Bytes) {
    a == b || Less(a, b)
  }

  predicate StartsWith(key: Bytes, prefix: Bytes) {
    prefix <= key
  }

  lemma {:induction false} Trichotomy(a: Bytes, b: Bytes)
    ensures Less(a, b) || a == b || Less(b, a)
    ensures !(Less(a, b) && Less(b, a))
    ensures !Less(a, a)
    decreases |a|
  {
    if a != [] {
      Trichotomy(a[1..], if b == [] then [] else b[1..]);
      if b != [] && a[0] == b[0] && a[1..] == b[1..] {
        assert a == [a[0]] + a[1..] && b == [b[0]] + b[1..];
      }
    }
  }

  lemma {:induction false} Transitive(a: Bytes, b: Bytes, c: Bytes)
    requires Less(a, b) && Less(b, c)
    ensures Less(a, c)
    decreases |a|
  {
    if a != [] && a[0] == b[0] && b[0] == c[0] {
      Transitive(a[1..], b[1..], c[1..]);
    }
  }

  /** Comparing under a shared prefix is comparing what follows it. */
  lemma {:induction false} CommonPrefix(p: Bytes, a: Bytes, b: Bytes)
    ensures Less(p + a, p + b) <==> Less(a, b)
    decreases |p|
  {
    if p == [] {
      assert p + a == a && p + b == b;
    } else {
      assert (p + a)[1..] == p[1..] + a && (p + b)[1..] == p[1..] + b;
      CommonPrefix(p[1..], a, b);
    }
  }

  /** The first difference decides, whatever follows it. */
  lemma {:induction false} DecidedEarly(a: Bytes, b: Bytes, x: Bytes, y: Bytes)
    requires Less(a, b) && !(a <= b)
    ensures Less(a + x, b + y)
    decreases |a|
  {
    assert a != [];
    assert (a + x)[1..] == a[1..] + x && (b + y)[1..] == b[1..] + y;
    if a[0] == b[0] {
      assert a == [a[0]] + a[1..] && b == [b[0]] + b[1..];
      DecidedEarly(a[1..], b[1..], x, y);
    }
  }

  lemma {:induction false} PrefixSortsFirst(p: Bytes, x: Bytes)
    ensures AtMost(p, p + x)
  {
    CommonPrefix(p, [], x);
    assert p + [] == p;
    if x == [] {
      assert p + x == p;
    }
  }

  /** Whatever sorts between two keys under one prefix is under that prefix. */
  lemma {:induction false} Squeezed(p: Bytes, x: Bytes, k: Bytes, y: Bytes)
    requires AtMost(p + x, k) && AtMost(k, p + y)
    ensures p <= k
    decreases |p|
  {
    if p != [] {
      assert (p + x)[1..] == p[1..] + x && (p + y)[1..] == p[1..] + y;
      assert (p + x)[0] == p[0] && (p + y)[0] == p[0];
      assert k != [] && k[0] == p[0];
      assert k == [k[0]] + k[1..] && p == [p[0]] + p[1..];
      Squeezed(p[1..], x, k[1..], y);
    }
  }

  // ── Ordered enumeration of a set ──────────────────────────────────────────

  predicate IsLeast(m: Bytes, s: set<Bytes>) {
    m in s && forall k :: k in s ==> AtMost(m, k)
  }

  lemma {:induction false} LeastExists(s: set<Bytes>) returns (m: Bytes)
    requires s != {}
    ensures IsLeast(m, s)
    decreases |s|
  {
    m :| m in s;
    var rest := s - {m};
    if rest != {} {
      var n := LeastExists(rest);
      Trichotomy(m, n);
      var low := if Less(n, m) then n else m;
      forall k | k in s ensures AtMost(low, k) {
        if k == m {
        } else {
          assert k in rest;
          if low == m && n != k { Transitive(m, n, k); }
        }
      }
      m := low;
    }
  }

  lemma LeastIsUnique(s: set<Bytes>)
    requires s != {}
    ensures exists m :: IsLeast(m, s)
    ensures forall m, n :: IsLeast(m, s) && IsLeast(n, s) ==> m == n
  {
    var least := LeastExists(s);
    forall m, n | IsLeast(m, s) && IsLeast(n, s) ensures m == n {
      Trichotomy(m, n);
    }
  }

  function Least(s: set<Bytes>): (m: Bytes)
    requires s != {}
    ensures IsLeast(m, s)
  {
    LeastIsUnique(s);
    var m :| m in s && IsLeast(m, s);
    m
  }

  ghost predicate Ascends(keys: seq<Bytes>) {
    forall i, j :: 0 <= i < j < |keys| ==> Less(keys[i], keys[j])
  }

  /** The keys of `s` in the order an ordered set visits them. */
  function Ascending(s: set<Bytes>): (keys: seq<Bytes>)
    ensures forall k :: k in keys <==> k in s
    ensures Ascends(keys)
    ensures |keys| == |s|
    decreases |s|
  {
    if s == {} then []
    else
      var m := Least(s);
      var rest := Ascending(s - {m});
      LeastLeads(m, s, rest);
      [m] + rest
  }

  lemma LeastLeads(m: Bytes, s: set<Bytes>, rest: seq<Bytes>)
    requires IsLeast(m, s) && Ascends(rest)
    requires forall k :: k in rest <==> k in s - {m}
    ensures Ascends([m] + rest)
    ensures forall k :: k in [m] + rest <==> k in s
  {
    var keys := [m] + rest;
    forall i, j | 0 <= i < j < |keys| ensures Less(keys[i], keys[j]) {
      assert keys[j] == rest[j - 1] && rest[j - 1] in rest;
      if i > 0 { assert keys[i] == rest[i - 1]; }
    }
  }

  /** An ascending listing is determined by its members. */
  lemma {:induction false} AscendingIsUnique(a: seq<Bytes>, b: seq<Bytes>)
    requires Ascends(a) && Ascends(b)
    requires forall k :: k in a <==> k in b
    ensures a == b
    decreases |a|
  {
    if a == [] {
      assert forall i :: 0 <= i < |b| ==> b[i] in b;
    } else {
      assert a[0] in a;
      assert b[0] in b;
      HeadIsLeast(a, b[0]);
      HeadIsLeast(b, a[0]);
      Trichotomy(a[0], b[0]);
      TailMembers(a);
      TailMembers(b);
      AscendingIsUnique(a[1..], b[1..]);
      assert a == [a[0]] + a[1..] && b == [b[0]] + b[1..];
    }
  }

  lemma HeadIsLeast(a: seq<Bytes>, k: Bytes)
    requires Ascends(a) && k in a
    ensures AtMost(a[0], k)
  {
  }

  lemma TailMembers(a: seq<Bytes>)
    requires Ascends(a) && a != []
    ensures Ascends(a[1..])
    ensures forall k :: k in a[1..] <==> k in a && k != a[0]
  {
    forall k | k in a[1..] ensures k != a[0] {
      var i :| 0 <= i < |a[1..]| && a[1..][i] == k;
      Trichotomy(a[0], a[i + 1]);
    }
  }

  // ── Scans ─────────────────────────────────────────────────────────────────

  /** The longest leading run of `keys` under `prefix`. */
  function TakeWhile(keys: seq<Bytes>, prefix: Bytes): (run: seq<Bytes>)
    ensures run <= keys
  {
    if keys == [] || !StartsWith(keys[0], prefix) then []
    else [keys[0]] + TakeWhile(keys[1..], prefix)
  }

  function From(s: set<Bytes>, start: Bytes): set<Bytes> {
    set k | k in s && AtMost(start, k)
  }

  function Under(s: set<Bytes>, prefix: Bytes): set<Bytes> {
    set k | k in s && StartsWith(k, prefix)
  }

  /** What `range(prefix..)` followed by `take_while(starts_with(prefix))`
      visits. */
  function PrefixScan(s: set<Bytes>, prefix: Bytes): seq<Bytes> {
    TakeWhile(Ascending(From(s, prefix)), prefix)
  }

  /** A prefix scan visits exactly the keys under the prefix, in order. */
  lemma PrefixScanExact(s: set<Bytes>, prefix: Bytes)
    ensures PrefixScan(s, prefix) == Ascending(Under(s, prefix))
  {
    var keys := Ascending(From(s, prefix));
    var run := PrefixScan(s, prefix);
    forall k ensures k in run <==> k in Under(s, prefix) {
      if k in Under(s, prefix) {
        assert k == prefix + k[|prefix|..];
        PrefixSortsFirst(prefix, k[|prefix|..]);
        assert k in keys;
        TakeWhileReaches(keys, prefix, k);
      }
      if k in run {
        TakeWhileOnlyUnder(keys, prefix, k);
        var i :| 0 <= i < |run| && run[i] == k;
        assert keys[i] == k;
        assert k in keys;
      }
    }
    assert Ascends(run) by {
      forall i, j | 0 <= i < j < |run| ensures Less(run[i], run[j]) {
        assert run[i] == keys[i] && run[j] == keys[j];
      }
    }
    AscendingIsUnique(run, Ascending(Under(s, prefix)));
  }

  lemma {:induction false} TakeWhileOnlyUnder(keys: seq<Bytes>, prefix: Bytes, k: Bytes)
    requires k in TakeWhile(keys, prefix)
    ensures StartsWith(k, prefix)
  {
    if k != keys[0] {
      TakeWhileOnlyUnder(keys[1..], prefix, k);
    }
  }

  /** Keys under one prefix are contiguous, so the run reaches all of them. */
  lemma {:induction false} TakeWhileReaches(keys: seq<Bytes>, prefix: Bytes, k: Bytes)
    requires Ascends(keys) && k in keys && StartsWith(k, prefix)
    requires forall x :: x in keys ==> AtMost(prefix, x)
    ensures k in TakeWhile(keys, prefix)
  {
    assert keys[0] in keys;
    HeadIsLeast(keys, k);
    assert prefix + [] == prefix && k == prefix + k[|prefix|..];
    Squeezed(prefix, [], keys[0], k[|prefix|..]);
    if k != keys[0] {
      TailMembers(keys);
      TakeWhileReaches(keys[1..], prefix, k);
    }
  }
}
