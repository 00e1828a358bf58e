/** Byte strings, their bytewise order (bytes.Compare, bbolt's key order), decimal
    rendering, and a bucket cursor that visits keys in that order. */
module Bytes {
  type byte = b: int | 0 <= b < 256
  type Bytes = seq<byte>

  predicate Less(a: Bytes, b: Bytes) {
    b != [] && (a == [] || a[0] < b[0] || (a[0] == b[0] && Less(a[1..], b[1..])))
  }

  predicate HasPrefix(s: Bytes, p: Bytes) {
    |p| <= |s| && s[..|p|] == p
  }

  // ---- Less is a strict total order ----------------------------------------

  lemma {:induction false} LessIrreflexive(a: Bytes)
    ensures !Less(a, a)
  {
    if a != [] { LessIrreflexive(a[1..]); }
  }

  lemma {:induction false} LessTransitive(a: Bytes, b: Bytes, c: Bytes)
    requires Less(a, b) && Less(b, c)
    ensures Less(a, c)
  {
    if a != [] && a[0] == b[0] == c[0] {
      LessTransitive(a[1..], b[1..], c[1..]);
    }
  }

  lemma {:induction false} LessTotal(a: Bytes, b: Bytes)
    ensures Less(a, b) || a == b || Less(b, a)
  {
    if a != [] && b != [] && a[0] == b[0] {
      LessTotal(a[1..], b[1..]);
      assert a == [a[0]] + a[1..] && b == [b[0]] + b[1..];
    }
  }

  lemma {:induction false} LessAsymmetric(a: Bytes, b: Bytes)
    requires Less(a, b)
    ensures !Less(b, a) && a != b
  {
    if Less(b, a) { LessTransitive(a, b, a); }
    LessIrreflexive(a);
  }

  /** A shared prefix does not influence the comparison. */
  lemma {:induction false} LessCommonPrefix(p: Bytes, a: Bytes, b: Bytes)
    ensures Less(p + a, p + b) <==> Less(a, b)
  {
    if p == [] {
      assert p + a == a && p + b == b;
    } else {
      assert (p + a)[1..] == p[1..] + a && (p + b)[1..] == p[1..] + b;
      LessCommonPrefix(p[1..], a, b);
    }
  }

  /** Equal-length heads decide first; equal heads leave it to the tails. */
  lemma {:induction false} LessConcat(a: Bytes, b: Bytes, x: Bytes, y: Bytes)
    requires |a| == |b|
    ensures Less(a + x, b + y) <==> Less(a, b) || (a == b && Less(x, y))
  {
    if a == [] {
      assert a + x == x && b + y == y;
      LessIrreflexive(a);
    } else {
      assert (a + x)[1..] == a[1..] + x && (b + y)[1..] == b[1..] + y;
      assert a == [a[0]] + a[1..] && b == [b[0]] + b[1..];
      LessConcat(a[1..], b[1..], x, y);
      if a == b { LessIrreflexive(a); LessIrreflexive(a[1..]); }
    }
  }

  lemma PrefixStep(s: Bytes, p: Bytes)
    requires s != [] && p != []
    ensures HasPrefix(s, p) <==> s[0] == p[0] && HasPrefix(s[1..], p[1..])
  {
    if |p| <= |s| {
      assert s[1..][..|p| - 1] == s[..|p|][1..];
      assert s[..|p|] == [s[0]] + s[..|p|][1..] && p == [p[0]] + p[1..];
    }
  }

  /** A key with prefix p is never below p. */
  lemma {:induction false} PrefixNotAbove(k: Bytes, p: Bytes)
    requires HasPrefix(k, p)
    ensures !Less(k, p)
  {
    if p != [] {
      PrefixStep(k, p);
      PrefixNotAbove(k[1..], p[1..]);
    }
  }

  /** Once at or above p without carrying it, no larger key carries it again. */
  lemma {:induction false} PrefixesAreContiguous(k: Bytes, k': Bytes, p: Bytes)
    requires !Less(k, p) && !HasPrefix(k, p) && Less(k, k')
    ensures !HasPrefix(k', p)
  {
    if p != [] && k != [] {
      PrefixStep(k, p);
      PrefixStep(k', p);
      if k[0] == p[0] == k'[0] {
        PrefixesAreContiguous(k[1..], k'[1..], p[1..]);
      }
    }
  }

  /** Keys between two keys with prefix p carry it too. */
  lemma PrefixIsConvex(p: Bytes, lo: Bytes, k: Bytes, hi: Bytes)
    requires HasPrefix(lo, p) && HasPrefix(hi, p)
    requires !Less(k, lo) && Less(k, hi)
    ensures HasPrefix(k, p)
  {
    PrefixNotAbove(lo, p);
    NotBelow(k, lo, p);
    if !HasPrefix(k, p) { PrefixesAreContiguous(k, hi, p); }
  }

  lemma NotBelow(k: Bytes, lo: Bytes, p: Bytes)
    requires !Less(k, lo) && !Less(lo, p)
    ensures !Less(k, p)
  {
    LessTotal(lo, p);
    if Less(k, p) && lo != p { LessTransitive(k, p, lo); }
  }

  /** The first occurrence of a marker splits a string in one way only. */
  lemma {:induction false} SplitUnique(m: byte, d: Bytes, a: Bytes, d': Bytes, a': Bytes)
    requires m !in d && m !in d'
    requires d + [m] + a == d' + [m] + a'
    ensures d == d' && a == a'
  {
    var s, s' := d + [m] + a, d' + [m] + a';
    assert s[0] == if d == [] then m else d[0];
    assert s'[0] == if d' == [] then m else d'[0];
    assert s[1..] == if d == [] then a else d[1..] + [m] + a;
    assert s'[1..] == if d' == [] then a' else d'[1..] + [m] + a';
    if d != [] && d' != [] {
      SplitUnique(m, d[1..], a, d'[1..], a');
      assert d == [d[0]] + d[1..] && d' == [d'[0]] + d'[1..];
    }
  }

  // ---- Big-endian integers -------------------------------------------------

  function Pow256(n: nat): (r: nat)
    ensures r > 0
  {
    if n == 0 then 1 else 256 * Pow256(n - 1)
  }

  function BigEndian(v: nat, width: nat): (r: Bytes)
    ensures |r| == width
  {
    if width == 0 then [] else BigEndian(v / 256, width - 1) + [v % 256]
  }

  lemma {:induction false} BigEndianOrder(v: nat, w: nat, width: nat)
    requires v < w < Pow256(width)
    ensures Less(BigEndian(v, width), BigEndian(w, width))
  {
    if width > 0 {
      assert w / 256 < Pow256(width - 1);
      LessConcat(BigEndian(v / 256, width - 1), BigEndian(w / 256, width - 1), [v % 256], [w % 256]);
      if v / 256 < w / 256 {
        BigEndianOrder(v / 256, w / 256, width - 1);
      } else {
        assert v % 256 < w % 256;
      }
    }
  }

  // ---- Decimal rendering (fmt's %d of a non-negative number) ----------------

  const DASH: byte := 45
  const DIGIT_ZERO: byte := 48
  const PIPE: byte := 124

  predicate IsDigit(b: byte) { 48 <= b <= 57 }

  function Decimal(n: nat): (r: Bytes)
    ensures r != [] && forall b :: b in r ==> IsDigit(b)
  {
    if n < 10 then [DIGIT_ZERO + n] else Decimal(n / 10) + [DIGIT_ZERO + n % 10]
  }

  lemma {:induction false} DecimalInjective(m: nat, n: nat)
    requires Decimal(m) == Decimal(n)
    ensures m == n
  {
    var a, b := Decimal(m), Decimal(n);
    assert a[|a| - 1] == b[|b| - 1];
    if m >= 10 && n >= 10 {
      assert a[..|a| - 1] == Decimal(m / 10) && b[..|b| - 1] == Decimal(n / 10);
      DecimalInjective(m / 10, n / 10);
    }
  }

  /** Same number of digits: bytewise order is numeric order. */
  lemma {:induction false} DecimalOrder(m: nat, n: nat)
    requires |Decimal(m)| == |Decimal(n)|
    ensures Less(Decimal(m), Decimal(n)) <==> m < n
  {
    if m >= 10 && n >= 10 {
      DecimalOrder(m / 10, n / 10);
      LessConcat(Decimal(m / 10), Decimal(n / 10), [DIGIT_ZERO + m % 10], [DIGIT_ZERO + n % 10]);
      if Decimal(m / 10) == Decimal(n / 10) { DecimalInjective(m / 10, n / 10); }
      if m / 10 == n / 10 { LessIrreflexive(Decimal(m / 10)); }
    }
  }

  function Pow10(n: nat): (r: nat)
    ensures r > 0
  {
    if n == 0 then 1 else 10 * Pow10(n - 1)
  }

  /** Bytes beyond the length of the larger side do not matter. */
  lemma {:induction false} LessExtend(a: Bytes, x: byte, b: Bytes)
    requires |a| >= |b|
    ensures Less(a + [x], b) <==> Less(a, b)
  {
    if b != [] {
      assert (a + [x])[0] == a[0] && (a + [x])[1..] == a[1..] + [x];
      LessExtend(a[1..], x, b[1..]);
    }
  }

  lemma {:induction false} LongerDecimalBelow(m: nat, n: nat)
    requires |Decimal(m)| >= |Decimal(n)|
    ensures Less(Decimal(m), Decimal(n)) <==> m < n * Pow10(|Decimal(m)| - |Decimal(n)|)
  {
    var k := |Decimal(m)| - |Decimal(n)|;
    if k == 0 {
      DecimalOrder(m, n);
    } else {
      assert m >= 10 && |Decimal(m / 10)| == |Decimal(m)| - 1;
      LongerDecimalBelow(m / 10, n);
      LessExtend(Decimal(m / 10), DIGIT_ZERO + m % 10, Decimal(n));
      OneMoreDigit(m, n, k);
    }
  }

  lemma OneMoreDigit(m: nat, n: nat, k: nat)
    requires k > 0
    ensures m / 10 < n * Pow10(k - 1) <==> m < n * Pow10(k)
  {
    var p := n * Pow10(k - 1);
    assert n * Pow10(k) == 10 * p;
    assert m == 10 * (m / 10) + m % 10;
  }

  /** Bytewise order of any two decimals is the order after padding the shorter with zeros,
      the shorter first when they are then equal. */
  lemma DecimalOrderIff(m: nat, n: nat)
    ensures Less(Decimal(m), Decimal(n)) <==>
            if |Decimal(m)| >= |Decimal(n)| then m < n * Pow10(|Decimal(m)| - |Decimal(n)|)
            else m * Pow10(|Decimal(n)| - |Decimal(m)|) <= n
  {
    if |Decimal(m)| >= |Decimal(n)| {
      LongerDecimalBelow(m, n);
    } else {
      LongerDecimalBelow(n, m);
      LessTotal(Decimal(m), Decimal(n));
      if Less(Decimal(m), Decimal(n)) { LessAsymmetric(Decimal(m), Decimal(n)); }
    }
  }

  // ---- Bucket cursor --------------------------------------------------------

  ghost predicate Ascending(ks: seq<Bytes>) {
    forall i, j :: 0 <= i < j < |ks| ==> Less(ks[i], ks[j])
  }

  /** Where k belongs in an ascending sequence that lacks it. */
  method InsertionPoint(ks: seq<Bytes>, k: Bytes) returns (at: nat)
    requires Ascending(ks) && k !in ks
    ensures at <= |ks|
    ensures forall i :: 0 <= i < at ==> Less(ks[i], k)
    ensures forall i :: at <= i < |ks| ==> Less(k, ks[i])
  {
    at := 0;
    while at < |ks| && Less(ks[at], k)
      invariant at <= |ks|
      invariant forall i :: 0 <= i < at ==> Less(ks[i], k)
    {
      at := at + 1;
    }
    if at < |ks| {
      LessTotal(ks[at], k);
      forall i | at < i < |ks| ensures Less(k, ks[i]) {
        LessTransitive(k, ks[at], ks[i]);
      }
    }
  }

  /** The order in which a cursor or ForEach visits a bucket. */
  method CursorOrder<V>(bucket: map<Bytes, V>) returns (ks: seq<Bytes>)
    ensures Ascending(ks)
    ensures forall k :: k in ks <==> k in bucket
  {
    ks := [];
    var todo := bucket.Keys;
    while todo != {}
      invariant Ascending(ks) && todo <= bucket.Keys
      invariant forall k :: k in ks <==> k in bucket && k !in todo
    {
      var k :| k in todo;
      todo := todo - {k};
      var at := InsertionPoint(ks, k);
      SpliceElements(ks, at, k);
      SpliceAscending(ks, at, k);
      ks := ks[..at] + [k] + ks[at..];
    }
  }

  lemma SpliceElements<T>(s: seq<T>, at: nat, x: T)
    requires at <= |s|
    ensures forall y :: y in s[..at] + [x] + s[at..] <==> y in s || y == x
  {
    var out := s[..at] + [x] + s[at..];
    forall y | y in s ensures y in out {
      var i :| 0 <= i < |s| && s[i] == y;
      assert out[if i < at then i else i + 1] == y;
    }
    assert out[at] == x;
  }

  lemma SpliceAscending(ks: seq<Bytes>, at: nat, k: Bytes)
    requires Ascending(ks) && at <= |ks|
    requires forall i :: 0 <= i < at ==> Less(ks[i], k)
    requires forall i :: at <= i < |ks| ==> Less(k, ks[i])
    ensures Ascending(ks[..at] + [k] + ks[at..])
  {
    var out := ks[..at] + [k] + ks[at..];
    forall i, j | 0 <= i < j < |out| ensures Less(out[i], out[j]) {
      assert out[i] == if i < at then ks[i] else if i == at then k else ks[i - 1];
      assert out[j] == if j < at then ks[j] else if j == at then k else ks[j - 1];
    }
  }

  /** An ascending sequence visits no key twice. */
  lemma AscendingDistinct(ks: seq<Bytes>, i: nat, j: nat)
    requires Ascending(ks) && i < j < |ks|
    ensures ks[i] != ks[j]
  {
    LessIrreflexive(ks[i]);
  }
}
