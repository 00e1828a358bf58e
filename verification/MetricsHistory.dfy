/** The metrics time series of internal/metrics/history.go: keys, the range scan of
    Query, and downsampling. A row whose JSON does not decode is Malformed. */
module MetricsHistory {
  import opened Bytes

  datatype Sample = Sample(timestamp: int, usage: real)
  datatype Row = Good(sample: Sample) | Malformed

  type Bucket = map<Bytes, Row>

  const KEY_PREFIX: Bytes := [105, 110, 115, 116, 124]  // "inst|"

  /** fmt's %d. */
  function DecimalInt(n: int): Bytes {
    if n < 0 then [DASH] + Decimal(-n) else Decimal(n)
  }

  function SeriesPrefix(instance: Bytes): Bytes { KEY_PREFIX + instance + [PIPE] }

  function Key(instance: Bytes, timestamp: int): Bytes {
    SeriesPrefix(instance) + DecimalInt(timestamp)
  }

  // ---- Ten-digit timestamps ---------------------------------------------------------

  predicate TenDigits(n: int) { 1_000_000_000 <= n < 10_000_000_000 }

  lemma TenDigitsLength(n: int)
    requires TenDigits(n)
    ensures |Decimal(n)| == 10
  {
    var a := n / 10; var b := a / 10; var c := b / 10; var d := c / 10; var e := d / 10;
    var f := e / 10; var g := f / 10; var h := g / 10; var i := h / 10;
    assert |Decimal(i)| == 1;
    assert |Decimal(h)| == 2;
    assert |Decimal(g)| == 3;
    assert |Decimal(f)| == 4;
    assert |Decimal(e)| == 5;
    assert |Decimal(d)| == 6;
    assert |Decimal(c)| == 7;
    assert |Decimal(b)| == 8;
    assert |Decimal(a)| == 9;
  }

  lemma KeyOrder(instance: Bytes, s: int, t: int)
    requires TenDigits(s) && TenDigits(t)
    ensures Less(Key(instance, s), Key(instance, t)) <==> s < t
  {
    TenDigitsLength(s);
    TenDigitsLength(t);
    LessCommonPrefix(SeriesPrefix(instance), Decimal(s), Decimal(t));
    DecimalOrder(s, t);
  }

  /** Between two keys of a series lie only keys of that series. */
  lemma SeriesIsConvex(instance: Bytes, lo: int, hi: int, other: Bytes, t: int)
    requires PIPE !in instance && PIPE !in other
    requires !Less(Key(other, t), Key(instance, lo)) && Less(Key(other, t), Key(instance, hi))
    ensures other == instance
  {
    var q := SeriesPrefix(instance);
    assert Key(instance, lo)[..|q|] == q && Key(instance, hi)[..|q|] == q;
    PrefixIsConvex(q, Key(instance, lo), Key(other, t), Key(instance, hi));
    PrefixNamesSeries(instance, other, t);
  }

  lemma PrefixNamesSeries(instance: Bytes, other: Bytes, t: int)
    requires PIPE !in instance && PIPE !in other
    requires HasPrefix(Key(other, t), SeriesPrefix(instance))
    ensures other == instance
  {
    var q, k := SeriesPrefix(instance), Key(other, t);
    var rest := k[|q|..];
    assert k == q + rest;
    assert k[5..] == other + [PIPE] + DecimalInt(t);
    assert (q + rest)[5..] == instance + [PIPE] + rest;
    SplitUnique(PIPE, other, DecimalInt(t), instance, rest);
  }

  // ---- The range scan ------------------------------------------------------------------

  /** ks are the keys of the bucket in [lo, hi), in order. */
  ghost predicate RangeScan(bucket: Bucket, lo: Bytes, hi: Bytes, ks: seq<Bytes>) {
    && Ascending(ks)
    && forall k :: k in ks <==> k in bucket && !Less(k, lo) && Less(k, hi)
  }

  function Samples(bucket: Bucket, ks: seq<Bytes>): seq<Sample>
    requires forall k :: k in ks ==> k in bucket
  {
    if ks == [] then []
    else
      var n := |ks| - 1;
      var head := Samples(bucket, ks[..n]);
      if bucket[ks[n]].Good? then head + [bucket[ks[n]].sample] else head
  }

  /** Rows as Append writes them: ten-digit times, instance ids without a pipe. */
  ghost predicate WellKeyed(bucket: Bucket) {
    forall k :: k in bucket ==> exists inst, t :: Owner(bucket, k, inst, t)
  }

  ghost predicate Owner(bucket: Bucket, k: Bytes, inst: Bytes, t: int) {
    k in bucket && k == Key(inst, t) && PIPE !in inst && TenDigits(t) && (bucket[k].Good? ==> bucket[k].sample.timestamp == t)
  }

  /** A stored sample of the instance with from <= t <= to. */
  ghost predicate Wanted(bucket: Bucket, instance: Bytes, from: int, to: int, s: Sample) {
    from <= s.timestamp <= to && Key(instance, s.timestamp) in bucket && bucket[Key(instance, s.timestamp)] == Good(s)
  }

  ghost predicate TimeOrdered(s: seq<Sample>) {
    forall i, j :: 0 <= i < j < |s| ==> s[i].timestamp < s[j].timestamp
  }

  lemma RangeMembers(bucket: Bucket, instance: Bytes, from: int, to: int, k: Bytes)
    requires WellKeyed(bucket) && PIPE !in instance && TenDigits(from) && TenDigits(to + 1)
    requires k in bucket
    ensures !Less(k, Key(instance, from)) && Less(k, Key(instance, to + 1))
            <==> InSeries(bucket, k, instance, from, to)
  {
    if !Less(k, Key(instance, from)) && Less(k, Key(instance, to + 1)) {
      var inst, t :| Owner(bucket, k, inst, t);
      SeriesIsConvex(instance, from, to + 1, inst, t);
      KeyInRange(instance, from, to, t);
    }
    forall u | Owner(bucket, k, instance, u) && from <= u <= to
      ensures !Less(k, Key(instance, from)) && Less(k, Key(instance, to + 1))
    {
      KeyInRange(instance, from, to, u);
    }
  }

  lemma KeyInRange(instance: Bytes, from: int, to: int, t: int)
    requires TenDigits(from) && TenDigits(to + 1) && TenDigits(t)
    ensures !Less(Key(instance, t), Key(instance, from)) && Less(Key(instance, t), Key(instance, to + 1))
            <==> from <= t <= to
  {
    KeyOrder(instance, t, from);
    KeyOrder(instance, t, to + 1);
  }

  /** The scan returns exactly the instance's samples in the closed range, oldest first. */
  lemma ScanIsRange(bucket: Bucket, instance: Bytes, from: int, to: int, ks: seq<Bytes>)
    requires WellKeyed(bucket) && PIPE !in instance && TenDigits(from) && TenDigits(to + 1)
    requires RangeScan(bucket, Key(instance, from), Key(instance, to + 1), ks)
    ensures TimeOrdered(Samples(bucket, ks))
    ensures forall s :: s in Samples(bucket, ks) <==> Wanted(bucket, instance, from, to, s)
  {
    forall k | k in ks ensures InSeries(bucket, k, instance, from, to) {
      RangeMembers(bucket, instance, from, to, k);
    }
    SamplesInOrder(bucket, instance, from, to, ks);
    SamplesAre(bucket, ks);
    forall s | s in Samples(bucket, ks) ensures Wanted(bucket, instance, from, to, s) {
      var k :| k in ks && bucket[k] == Good(s);
      var t :| Owner(bucket, k, instance, t) && from <= t <= to;
    }
    forall s | Wanted(bucket, instance, from, to, s) ensures s in Samples(bucket, ks) {
      var k := Key(instance, s.timestamp);
      var inst, t :| Owner(bucket, k, inst, t);
      assert t == s.timestamp;
      SameOwner(inst, instance, t);
      RangeMembers(bucket, instance, from, to, k);
    }
  }

  lemma SameOwner(inst: Bytes, instance: Bytes, t: int)
    requires Key(inst, t) == Key(instance, t)
    ensures inst == instance
  {
    var k := Key(inst, t);
    assert |inst| == |instance|;
    assert k[5..5 + |inst|] == inst;
    assert Key(instance, t)[5..5 + |instance|] == instance;
  }

  /** The samples of a list of rows are those of its well-formed rows. */
  lemma {:induction false} SamplesAre(bucket: Bucket, ks: seq<Bytes>)
    requires forall k :: k in ks ==> k in bucket
    ensures forall s :: s in Samples(bucket, ks) <==> exists k :: k in ks && bucket[k] == Good(s)
  {
    if ks != [] {
      var n := |ks| - 1;
      assert ks == ks[..n] + [ks[n]];
      SamplesAre(bucket, ks[..n]);
    }
  }

  ghost predicate InSeries(bucket: Bucket, k: Bytes, instance: Bytes, from: int, to: int) {
    exists t :: Owner(bucket, k, instance, t) && from <= t <= to
  }

  lemma {:induction false} SamplesInOrder(bucket: Bucket, instance: Bytes, from: int, to: int, ks: seq<Bytes>)
    requires Ascending(ks) && forall k :: k in ks ==> k in bucket && InSeries(bucket, k, instance, from, to)
    ensures TimeOrdered(Samples(bucket, ks))
  {
    if ks != [] {
      var n := |ks| - 1;
      var head, k := ks[..n], ks[n];
      assert k in ks && forall x :: x in head ==> x in ks;
      SamplesInOrder(bucket, instance, from, to, head);
      SamplesAre(bucket, head);
      if bucket[k].Good? {
        forall s | s in Samples(bucket, head) ensures s.timestamp < bucket[k].sample.timestamp {
          var x :| x in head && bucket[x] == Good(s);
          var j :| 0 <= j < n && head[j] == x;
          assert Less(ks[j], ks[n]);
          EarlierRow(bucket, instance, from, to, x, k);
        }
      }
    }
  }

  lemma EarlierRow(bucket: Bucket, instance: Bytes, from: int, to: int, x: Bytes, k: Bytes)
    requires InSeries(bucket, x, instance, from, to) && InSeries(bucket, k, instance, from, to) && Less(x, k)
    requires x in bucket && k in bucket && bucket[x].Good? && bucket[k].Good?
    ensures bucket[x].sample.timestamp < bucket[k].sample.timestamp
  {
    var s :| Owner(bucket, x, instance, s) && from <= s <= to;
    var t :| Owner(bucket, k, instance, t) && from <= t <= to;
    KeyOrder(instance, s, t);
  }

  /** For times of any number of digits keys compare as the times do after padding the
      shorter with zeros. */
  lemma KeyOrderIff(instance: Bytes, s: nat, t: nat)
    ensures Less(Key(instance, s), Key(instance, t)) <==>
            if |Decimal(s)| >= |Decimal(t)| then s < t * Pow10(|Decimal(s)| - |Decimal(t)|)
            else s * Pow10(|Decimal(t)| - |Decimal(s)|) <= t
  {
    LessCommonPrefix(SeriesPrefix(instance), Decimal(s), Decimal(t));
    DecimalOrderIff(s, t);
  }

  /** So a start of fewer digits hides exactly the ten-digit samples below the padded start. */
  lemma ShortStartHidesIff(instance: Bytes, from: nat, t: nat)
    requires TenDigits(t) && |Decimal(from)| <= 10
    ensures |Decimal(t)| == 10
    ensures Less(Key(instance, t), Key(instance, from)) <==> t < from * Pow10(10 - |Decimal(from)|)
  {
    TenDigitsLength(t);
    KeyOrderIff(instance, t, from);
  }

  /** Outside ten digits bytewise order is not time order: a nine-digit start hides
      every ten-digit sample that begins with a smaller digit. */
  lemma NineDigitStartHides(instance: Bytes)
    ensures Less(Key(instance, 1_700_000_000), Key(instance, 999_999_999)) && 999_999_999 < 1_700_000_000
  {
    LeadingDigit(1_700_000_000, 1);
    LeadingDigit(999_999_999, 9);
    LessCommonPrefix(SeriesPrefix(instance), Decimal(1_700_000_000), Decimal(999_999_999));
  }

  lemma {:induction false} LeadingDigit(n: nat, d: nat)
    requires (n == 1_700_000_000 && d == 1) || (n == 999_999_999 && d == 9)
    ensures Decimal(n)[0] == DIGIT_ZERO + d
  {
    var a := n / 10; var b := a / 10; var c := b / 10; var e := c / 10; var f := e / 10;
    var g := f / 10; var h := g / 10; var i := h / 10;
    assert Decimal(i)[0] == DIGIT_ZERO + d;
    assert Decimal(h)[0] == Decimal(i)[0];
    assert Decimal(g)[0] == Decimal(h)[0];
    assert Decimal(f)[0] == Decimal(g)[0];
    assert Decimal(e)[0] == Decimal(f)[0];
    assert Decimal(c)[0] == Decimal(e)[0];
    assert Decimal(b)[0] == Decimal(c)[0];
    assert Decimal(a)[0] == Decimal(b)[0];
  }

  // ---- Downsampling -------------------------------------------------------------------------

  /** The positions visited by a loop from i in steps of stride. */
  function Strided(n: nat, stride: nat, i: nat): seq<nat>
    requires stride > 0
    decreases n - i
  {
    if i >= n then [] else [i] + Strided(n, stride, i + stride)
  }

  function Pick(samples: seq<Sample>, at: seq<nat>): (r: seq<Sample>)
    requires forall i :: 0 <= i < |at| ==> at[i] < |samples|
    ensures |r| == |at| && forall i :: 0 <= i < |r| ==> r[i] == samples[at[i]]
  {
    seq(|at|, i requires 0 <= i < |at| => samples[at[i]])
  }

  function Stride(n: nat, maxPoints: nat): nat
    requires maxPoints > 0
  {
    (n + maxPoints - 1) / maxPoints
  }

  /** The positions kept: every stride-th, and the last. */
  function Kept(n: nat, maxPoints: nat): seq<nat>
    requires 0 < maxPoints < n
  {
    StrideBounds(n, maxPoints);
    var s := Stride(n, maxPoints);
    Strided(n, s, 0) + (if (n - 1) % s != 0 then [n - 1] else [])
  }

  lemma MulLe(a: int, b: int, s: nat)
    ensures a <= b ==> a * s <= b * s
  {
  }

  lemma StrideBounds(n: nat, m: nat)
    requires 0 < m < n
    ensures var s := Stride(n, m); s >= 2 && (s - 1) * m < n <= s * m
  {
    var s := Stride(n, m);
    assert n + m - 1 == m * s + (n + m - 1) % m;
    MulLe(s, 1, m);
    assert (s - 1) * m == s * m - m;
  }

  /** How many multiples of the stride there are, and which is the last. */
  lemma {:induction false} StridedShape(n: nat, s: nat, i: nat)
    requires s > 0 && i < n
    ensures var ix := Strided(n, s, i);
            && ix != [] && ix[0] == i
            && (forall j :: 0 <= j < |ix| ==> ix[j] < n)
            && (forall j :: 0 < j < |ix| ==> ix[j] == ix[j - 1] + s)
            && n - s <= ix[|ix| - 1]
            && ix[|ix| - 1] == i + (|ix| - 1) * s
    decreases n - i
  {
    if i + s < n {
      StridedShape(n, s, i + s);
      var rest := Strided(n, s, i + s);
      var ix := Strided(n, s, i);
      assert ix == [i] + rest;
      assert (|ix| - 1) * s == (|rest| - 1) * s + s;
    } else {
      assert Strided(n, s, i + s) == [];
    }
  }

  lemma LastMultiple(n: nat, s: nat, c: nat)
    requires s > 0 && n > 0 && c > 0 && (c - 1) * s < n && n - s <= (c - 1) * s
    ensures (n - 1) % s == n - 1 - (c - 1) * s
    ensures c == (n + s - 1) / s
  {
    var r := n - 1 - (c - 1) * s;
    assert n - 1 == (c - 1) * s + r && 0 <= r < s;
    DivModUnique(n - 1, s, c - 1, r);
    DivModUnique(n + s - 1, s, c, r);
  }

  lemma DivModUnique(a: nat, s: nat, q: nat, r: nat)
    requires s > 0 && a == q * s + r && r < s
    ensures a / s == q && a % s == r
  {
    var q', r' := a / s, a % s;
    assert a == q' * s + r';
    MulLe(q' + 1, q, s);
    MulLe(q + 1, q', s);
    assert (q' + 1) * s == q' * s + s && (q + 1) * s == q * s + s;
  }

  ghost predicate KeepsShape(ix: seq<nat>, n: nat, stride: nat) {
    && ix != [] && ix[0] == 0 && ix[|ix| - 1] == n - 1
    && (forall j :: 0 <= j < |ix| ==> ix[j] < n)
    && (forall j :: 0 < j < |ix| ==> ix[j - 1] < ix[j] <= ix[j - 1] + stride)
  }

  lemma {:induction false} StridedAt(n: nat, s: nat, i: nat, j: nat)
    requires s > 0 && j < |Strided(n, s, i)|
    ensures Strided(n, s, i)[j] == i + j * s
    decreases n - i
  {
    if j > 0 {
      StridedAt(n, s, i + s, j - 1);
      assert (j - 1) * s + s == j * s;
    }
  }

  lemma StridedCount(n: nat, m: nat)
    requires 0 < m < n
    ensures var s := Stride(n, m);
            && s >= 2
            && var ix := Strided(n, s, 0);
            && 0 < |ix| <= m
            && |ix| == (n + s - 1) / s
            && (n - 1) % s == n - 1 - ix[|ix| - 1]
  {
    StrideBounds(n, m);
    var s := Stride(n, m);
    var ix := Strided(n, s, 0);
    StridedShape(n, s, 0);
    LastMultiple(n, s, |ix|);
    MulLe(m, |ix| - 1, s);
    assert m * s == s * m;
  }

  lemma WithLast(ix: seq<nat>, n: nat, s: nat)
    requires s > 0 && n > 0 && ix != [] && ix[0] == 0 && n - s <= ix[|ix| - 1] < n - 1
    requires forall j :: 0 <= j < |ix| ==> ix[j] < n
    requires forall j :: 0 < j < |ix| ==> ix[j] == ix[j - 1] + s
    ensures KeepsShape(ix + [n - 1], n, s)
  {
    var out := ix + [n - 1];
    forall j | 0 < j < |out| ensures out[j - 1] < out[j] <= out[j - 1] + s {
      if j < |ix| { assert out[j] == ix[j] && out[j - 1] == ix[j - 1]; }
    }
  }

  /** The kept positions run from the first sample to the newest in gaps of at most the
      stride. There are at most maxPoints + 1 of them, and that many exactly when the
      multiples of the stride number maxPoints and miss the newest sample. */
  lemma KeptShape(n: nat, maxPoints: nat)
    requires 0 < maxPoints < n
    ensures KeepsShape(Kept(n, maxPoints), n, Stride(n, maxPoints))
    ensures |Kept(n, maxPoints)| <= maxPoints + 1
    ensures Stride(n, maxPoints) > 0 && (Stride(n, maxPoints) - 1) * maxPoints < n <= Stride(n, maxPoints) * maxPoints
    ensures |Kept(n, maxPoints)| > maxPoints
            <==> (n + Stride(n, maxPoints) - 1) / Stride(n, maxPoints) == maxPoints && (n - 1) % Stride(n, maxPoints) != 0
  {
    var s := Stride(n, maxPoints);
    StrideBounds(n, maxPoints);
    StridedCount(n, maxPoints);
    StridedShape(n, s, 0);
    var ix := Strided(n, s, 0);
    if (n - 1) % s != 0 {
      WithLast(ix, n, s);
      assert Kept(n, maxPoints) == ix + [n - 1];
    } else {
      assert Kept(n, maxPoints) == ix + [] == ix;
    }
  }

  /** The positions kept, one by one: the multiples of the stride, and the newest in place of
      the first multiple at or past it. */
  lemma KeptPositions(n: nat, maxPoints: nat, j: nat)
    requires 0 < maxPoints < n && j < |Kept(n, maxPoints)|
    ensures Stride(n, maxPoints) > 0 && (Stride(n, maxPoints) - 1) * maxPoints < n <= Stride(n, maxPoints) * maxPoints
    ensures Kept(n, maxPoints)[j] == if j * Stride(n, maxPoints) < n - 1 then j * Stride(n, maxPoints) else n - 1
    ensures j == |Kept(n, maxPoints)| - 1 <==> j * Stride(n, maxPoints) >= n - 1
  {
    var s := Stride(n, maxPoints);
    StrideBounds(n, maxPoints);
    StridedShape(n, s, 0);
    StridedCount(n, maxPoints);
    var ix := Strided(n, s, 0);
    if j < |ix| { StridedAt(n, s, 0, j); }
    MultiplesSoFar(j, |ix|, s, ix[|ix| - 1]);
  }

  lemma MultiplesSoFar(j: nat, count: nat, s: nat, last: nat)
    requires s > 0 && 0 < count && last == (count - 1) * s && j <= count
    ensures j == count ==> j * s == last + s
    ensures j == count - 1 ==> j * s == last
    ensures j < count - 1 ==> j * s + s <= last
  {
    assert (count - 1) * s + s == count * s;
    if j < count - 1 {
      MulLe(j + 1, count - 1, s);
      assert (j + 1) * s == j * s + s;
    }
  }

  /** Ten points asked for can yield eleven. */
  lemma OneTooMany()
    ensures |Kept(20, 10)| == 11
  {
    KeptShape(20, 10);
  }

  // ---- The store ------------------------------------------------------------------------------

  /** The samples a stride loop still has to append from position i on. */
  function From(samples: seq<Sample>, stride: nat, i: nat): seq<Sample>
    requires stride > 0
    decreases |samples| - i
  {
    if i >= |samples| then [] else [samples[i]] + From(samples, stride, i + stride)
  }

  lemma {:induction false} FromIsPick(samples: seq<Sample>, stride: nat, i: nat)
    requires stride > 0
    ensures forall j :: 0 <= j < |Strided(|samples|, stride, i)| ==> Strided(|samples|, stride, i)[j] < |samples|
    ensures From(samples, stride, i) == Pick(samples, Strided(|samples|, stride, i))
    decreases |samples| - i
  {
    if i < |samples| { FromIsPick(samples, stride, i + stride); }
  }

  function DownsampleSpec(samples: seq<Sample>, maxPoints: nat): seq<Sample>
    requires maxPoints > 0
  {
    if |samples| <= maxPoints then samples
    else
      StrideBounds(|samples|, maxPoints);
      var strided, newest := From(samples, Stride(|samples|, maxPoints), 0), samples[|samples| - 1];
      if strided == [] || strided[|strided| - 1].timestamp != newest.timestamp then strided + [newest] else strided
  }

  /** On samples in time order, downsampling picks the kept positions. */
  lemma DownsampledIsPick(samples: seq<Sample>, m: nat)
    requires 0 < m < |samples| && TimeOrdered(samples)
    ensures KeepsShape(Kept(|samples|, m), |samples|, Stride(|samples|, m))
    ensures DownsampleSpec(samples, m) == Pick(samples, Kept(|samples|, m))
  {
    var n, s := |samples|, Stride(|samples|, m);
    KeptShape(n, m);
    StridedCount(n, m);
    FromIsPick(samples, s, 0);
    var ix := Strided(n, s, 0);
    var last, newest := ix[|ix| - 1], samples[n - 1];
    NewestDiffers(samples, ix);
    if last < n - 1 {
      assert Kept(n, m) == ix + [n - 1];
      assert DownsampleSpec(samples, m) == Pick(samples, ix) + [newest];
      PickAppend(samples, ix, n - 1);
    } else {
      assert Kept(n, m) == ix + [] == ix;
    }
  }

  lemma NewestDiffers(samples: seq<Sample>, ix: seq<nat>)
    requires TimeOrdered(samples) && ix != [] && forall j :: 0 <= j < |ix| ==> ix[j] < |samples|
    ensures var last := ix[|ix| - 1];
            Pick(samples, ix)[|ix| - 1].timestamp != samples[|samples| - 1].timestamp <==> last < |samples| - 1
  {
    assert Pick(samples, ix)[|ix| - 1] == samples[ix[|ix| - 1]];
  }

  lemma PickAppend(samples: seq<Sample>, ix: seq<nat>, i: nat)
    requires i < |samples| && forall j :: 0 <= j < |ix| ==> ix[j] < |samples|
    ensures Pick(samples, ix + [i]) == Pick(samples, ix) + [samples[i]]
  {
  }

  method Downsample(samples: seq<Sample>, maxPoints: nat) returns (out: seq<Sample>)
    requires maxPoints > 0
    ensures out == DownsampleSpec(samples, maxPoints)
  {
    if |samples| <= maxPoints {
      return samples;
    }
    StrideBounds(|samples|, maxPoints);
    var stride := (|samples| + maxPoints - 1) / maxPoints;
    out := [];
    var i := 0;
    while i < |samples|
      invariant out + From(samples, stride, i) == From(samples, stride, 0)
      decreases |samples| - i
    {
      assert out + ([samples[i]] + From(samples, stride, i + stride)) == out + [samples[i]] + From(samples, stride, i + stride);
      out := out + [samples[i]];
      i := i + stride;
    }
    assert out + [] == out;
    var last := samples[|samples| - 1];
    if |out| == 0 || out[|out| - 1].timestamp != last.timestamp {
      out := out + [last];
    }
  }

  function Thin(samples: seq<Sample>, maxPoints: int): seq<Sample> {
    if maxPoints > 0 && |samples| > maxPoints then DownsampleSpec(samples, maxPoints) else samples
  }

  class HistoryStore {
    var bucket: Bucket

    constructor ()
      ensures bucket == map[]
    {
      bucket := map[];
    }

    method Append(instance: Bytes, sample: Sample)
      modifies this
      ensures bucket == old(bucket)[Key(instance, sample.timestamp) := Good(sample)]
    {
      bucket := bucket[Key(instance, sample.timestamp) := Good(sample)];
    }

    /** Seeks to the start key and walks forward while below the end key. */
    method Scan(startKey: Bytes, endKey: Bytes) returns (samples: seq<Sample>, ghost found: seq<Bytes>)
      ensures RangeScan(bucket, startKey, endKey, found) && samples == Samples(bucket, found)
    {
      var ks := CursorOrder(bucket);
      var i := 0;
      while i < |ks| && Less(ks[i], startKey)
        invariant i <= |ks| && forall j :: 0 <= j < i ==> Less(ks[j], startKey)
      {
        i := i + 1;
      }
      ghost var start := i;
      found := [];
      samples := [];
      while i < |ks| && Less(ks[i], endKey)
        invariant start <= i <= |ks| && found == ks[start..i]
        invariant forall j :: start <= j < i ==> Less(ks[j], endKey)
        invariant (forall k :: k in found ==> k in bucket) && samples == Samples(bucket, found)
      {
        assert ks[i] in ks;
        assert (found + [ks[i]])[..|found|] == found;
        found := found + [ks[i]];
        if bucket[ks[i]].Good? {
          samples := samples + [bucket[ks[i]].sample];
        }
        i := i + 1;
      }
      RangeFound(bucket, ks, startKey, endKey, start, i);
    }

    method Query(instance: Bytes, from: int, to: int, maxPoints: int) returns (out: seq<Sample>)
      ensures exists found ::
                RangeScan(bucket, Key(instance, from), Key(instance, to + 1), found)
                && out == Thin(Samples(bucket, found), maxPoints)
    {
      var samples, found := Scan(Key(instance, from), Key(instance, to + 1));
      if maxPoints > 0 && |samples| > maxPoints {
        out := Downsample(samples, maxPoints);
      } else {
        out := samples;
      }
    }
  }

  /** all is the instance's samples in the closed range, oldest first. */
  ghost predicate IsRange(bucket: Bucket, instance: Bytes, from: int, to: int, all: seq<Sample>) {
    TimeOrdered(all) && forall s :: s in all <==> Wanted(bucket, instance, from, to, s)
  }

  /** out is all, or the kept positions of it when that is too long. */
  ghost predicate Thinned(all: seq<Sample>, maxPoints: int, out: seq<Sample>) {
    if maxPoints <= 0 || |all| <= maxPoints then out == all
    else
      && KeepsShape(Kept(|all|, maxPoints), |all|, Stride(|all|, maxPoints))
      && |out| <= maxPoints + 1
      && out == Pick(all, Kept(|all|, maxPoints))
  }

  /** What Query returns, for ten-digit bounds over rows written by Append. */
  lemma QueryIsThinnedRange(bucket: Bucket, instance: Bytes, from: int, to: int, maxPoints: int, found: seq<Bytes>)
    requires WellKeyed(bucket) && PIPE !in instance && TenDigits(from) && TenDigits(to + 1)
    requires RangeScan(bucket, Key(instance, from), Key(instance, to + 1), found)
    ensures var all := Samples(bucket, found);
            IsRange(bucket, instance, from, to, all) && Thinned(all, maxPoints, Thin(all, maxPoints))
  {
    ScanIsRange(bucket, instance, from, to, found);
    var all := Samples(bucket, found);
    if maxPoints > 0 && |all| > maxPoints {
      DownsampledIsPick(all, maxPoints);
      KeptShape(|all|, maxPoints);
    }
  }

  /** Append keeps the rows well keyed. */
  lemma AppendWellKeyed(bucket: Bucket, instance: Bytes, sample: Sample)
    requires WellKeyed(bucket) && PIPE !in instance && TenDigits(sample.timestamp)
    ensures WellKeyed(bucket[Key(instance, sample.timestamp) := Good(sample)])
  {
    var out, key := bucket[Key(instance, sample.timestamp) := Good(sample)], Key(instance, sample.timestamp);
    forall k | k in out ensures exists inst, t :: Owner(out, k, inst, t) {
      if k == key {
        assert Owner(out, k, instance, sample.timestamp);
      } else {
        var inst, t :| Owner(bucket, k, inst, t);
        assert Owner(out, k, inst, t);
      }
    }
  }

  /** Seek, then walk while below the end key: the whole range and nothing else. */
  lemma RangeFound(bucket: Bucket, ks: seq<Bytes>, lo: Bytes, hi: Bytes, start: nat, end: nat)
    requires Ascending(ks) && forall k :: k in ks <==> k in bucket
    requires start <= end <= |ks|
    requires forall j :: 0 <= j < start ==> Less(ks[j], lo)
    requires start == |ks| || !Less(ks[start], lo)
    requires forall j :: start <= j < end ==> Less(ks[j], hi)
    requires end == |ks| || !Less(ks[end], hi)
    ensures RangeScan(bucket, lo, hi, ks[start..end])
  {
    forall j | start <= j < |ks| ensures !Less(ks[j], lo) {
      if start < j && Less(ks[j], lo) { LessTransitive(ks[start], ks[j], lo); }
    }
    forall j | end <= j < |ks| ensures !Less(ks[j], hi) {
      if end < j && Less(ks[j], hi) { LessTransitive(ks[end], ks[j], hi); }
    }
    var found := ks[start..end];
    forall k | k in bucket && !Less(k, lo) && Less(k, hi) ensures k in found {
      var j :| 0 <= j < |ks| && ks[j] == k;
      assert found[j - start] == k;
    }
    forall k | k in found ensures k in bucket && !Less(k, lo) && Less(k, hi) {
      var m :| 0 <= m < |found| && found[m] == k;
      assert k == ks[start + m];
    }
  }
}
