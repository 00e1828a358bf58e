/** The size-based log rotator of internal/logging/rotator.go, without an age limit and
    without I/O errors. The disk is the list of files the rotator manages: position 0 is
    the log file itself and position i its i-th rotated file ("path.i"), up to maxFiles.
    Missing stands for a file that does not exist. */
module LogRotation {
  import opened Bytes
  import opened Collections

  datatype File = Missing | Present(content: Bytes)

  type Disk = seq<File>

  const DEFAULT_MAX_SIZE: nat := 2 * 1024 * 1024
  const DEFAULT_MAX_FILES: nat := 5

  datatype Limits = Limits(maxSize: nat, maxFiles: nat)

  predicate Sound(l: Limits) { l.maxSize > 0 && l.maxFiles > 0 }

  function Normalize(maxSize: int, maxFiles: int): (l: Limits)
    ensures Sound(l)
  {
    Limits(if maxSize <= 0 then DEFAULT_MAX_SIZE else maxSize, if maxFiles <= 0 then DEFAULT_MAX_FILES else maxFiles)
  }

  /** Positive limits are taken as given; any other becomes 2 MiB, or five files. */
  lemma LimitsInFull(maxSize: int, maxFiles: int)
    ensures maxSize > 0 ==> Normalize(maxSize, maxFiles).maxSize == maxSize
    ensures maxFiles > 0 ==> Normalize(maxSize, maxFiles).maxFiles == maxFiles
    ensures maxSize <= 0 ==> Normalize(maxSize, maxFiles).maxSize == 2 * 1024 * 1024
    ensures maxFiles <= 0 ==> Normalize(maxSize, maxFiles).maxFiles == 5
  {
  }

  function Content(f: File): Bytes { if f.Present? then f.content else [] }

  /** A disk for these limits, with the log file open. */
  ghost predicate Opened(d: Disk, l: Limits) {
    Sound(l) && |d| == l.maxFiles + 1 && d[0].Present?
  }

  // ---- Steps on values --------------------------------------------------------------

  function RenameSpec(d: Disk, src: nat, dst: nat): Disk
    requires src < |d| && dst < |d| && src != dst
  {
    if d[src].Present? then d[dst := d[src]][src := Missing] else d
  }

  /** Every file moves up by one place, gaps included; the last is gone. */
  function RotateSpec(d: Disk): Disk
    requires d != []
  {
    [Present([])] + d[..|d| - 1]
  }

  function Fits(d: Disk, l: Limits, p: Bytes): bool
    requires d != []
  {
    |Content(d[0])| + |p| <= l.maxSize
  }

  function AppendSpec(d: Disk, p: Bytes): Disk
    requires d != []
  {
    d[0 := Present(Content(d[0]) + p)]
  }

  function WriteSpec(d: Disk, l: Limits, p: Bytes): (e: Disk)
    requires Opened(d, l)
    ensures Opened(e, l)
  {
    if Fits(d, l, p) then AppendSpec(d, p) else AppendSpec(RotateSpec(d), p)
  }

  function Run(d: Disk, l: Limits, writes: seq<Bytes>): (e: Disk)
    requires Opened(d, l)
    ensures Opened(e, l)
  {
    if writes == [] then d
    else WriteSpec(Run(d, l, writes[..|writes| - 1]), l, writes[|writes| - 1])
  }

  function Concat(writes: seq<Bytes>): Bytes {
    if writes == [] then [] else Concat(writes[..|writes| - 1]) + writes[|writes| - 1]
  }

  // ---- What the files spell -----------------------------------------------------------

  /** The files from the oldest down to the active one, read in order. */
  function Spell(d: Disk): Bytes {
    if d == [] then [] else Spell(d[1..]) + Content(d[0])
  }

  ghost predicate IsSuffix(s: Bytes, t: Bytes) {
    |s| <= |t| && t[|t| - |s|..] == s
  }

  lemma {:induction false} SpellLast(d: Disk)
    requires d != []
    ensures Spell(d) == Content(d[|d| - 1]) + Spell(d[..|d| - 1])
  {
    var n := |d| - 1;
    if n == 0 {
      assert d[1..] == [] && d[..0] == [];
    } else {
      SpellLast(d[1..]);
      assert d[1..][..n - 1] == d[..n][1..];
      Associate(Content(d[n]), Spell(d[..n][1..]), Content(d[0]));
    }
  }

  /** A write loses nothing, or exactly the oldest file when it rotates. */
  lemma WriteSpells(d: Disk, l: Limits, p: Bytes)
    requires Opened(d, l)
    ensures Spell(d) == Content(d[l.maxFiles]) + Spell(d[..l.maxFiles])
    ensures Fits(d, l, p) ==> Spell(WriteSpec(d, l, p)) == Spell(d) + p
    ensures !Fits(d, l, p) ==> Spell(WriteSpec(d, l, p)) == Spell(d[..l.maxFiles]) + p
  {
    SpellLast(d);
    if Fits(d, l, p) {
      assert AppendSpec(d, p)[1..] == d[1..];
      Associate(Spell(d[1..]), Content(d[0]), p);
    } else {
      var e := AppendSpec(RotateSpec(d), p);
      assert e[1..] == d[..l.maxFiles] && Content(e[0]) == [] + p == p;
    }
  }

  lemma SuffixAppend(s: Bytes, t: Bytes, head: Bytes, p: Bytes)
    requires IsSuffix(head + s, t)
    ensures IsSuffix(s + p, t + p)
  {
    var cut := |t| - |s|;
    assert t[cut..] == (head + s)[|head|..] == s;
    assert (t + p)[cut..] == t[cut..] + p;
  }

  /** After any run of writes the files spell a suffix of what was on disk before
      followed by everything written. */
  lemma {:induction false} FilesAreSuffix(d: Disk, l: Limits, writes: seq<Bytes>)
    requires Opened(d, l)
    ensures IsSuffix(Spell(Run(d, l, writes)), Spell(d) + Concat(writes))
  {
    if writes == [] {
      assert Spell(d) + [] == Spell(d);
    } else {
      var n := |writes| - 1;
      FilesAreSuffix(d, l, writes[..n]);
      WriteIsSuffix(Run(d, l, writes[..n]), l, writes[n], Spell(d) + Concat(writes[..n]));
      Associate(Spell(d), Concat(writes[..n]), writes[n]);
    }
  }

  lemma WriteIsSuffix(d: Disk, l: Limits, p: Bytes, all: Bytes)
    requires Opened(d, l) && IsSuffix(Spell(d), all)
    ensures IsSuffix(Spell(WriteSpec(d, l, p)), all + p)
  {
    WriteSpells(d, l, p);
    if Fits(d, l, p) {
      assert [] + Spell(d) == Spell(d);
      SuffixAppend(Spell(d), all, [], p);
    } else {
      SuffixAppend(Spell(d[..l.maxFiles]), all, Content(d[l.maxFiles]), p);
    }
  }

  // ---- Sizes -----------------------------------------------------------------------------

  /** The active file ends with the last write, whole, and stays within the limit unless
      that write alone exceeds it. */
  lemma ActiveBounded(d: Disk, l: Limits, p: Bytes)
    requires Opened(d, l)
    ensures var active := Content(WriteSpec(d, l, p)[0]);
            IsSuffix(p, active) && (|active| <= l.maxSize || active == p)
  {
    assert [] + p == p;
  }

  /** Rotated files leave no gaps, and two neighbours together exceed the limit. */
  ghost predicate Packed(d: Disk, l: Limits) {
    && Opened(d, l)
    && (forall i :: 0 < i < |d| && d[i].Present? ==> d[i - 1].Present? && |d[i - 1].content| + |d[i].content| > l.maxSize)
  }

  lemma WritePacked(d: Disk, l: Limits, p: Bytes)
    requires Packed(d, l)
    ensures Packed(WriteSpec(d, l, p), l)
  {
    var e := WriteSpec(d, l, p);
    forall i | 0 < i < |e| && e[i].Present? ensures e[i - 1].Present? && |e[i - 1].content| + |e[i].content| > l.maxSize {
      if Fits(d, l, p) {
        assert e[i] == d[i];
      } else {
        assert e[i] == d[i - 1];
        assert i > 1 ==> e[i - 1] == d[i - 2];
      }
    }
  }

  lemma {:induction false} RunPacked(d: Disk, l: Limits, writes: seq<Bytes>)
    requires Packed(d, l)
    ensures Packed(Run(d, l, writes), l)
  {
    if writes != [] {
      RunPacked(d, l, writes[..|writes| - 1]);
      WritePacked(Run(d, l, writes[..|writes| - 1]), l, writes[|writes| - 1]);
    }
  }

  /** Pairs of neighbouring files hold more than maxSize bytes each. */
  lemma {:induction false} PairsAreBig(d: Disk, maxSize: nat)
    requires forall i :: 0 < i < |d| ==> |Content(d[i - 1])| + |Content(d[i])| > maxSize
    ensures |Spell(d)| >= |d| / 2 * (maxSize + 1)
  {
    if |d| >= 2 {
      PairsAreBig(d[2..], maxSize);
      assert d[1..][1..] == d[2..];
      assert |Content(d[1 - 1])| + |Content(d[1])| > maxSize;
      var q := |d[2..]| / 2;
      assert |d| / 2 == q + 1 && (q + 1) * (maxSize + 1) == q * (maxSize + 1) + (maxSize + 1);
    }
  }

  lemma {:induction false} FullBelow(d: Disk, l: Limits, n: nat)
    requires Packed(d, l) && n < |d| && d[n].Present?
    ensures forall i :: 0 <= i <= n ==> d[i].Present?
  {
    if n > 0 { FullBelow(d, l, n - 1); }
  }

  /** From a packed disk, such as a fresh one: either nothing was lost, or the files hold
      at least (maxFiles + 1) / 2 times maxSize + 1 of the newest bytes. */
  lemma {:induction false} LossNeedsVolume(d: Disk, l: Limits, writes: seq<Bytes>)
    requires Packed(d, l) && d[l.maxFiles].Missing?
    ensures var e := Run(d, l, writes);
            Spell(e) == Spell(d) + Concat(writes) || |Spell(e)| >= (l.maxFiles + 1) / 2 * (l.maxSize + 1)
  {
    var e := Run(d, l, writes);
    RunPacked(d, l, writes);
    if e[l.maxFiles].Present? {
      FullBelow(e, l, l.maxFiles);
      PairsAreBig(e, l.maxSize);
    } else {
      NothingLostYet(d, l, writes);
    }
  }

  lemma {:induction false} NothingLostYet(d: Disk, l: Limits, writes: seq<Bytes>)
    requires Packed(d, l) && Run(d, l, writes)[l.maxFiles].Missing?
    ensures Spell(Run(d, l, writes)) == Spell(d) + Concat(writes)
  {
    if writes == [] {
      assert Spell(d) + [] == Spell(d);
    } else {
      var n := |writes| - 1;
      var before, p := Run(d, l, writes[..n]), writes[n];
      RunPacked(d, l, writes[..n]);
      StillEmpty(before, l, p);
      NothingLostYet(d, l, writes[..n]);
      WriteSpells(before, l, p);
      assert [] + Spell(before[..l.maxFiles]) == Spell(before[..l.maxFiles]);
      Associate(Spell(d), Concat(writes[..n]), p);
    }
  }

  /** The last place is filled for good once it is filled. */
  lemma StillEmpty(d: Disk, l: Limits, p: Bytes)
    requires Packed(d, l) && WriteSpec(d, l, p)[l.maxFiles].Missing?
    ensures d[l.maxFiles].Missing?
  {
    if !Fits(d, l, p) {
      assert WriteSpec(d, l, p)[l.maxFiles] == d[l.maxFiles - 1];
    }
  }

  // ---- The rotator -------------------------------------------------------------------------

  class LogRotator {
    const limits: Limits
    var disk: Disk
    var size: int

    ghost predicate Valid()
      reads this
    {
      Opened(disk, limits) && size == |disk[0].content|
    }

    /** Opens the log file for appending, creating it if it is not there. */
    constructor (onDisk: Disk, maxSize: int, maxFiles: int)
      requires |onDisk| == Normalize(maxSize, maxFiles).maxFiles + 1
      ensures Valid() && limits == Normalize(maxSize, maxFiles)
      ensures maxSize > 0 && maxFiles > 0 ==> limits == Limits(maxSize, maxFiles)
      ensures disk == onDisk[0 := Present(Content(onDisk[0]))] && Spell(disk) == Spell(onDisk)
    {
      limits := Normalize(maxSize, maxFiles);
      disk := onDisk[0 := Present(Content(onDisk[0]))];
      size := |Content(onDisk[0])|;
      assert onDisk[0 := Present(Content(onDisk[0]))][1..] == onDisk[1..];
    }

    /** os.Rename, which fails without effect when the source is missing. */
    method Rename(src: nat, dst: nat)
      requires src < |disk| && dst < |disk| && src != dst
      modifies this`disk
      ensures disk == RenameSpec(old(disk), src, dst)
    {
      if disk[src].Present? {
        disk := disk[dst := disk[src]];
        disk := disk[src := Missing];
      }
    }

    method Rotate()
      requires Valid()
      modifies this
      ensures Valid() && size == 0
      ensures disk == RotateSpec(old(disk)) == [Present([])] + old(disk)[..limits.maxFiles]
    {
      ghost var d := disk;
      var i := limits.maxFiles - 1;
      disk := disk[limits.maxFiles := Missing];
      assert disk == d[..i + 1] + [Missing] + d[i + 1..limits.maxFiles];
      while i >= 1
        invariant 0 <= i < limits.maxFiles
        invariant disk == d[..i + 1] + [Missing] + d[i + 1..limits.maxFiles]
      {
        Rename(i, i + 1);
        i := i - 1;
        assert disk == d[..i + 1] + [Missing] + d[i + 1..limits.maxFiles];
      }
      Rename(0, 1);
      assert disk == [Missing] + d[..limits.maxFiles];
      disk := disk[0 := Present([])];
      assert disk == [Present([])] + d[..limits.maxFiles];
      size := 0;
    }

    method Write(p: Bytes) returns (n: nat)
      requires Valid()
      modifies this
      ensures Valid() && n == |p| && disk == WriteSpec(old(disk), limits, p)
      ensures disk == if |old(disk)[0].content| + |p| <= limits.maxSize
                      then old(disk)[0 := Present(old(disk)[0].content + p)]
                      else [Present(p)] + old(disk)[..limits.maxFiles]
    {
      if size + |p| > limits.maxSize {
        Rotate();
      }
      assert [] + p == p;
      disk := disk[0 := Present(disk[0].content + p)];
      size := size + |p|;
      n := |p|;
    }
  }
}
