/** The docker stdio demultiplexer of internal/docker/execcommand.go: frames of
    [type, 0, 0, 0, size as uint32 big-endian] and a payload, read in pieces of at most
    64 KiB into two buffers that together hold at most 512 KiB. */
module ExecDemux {
  import opened Bytes
  import opened Collections

  const MAX_OUTPUT: nat := 512 * 1024
  const PIECE: nat := 64 * 1024

  /** The pieces of payload read from a stream, in order. */
  datatype Pieces = End | Piece(toErr: bool, bytes: Bytes, rest: Pieces)

  datatype Captured = Captured(out: Bytes, err: Bytes, truncated: bool)

  datatype Frame = Frame(toErr: bool, payload: Bytes)

  function BigEndian32(a: nat, b: nat, c: nat, d: nat): nat {
    a * 0x100_0000 + b * 0x1_0000 + c * 0x100 + d
  }

  function FrameSize(header: Bytes): nat
    requires |header| == 8
  {
    BigEndian32(header[4], header[5], header[6], header[7])
  }

  // ---- What the stream says, frame by frame ------------------------------------------

  /** The full output on one side, with no cap; a cut-off last frame counts. */
  function Plain(s: Bytes, side: bool): Bytes {
    if |s| < 8 then []
    else
      var body := s[8..];
      var n := Min(FrameSize(s[..8]), |body|);
      if (s[0] == 2) == side then body[..n] + Plain(body[n..], side) else Plain(body[n..], side)
  }

  // ---- What the reading loops see --------------------------------------------------------

  /** The pieces read from s when a frame is about to start. */
  function Read(s: Bytes): Pieces
    decreases |s|, 0
  {
    if |s| < 8 then End else ReadFrame(s[8..], s[0] == 2, FrameSize(s[..8]))
  }

  /** The pieces read from s with size bytes of the current frame still to come. */
  function ReadFrame(s: Bytes, toErr: bool, size: nat): Pieces
    decreases |s|, 1
  {
    var n := Min(size, PIECE);
    if size == 0 then Read(s)
    else if |s| < n then Piece(toErr, s, End)
    else Piece(toErr, s[..n], ReadFrame(s[n..], toErr, size - n))
  }

  /** A piece is kept whole if it fits under the cap, dropped whole otherwise. */
  function Take(acc: Captured, toErr: bool, bytes: Bytes): Captured {
    if |acc.out| + |acc.err| + |bytes| <= MAX_OUTPUT then
      if toErr then acc.(err := acc.err + bytes) else acc.(out := acc.out + bytes)
    else acc.(truncated := true)
  }

  function Capture(ps: Pieces, acc: Captured): Captured {
    match ps
    case End => acc
    case Piece(toErr, bytes, rest) => Capture(rest, Take(acc, toErr, bytes))
  }

  function Demux(s: Bytes): Captured {
    Capture(Read(s), Captured([], [], false))
  }

  function Join(ps: Pieces, side: bool): Bytes {
    match ps
    case End => []
    case Piece(toErr, bytes, rest) => if toErr == side then bytes + Join(rest, side) else Join(rest, side)
  }

  function Size(ps: Pieces): nat {
    match ps
    case End => 0
    case Piece(_, bytes, rest) => |bytes| + Size(rest)
  }

  // ---- Cutting frames into pieces loses nothing -------------------------------------------

  lemma {:induction false} ReadJoins(s: Bytes, side: bool)
    ensures Join(Read(s), side) == Plain(s, side)
    decreases |s|, 0
  {
    if |s| >= 8 {
      ReadFrameJoins(s[8..], s[0] == 2, FrameSize(s[..8]), side);
    }
  }

  /** What one side gets when the next n bytes belong to a frame. */
  ghost function Expected(s: Bytes, n: nat, toErr: bool, side: bool): Bytes
    requires n <= |s|
  {
    if toErr == side then s[..n] + Plain(s[n..], side) else Plain(s[n..], side)
  }

  lemma {:induction false} ReadFrameJoins(s: Bytes, toErr: bool, size: nat, side: bool)
    ensures Join(ReadFrame(s, toErr, size), side) == Expected(s, Min(size, |s|), toErr, side)
    decreases |s|, 1
  {
    var p := Min(size, PIECE);
    if size == 0 {
      ReadJoins(s, side);
      NoneTaken(s, Plain(s, side));
    } else if |s| < p {
      AllTaken(s, side);
    } else {
      var m, tail := Min(size - p, |s| - p), ReadFrame(s[p..], toErr, size - p);
      ReadFrameJoins(s[p..], toErr, size - p, side);
      assert ReadFrame(s, toErr, size) == Piece(toErr, s[..p], tail);
      FirstPieceJoins(s, p, m, toErr, tail, side);
      assert Min(size, |s|) == p + m;
    }
  }

  lemma NoneTaken(s: Bytes, rest: Bytes)
    ensures s[0..] == s && s[..0] + rest == rest
  {
  }

  lemma AllTaken(s: Bytes, side: bool)
    ensures Plain(s[|s|..], side) == [] && s[..|s|] == s && s + [] == s
  {
  }

  /** The first piece of a frame goes before the rest of it. */
  lemma FirstPieceJoins(s: Bytes, p: nat, m: nat, toErr: bool, tail: Pieces, side: bool)
    requires p + m <= |s| && Join(tail, side) == Expected(s[p..], m, toErr, side)
    ensures Join(Piece(toErr, s[..p], tail), side) == Expected(s, p + m, toErr, side)
  {
    SplitSplit(s, p, m, Plain(s[p..][m..], side));
  }

  lemma SplitSplit(s: Bytes, p: nat, m: nat, tail: Bytes)
    requires p + m <= |s|
    ensures s[p..][m..] == s[p + m..]
    ensures s[..p] + (s[p..][..m] + tail) == s[..p + m] + tail
  {
    assert s[..p + m] == s[..p] + s[p..][..m];
  }

  lemma {:induction false} SizeOfJoined(ps: Pieces)
    ensures Size(ps) == |Join(ps, false)| + |Join(ps, true)|
  {
    if ps.Piece? { SizeOfJoined(ps.rest); }
  }

  // ---- The cap ------------------------------------------------------------------------------

  function Used(acc: Captured): nat { |acc.out| + |acc.err| }

  lemma {:induction false} CaptureBounded(ps: Pieces, acc: Captured)
    requires Used(acc) <= MAX_OUTPUT
    ensures Used(Capture(ps, acc)) <= MAX_OUTPUT
    ensures Used(Capture(ps, acc)) <= Used(acc) + Size(ps)
    ensures Capture(ps, acc).truncated <==> acc.truncated || Used(acc) + Size(ps) > MAX_OUTPUT
  {
    if ps.Piece? {
      CaptureBounded(ps.rest, Take(acc, ps.toErr, ps.bytes));
    }
  }

  /** While everything fits, the buffers grow by exactly what was sent. */
  lemma {:induction false} CaptureAll(ps: Pieces, acc: Captured)
    requires Used(acc) + Size(ps) <= MAX_OUTPUT
    ensures Capture(ps, acc) == Captured(acc.out + Join(ps, false), acc.err + Join(ps, true), acc.truncated)
  {
    match ps
    case End =>
      assert acc.out + [] == acc.out && acc.err + [] == acc.err;
    case Piece(toErr, bytes, rest) =>
      CaptureAll(rest, Take(acc, toErr, bytes));
      Associate(if toErr then acc.err else acc.out, bytes, Join(rest, toErr));
  }

  /** For every byte stream: the cap holds, and the flag is set exactly when the full
      output does not fit under it; otherwise nothing is missing. */
  lemma DemuxCorrect(s: Bytes)
    ensures var r := Demux(s);
            && |r.out| + |r.err| <= 524288
            && (r.truncated <==> |Plain(s, false)| + |Plain(s, true)| > 524288)
            && (!r.truncated ==> r.out == Plain(s, false) && r.err == Plain(s, true))
  {
    var ps, none := Read(s), Captured([], [], false);
    ReadJoins(s, false);
    ReadJoins(s, true);
    SizeOfJoined(ps);
    CaptureBounded(ps, none);
    if !Demux(s).truncated {
      CaptureAll(ps, none);
      assert [] + Join(ps, false) == Join(ps, false) && [] + Join(ps, true) == Join(ps, true);
    }
  }

  // ---- Round trip ------------------------------------------------------------------------------

  predicate Sendable(f: Frame) {
    |f.payload| < 0x1_0000_0000
  }

  lemma SizeDigits(n: nat)
    requires n < 0x1_0000_0000
    ensures n / 0x100 / 0x100 / 0x100 < 0x100
    ensures BigEndian32(n / 0x100 / 0x100 / 0x100, n / 0x100 / 0x100 % 0x100, n / 0x100 % 0x100, n % 0x100) == n
  {
    var m := n / 0x100;
    var k := m / 0x100;
    assert n == m * 0x100 + n % 0x100 && m == k * 0x100 + m % 0x100 && k == k / 0x100 * 0x100 + k % 0x100;
  }

  function Header(f: Frame): (r: Bytes)
    requires Sendable(f)
    ensures |r| == 8 && FrameSize(r) == |f.payload| && (r[0] == 2 <==> f.toErr)
  {
    var n := |f.payload|;
    SizeDigits(n);
    [if f.toErr then 2 else 1, 0, 0, 0, n / 0x100 / 0x100 / 0x100, n / 0x100 / 0x100 % 0x100, n / 0x100 % 0x100, n % 0x100]
  }

  function Encode(fs: seq<Frame>): Bytes
    requires forall f :: f in fs ==> Sendable(f)
  {
    if fs == [] then [] else Header(fs[0]) + (fs[0].payload + Encode(fs[1..]))
  }

  function Payloads(fs: seq<Frame>, side: bool): Bytes {
    if fs == [] then []
    else if fs[0].toErr == side then fs[0].payload + Payloads(fs[1..], side) else Payloads(fs[1..], side)
  }

  lemma AfterHeader(f: Frame, rest: Bytes)
    requires Sendable(f)
    ensures var s := Header(f) + (f.payload + rest);
            && |s| >= 8 && s[..8] == Header(f) && s[0] == Header(f)[0] && s[8..] == f.payload + rest
            && s[8..][..|f.payload|] == f.payload && s[8..][|f.payload|..] == rest
  {
    var s := Header(f) + (f.payload + rest);
    assert s[8..] == f.payload + rest;
  }

  lemma {:induction false} PlainOfEncoded(fs: seq<Frame>, side: bool)
    requires forall f :: f in fs ==> Sendable(f)
    ensures Plain(Encode(fs), side) == Payloads(fs, side)
  {
    if fs != [] {
      AfterHeader(fs[0], Encode(fs[1..]));
      PlainOfEncoded(fs[1..], side);
    }
  }

  /** What was written to each side within the cap comes back unchanged. */
  lemma RoundTrip(fs: seq<Frame>)
    requires forall f :: f in fs ==> Sendable(f)
    requires |Payloads(fs, false)| + |Payloads(fs, true)| <= MAX_OUTPUT
    ensures Demux(Encode(fs)) == Captured(Payloads(fs, false), Payloads(fs, true), false)
  {
    PlainOfEncoded(fs, false);
    PlainOfEncoded(fs, true);
    DemuxCorrect(Encode(fs));
  }

  /** One frame after the other, whatever the header says in its other bytes: a first byte of 2
      means standard error and any other standard output; a frame cut off by the end of the
      stream counts as far as it goes, and a cut-off header not at all. */
  lemma FrameInFull(header: Bytes, body: Bytes, side: bool)
    requires |header| == 8
    ensures var size: nat := header[4] as nat * 16777216 + header[5] as nat * 65536 + header[6] as nat * 256 + header[7] as nat;
            var n := if size < |body| then size else |body|;
            Plain(header + body, side) ==
            (if (side && header[0] == 2) || (!side && header[0] != 2) then body[..n] else []) + Plain(body[n..], side)
  {
    var s := header + body;
    assert s[..8] == header && s[8..] == body && s[0] == header[0];
  }

  lemma CutHeaderSaysNothing(s: Bytes, side: bool)
    requires |s| < 8
    ensures Plain(s, side) == []
  {
  }

  // ---- Truncated output ----------------------------------------------------------------------

  /** The pieces that are kept when used bytes of room are taken. */
  function Kept(ps: Pieces, used: nat): Pieces {
    match ps
    case End => End
    case Piece(toErr, bytes, rest) =>
      if used + |bytes| <= MAX_OUTPUT then Piece(toErr, bytes, Kept(rest, used + |bytes|)) else Kept(rest, used)
  }

  /** Whatever happens, the output is made of whole pieces in their order. */
  lemma {:induction false} CaptureIsKept(ps: Pieces, acc: Captured)
    ensures Capture(ps, acc).out == acc.out + Join(Kept(ps, Used(acc)), false)
    ensures Capture(ps, acc).err == acc.err + Join(Kept(ps, Used(acc)), true)
  {
    match ps
    case End =>
      assert acc.out + [] == acc.out && acc.err + [] == acc.err;
    case Piece(toErr, bytes, rest) =>
      CaptureIsKept(rest, Take(acc, toErr, bytes));
      if Used(acc) + |bytes| <= MAX_OUTPUT {
        Associate(if toErr then acc.err else acc.out, bytes, Join(Kept(rest, Used(acc) + |bytes|), toErr));
      }
  }

  lemma DemuxIsKept(s: Bytes)
    ensures Demux(s).out == Join(Kept(Read(s), 0), false) && Demux(s).err == Join(Kept(Read(s), 0), true)
  {
    CaptureIsKept(Read(s), Captured([], [], false));
  }

  predicate IsHead(a: Pieces, b: Pieces) {
    match a
    case End => true
    case Piece(toErr, bytes, rest) => b.Piece? && b.toErr == toErr && b.bytes == bytes && IsHead(rest, b.rest)
  }

  predicate NoneFits(ps: Pieces, used: nat) {
    match ps
    case End => true
    case Piece(_, bytes, rest) => used + |bytes| > MAX_OUTPUT && NoneFits(rest, used)
  }

  /** No piece after the first that does not fit would fit in the room left there. */
  predicate CutsOnce(ps: Pieces, used: nat) {
    match ps
    case End => true
    case Piece(_, bytes, rest) =>
      if used + |bytes| <= MAX_OUTPUT then CutsOnce(rest, used + |bytes|) else NoneFits(rest, used)
  }

  /** What is kept is a head of what was sent exactly when the stream cuts once. */
  lemma {:induction false} KeptIsHeadIff(ps: Pieces, used: nat)
    ensures IsHead(Kept(ps, used), ps) <==> CutsOnce(ps, used)
  {
    match ps
    case End =>
    case Piece(toErr, bytes, rest) =>
      if used + |bytes| <= MAX_OUTPUT {
        KeptIsHeadIff(rest, used + |bytes|);
      } else {
        KeptFits(rest, used);
      }
  }

  lemma {:induction false} KeptFits(ps: Pieces, used: nat)
    ensures Kept(ps, used).End? <==> NoneFits(ps, used)
    ensures Kept(ps, used).Piece? ==> used + |Kept(ps, used).bytes| <= MAX_OUTPUT
  {
    if ps.Piece? { KeptFits(ps.rest, used); }
  }

  lemma {:induction false} HeadJoins(a: Pieces, b: Pieces, side: bool)
    requires IsHead(a, b)
    ensures Join(a, side) <= Join(b, side)
  {
    if a.Piece? { HeadJoins(a.rest, b.rest, side); }
  }

  // ---- When the output of one side is a prefix ---------------------------------------------

  /** The pieces that carry bytes of one side. */
  function Of(ps: Pieces, side: bool): Pieces {
    match ps
    case End => End
    case Piece(toErr, bytes, rest) =>
      if toErr == side && bytes != [] then Piece(toErr, bytes, Of(rest, side)) else Of(rest, side)
  }

  /** Room taken after a piece: it counts when it fits. */
  function UsedAfter(used: nat, n: nat): nat { if used + n <= MAX_OUTPUT then used + n else used }

  /** No piece of the side that carries bytes fits any more, while the other side goes on. */
  predicate SideNoneFits(ps: Pieces, used: nat, side: bool) {
    match ps
    case End => true
    case Piece(toErr, bytes, rest) =>
      && (toErr == side && bytes != [] ==> used + |bytes| > MAX_OUTPUT)
      && SideNoneFits(rest, UsedAfter(used, |bytes|), side)
  }

  /** After the first piece of the side that is dropped, no later one of that side is kept. */
  predicate SideCutsOnce(ps: Pieces, used: nat, side: bool) {
    match ps
    case End => true
    case Piece(toErr, bytes, rest) =>
      if toErr == side && used + |bytes| > MAX_OUTPUT then SideNoneFits(rest, used, side)
      else SideCutsOnce(rest, UsedAfter(used, |bytes|), side)
  }

  lemma {:induction false} SideKeptFits(ps: Pieces, used: nat, side: bool)
    ensures Of(Kept(ps, used), side).End? <==> SideNoneFits(ps, used, side)
    ensures Of(Kept(ps, used), side).Piece? ==> used + |Of(Kept(ps, used), side).bytes| <= MAX_OUTPUT
  {
    if ps.Piece? { SideKeptFits(ps.rest, UsedAfter(used, |ps.bytes|), side); }
  }

  /** What is kept of a side is a head of what was sent on it exactly when it cuts once there. */
  lemma {:induction false} SideKeptIsHeadIff(ps: Pieces, used: nat, side: bool)
    requires used <= MAX_OUTPUT
    ensures IsHead(Of(Kept(ps, used), side), Of(ps, side)) <==> SideCutsOnce(ps, used, side)
  {
    match ps
    case End =>
    case Piece(toErr, bytes, rest) =>
      if toErr == side && used + |bytes| > MAX_OUTPUT {
        SideKeptFits(rest, used, side);
      } else {
        SideKeptIsHeadIff(rest, UsedAfter(used, |bytes|), side);
      }
  }

  lemma {:induction false} OfJoins(ps: Pieces, side: bool)
    ensures Join(Of(ps, side), side) == Join(ps, side)
  {
    if ps.Piece? {
      OfJoins(ps.rest, side);
      assert ps.bytes == [] ==> ps.bytes + Join(ps.rest, side) == Join(ps.rest, side);
    }
  }

  function Output(s: Bytes, side: bool): Bytes { if side then Demux(s).err else Demux(s).out }

  lemma SidePrefix(ps: Pieces, used: nat, side: bool)
    requires used <= MAX_OUTPUT && SideCutsOnce(ps, used, side)
    ensures Join(Kept(ps, used), side) <= Join(ps, side)
  {
    SideKeptIsHeadIff(ps, used, side);
    HeadJoins(Of(Kept(ps, used), side), Of(ps, side), side);
    OfJoins(Kept(ps, used), side);
    OfJoins(ps, side);
  }

  /** The same sides and lengths, with any bytes. */
  predicate SameShape(ps: Pieces, qs: Pieces) {
    match ps
    case End => qs.End?
    case Piece(toErr, bytes, rest) =>
      qs.Piece? && qs.toErr == toErr && |qs.bytes| == |bytes| && SameShape(rest, qs.rest)
  }

  lemma {:induction false} ShapeDecides(ps: Pieces, qs: Pieces, used: nat, side: bool)
    requires SameShape(ps, qs)
    ensures SideNoneFits(ps, used, side) <==> SideNoneFits(qs, used, side)
    ensures SideCutsOnce(ps, used, side) <==> SideCutsOnce(qs, used, side)
  {
    if ps.Piece? {
      ShapeDecides(ps.rest, qs.rest, used, side);
      ShapeDecides(ps.rest, qs.rest, UsedAfter(used, |ps.bytes|), side);
    }
  }

  function Filled(n: nat, b: byte): Bytes { seq(n, _ => b) }

  function FilledWith(ps: Pieces, b: byte): Pieces {
    match ps
    case End => End
    case Piece(toErr, bytes, rest) => Piece(toErr, Filled(|bytes|, b), FilledWith(rest, b))
  }

  /** Zeros up to the first dropped piece of the side, ones after it. */
  function Marked(ps: Pieces, used: nat, side: bool): Pieces {
    match ps
    case End => End
    case Piece(toErr, bytes, rest) =>
      if toErr == side && used + |bytes| > MAX_OUTPUT then Piece(toErr, Filled(|bytes|, 0), FilledWith(rest, 1))
      else Piece(toErr, Filled(|bytes|, 0), Marked(rest, UsedAfter(used, |bytes|), side))
  }

  lemma {:induction false} FilledShape(ps: Pieces, b: byte)
    ensures SameShape(ps, FilledWith(ps, b))
  {
    if ps.Piece? { FilledShape(ps.rest, b); }
  }

  lemma {:induction false} MarkedShape(ps: Pieces, used: nat, side: bool)
    ensures SameShape(ps, Marked(ps, used, side))
  {
    match ps
    case End =>
    case Piece(toErr, bytes, rest) =>
      FilledShape(rest, 1);
      MarkedShape(rest, UsedAfter(used, |bytes|), side);
  }

  /** Once a piece of ones fits, what is kept of the side starts with a one. */
  lemma {:induction false} OnesKept(ps: Pieces, used: nat, side: bool)
    requires !SideNoneFits(ps, used, side)
    ensures var kept := Join(Kept(FilledWith(ps, 1), used), side); kept != [] && kept[0] == 1
  {
    match ps
    case End =>
    case Piece(toErr, bytes, rest) =>
      if !SideNoneFits(rest, UsedAfter(used, |bytes|), side) { OnesKept(rest, UsedAfter(used, |bytes|), side); }
  }

  /** On the marked pieces a side that does not cut once is not a prefix. */
  lemma {:induction false} MarkedNotPrefix(ps: Pieces, used: nat, side: bool)
    requires used <= MAX_OUTPUT && !SideCutsOnce(ps, used, side)
    ensures var m := Marked(ps, used, side); !(Join(Kept(m, used), side) <= Join(m, side))
  {
    var m := Marked(ps, used, side);
    if ps.toErr == side && used + |ps.bytes| > MAX_OUTPUT {
      OnesKept(ps.rest, used, side);
      assert Join(m, side)[0] == 0;
    } else {
      var next := UsedAfter(used, |ps.bytes|);
      MarkedNotPrefix(ps.rest, next, side);
      if ps.toErr == side { CommonHead(m.bytes, Join(Kept(m.rest, next), side), Join(m.rest, side)); }
    }
  }

  lemma CommonHead(head: Bytes, a: Bytes, b: Bytes)
    ensures head + a <= head + b ==> a <= b
  {
    if head + a <= head + b {
      assert a == (head + a)[|head|..] && b == (head + b)[|head|..];
      assert forall i :: 0 <= i < |a| ==> a[i] == (head + a)[|head| + i] == (head + b)[|head| + i] == b[i];
    }
  }

  // ---- Every shape of pieces comes from a stream --------------------------------------------

  lemma {:induction false} Realize(s: Bytes, qs: Pieces) returns (t: Bytes)
    requires SameShape(Read(s), qs)
    ensures |t| == |s| && Read(t) == qs
    decreases |s|, 0
  {
    if |s| < 8 {
      t := s;
    } else {
      var rest := RealizeFrame(s[8..], s[0] == 2, FrameSize(s[..8]), qs);
      t := s[..8] + rest;
      assert t[..8] == s[..8] && t[8..] == rest;
    }
  }

  lemma {:induction false} RealizeFrame(s: Bytes, toErr: bool, size: nat, qs: Pieces) returns (t: Bytes)
    requires SameShape(ReadFrame(s, toErr, size), qs)
    ensures |t| == |s| && ReadFrame(t, toErr, size) == qs
    decreases |s|, 1
  {
    var n := Min(size, PIECE);
    if size == 0 {
      t := Realize(s, qs);
    } else if |s| < n {
      t := qs.bytes;
    } else {
      var rest := RealizeFrame(s[n..], toErr, size - n, qs.rest);
      t := qs.bytes + rest;
      assert t[..n] == qs.bytes && t[n..] == rest;
    }
  }

  /** The exact condition for one side: its output is a prefix of what was sent there, whatever
      the bytes, exactly when the side cuts once. */
  lemma PrefixWhateverTheBytesIff(s: Bytes, side: bool)
    ensures SideCutsOnce(Read(s), 0, side) <==>
            forall t :: SameShape(Read(s), Read(t)) ==> Output(t, side) <= Plain(t, side)
  {
    var ps := Read(s);
    if SideCutsOnce(ps, 0, side) {
      forall t | SameShape(ps, Read(t)) ensures Output(t, side) <= Plain(t, side) {
        ShapeDecides(ps, Read(t), 0, side);
        SideOutputIsPrefix(t, side);
      }
    } else {
      MarkedShape(ps, 0, side);
      MarkedNotPrefix(ps, 0, side);
      var t := Realize(s, Marked(ps, 0, side));
      DemuxIsKept(t);
      ReadJoins(t, side);
      assert SameShape(ps, Read(t)) && !(Output(t, side) <= Plain(t, side));
    }
  }

  lemma SideOutputIsPrefix(s: Bytes, side: bool)
    requires SideCutsOnce(Read(s), 0, side)
    ensures Output(s, side) <= Plain(s, side)
  {
    SidePrefix(Read(s), 0, side);
    DemuxIsKept(s);
    ReadJoins(s, side);
  }

  lemma {:induction false} CutsOnceOnBothSides(ps: Pieces, used: nat, side: bool)
    requires used <= MAX_OUTPUT
    ensures NoneFits(ps, used) ==> SideNoneFits(ps, used, side)
    ensures CutsOnce(ps, used) ==> SideCutsOnce(ps, used, side)
  {
    if ps.Piece? { CutsOnceOnBothSides(ps.rest, UsedAfter(used, |ps.bytes|), side); }
  }

  /** A stream that cuts once yields prefixes of the full output on both sides. */
  lemma CutOncePrefix(s: Bytes)
    requires CutsOnce(Read(s), 0)
    ensures Demux(s).out <= Plain(s, false) && Demux(s).err <= Plain(s, true)
  {
    CutsOnceOnBothSides(Read(s), 0, false);
    CutsOnceOnBothSides(Read(s), 0, true);
    SideOutputIsPrefix(s, false);
    SideOutputIsPrefix(s, true);
  }

  lemma FirstPiece(payload: Bytes, rest: Bytes, toErr: bool)
    requires payload != []
    ensures var p := Min(|payload|, 65536);
            ReadFrame(payload + rest, toErr, |payload|)
            == Piece(toErr, payload[..p], ReadFrame(payload[p..] + rest, toErr, |payload| - p))
  {
    var s, p := payload + rest, Min(|payload|, PIECE);
    assert s[..p] == payload[..p] && s[p..] == payload[p..] + rest;
  }

  /** A payload cut into pieces, followed by more. */
  function PiecesOf(toErr: bool, payload: Bytes, tail: Pieces): Pieces {
    if payload == [] then tail
    else
      var p := Min(|payload|, PIECE);
      Piece(toErr, payload[..p], PiecesOf(toErr, payload[p..], tail))
  }

  lemma {:induction false} ReadWholeFrame(payload: Bytes, rest: Bytes, toErr: bool)
    ensures ReadFrame(payload + rest, toErr, |payload|) == PiecesOf(toErr, payload, Read(rest))
  {
    if payload == [] {
      assert payload + rest == rest;
    } else {
      FirstPiece(payload, rest, toErr);
      ReadWholeFrame(payload[Min(|payload|, PIECE)..], rest, toErr);
    }
  }

  /** A frame that fits whole is kept whole, in as many pieces as it takes. */
  lemma {:induction false} FittingFrame(payload: Bytes, tail: Pieces, toErr: bool, used: nat)
    requires used + |payload| <= MAX_OUTPUT
    ensures Join(Kept(PiecesOf(toErr, payload, tail), used), toErr)
            == payload + Join(Kept(tail, used + |payload|), toErr)
  {
    if payload != [] {
      var p := Min(|payload|, PIECE);
      FittingFrame(payload[p..], tail, toErr, used + p);
      assert payload == payload[..p] + payload[p..];
      Associate(payload[..p], payload[p..], Join(Kept(tail, used + |payload|), toErr));
    }
  }

  /** A small frame that does not fit is dropped whole. */
  lemma DroppedFrame(f: Frame, rest: Bytes, used: nat)
    requires 0 < |f.payload| <= 65536 && used + |f.payload| > 524288
    ensures Kept(Read(Header(f) + (f.payload + rest)), used) == Kept(Read(rest), used)
  {
    AfterHeader(f, rest);
    assert ReadFrame(rest, f.toErr, 0) == Read(rest);
  }

  lemma KeptFrame(f: Frame, rest: Bytes, used: nat)
    requires Sendable(f) && used + |f.payload| <= MAX_OUTPUT
    ensures Join(Kept(Read(Header(f) + (f.payload + rest)), used), f.toErr)
            == f.payload + Join(Kept(Read(rest), used + |f.payload|), f.toErr)
  {
    AfterHeader(f, rest);
    assert Read(Header(f) + (f.payload + rest)) == ReadFrame(f.payload + rest, f.toErr, |f.payload|);
    ReadWholeFrame(f.payload, rest, f.toErr);
    FittingFrame(f.payload, Read(rest), f.toErr, used);
  }

  const TWO: Frame := Frame(false, [1, 1])
  const ONE: Frame := Frame(false, [2])

  /** A later, smaller frame is still written after a larger one was dropped, so
      truncated output need not be a prefix of the full output. */
  lemma TruncatedNotPrefix(fill: Bytes)
    requires |fill| == MAX_OUTPUT - 1
    ensures var s := Encode([Frame(false, fill), TWO, ONE]);
            Demux(s).out == fill + [2] && Plain(s, false) == fill + ([1, 1] + [2])
  {
    FullOutput(fill);
    KeptOutput(fill);
    DemuxIsKept(Encode([Frame(false, fill), TWO, ONE]));
  }

  lemma FullOutput(fill: Bytes)
    requires |fill| == MAX_OUTPUT - 1
    ensures Plain(Encode([Frame(false, fill), TWO, ONE]), false) == fill + ([1, 1] + [2])
  {
    var fs := [Frame(false, fill), TWO, ONE];
    PlainOfEncoded(fs, false);
    assert fs[1..] == [TWO, ONE] && [TWO, ONE][1..] == [ONE] && [ONE][1..] == [];
    assert Payloads([ONE], false) == [2] + [] == [2];
    assert Payloads([TWO, ONE], false) == [1, 1] + Payloads([ONE], false);
  }

  lemma KeptOutput(fill: Bytes)
    requires |fill| == MAX_OUTPUT - 1
    ensures Join(Kept(Read(Encode([Frame(false, fill), TWO, ONE])), 0), false) == fill + [2]
  {
    var a := Frame(false, fill);
    assert [a, TWO, ONE][1..] == [TWO, ONE] && [TWO, ONE][1..] == [ONE];
    KeptFrame(a, Encode([TWO, ONE]), 0);
    DroppedFrame(TWO, Encode([ONE]), |fill|);
    LastByte(ONE, |fill|);
  }

  lemma LastByte(c: Frame, used: nat)
    requires c == Frame(false, [2]) && used + 1 <= MAX_OUTPUT
    ensures Join(Kept(Read(Encode([c])), used), false) == [2]
  {
    KeptFrame(c, [], used);
    assert [c][1..] == [];
    assert Encode([c]) == Header(c) + (c.payload + []);
    assert c.payload + [] == [2];
  }

  // ---- The loops --------------------------------------------------------------------------------

  /** The attached stream. A read error is where its bytes end. */
  class Reader {
    const data: Bytes
    var pos: nat

    constructor (data: Bytes)
      ensures this.data == data && pos == 0
    {
      this.data, pos := data, 0;
    }

    ghost predicate Valid()
      reads this
    {
      pos <= |data|
    }

    ghost function Left(): Bytes
      requires Valid()
      reads this
    {
      data[pos..]
    }

    /** io.ReadFull: n bytes, or an error with however many were left. */
    method ReadFull(n: nat) returns (chunk: Bytes, err: bool)
      requires Valid()
      modifies this
      ensures Valid()
      ensures err <==> |old(Left())| < n
      ensures chunk == if err then old(Left()) else old(Left())[..n]
      ensures Left() == old(Left())[|chunk|..]
    {
      if |data| - pos < n {
        chunk, err := data[pos..], true;
        pos := |data|;
      } else {
        chunk, err := data[pos..pos + n], false;
        pos := pos + n;
      }
    }
  }

  method DemuxExecStream(r: Reader) returns (res: Captured)
    requires r.Valid()
    modifies r
    ensures res == Demux(old(r.Left()))
  {
    res := Captured([], [], false);
    ghost var goal := Demux(r.Left());
    while true
      invariant r.Valid() && Capture(Read(r.Left()), res) == goal
      decreases |r.Left()|
    {
      var header, herr := r.ReadFull(8);
      if herr {
        return;
      }
      var err;
      res, err := DemuxFrame(r, header[0] == 2, FrameSize(header), res);
      if err {
        return;
      }
    }
  }

  /** The inner loop: one frame's payload; err when the stream ended inside it. */
  method DemuxFrame(r: Reader, toErr: bool, frameSize: nat, before: Captured) returns (res: Captured, err: bool)
    requires r.Valid()
    modifies r
    ensures r.Valid() && |r.Left()| <= old(|r.Left()|)
    ensures Capture(ReadFrame(old(r.Left()), toErr, frameSize), before)
            == if err then res else Capture(Read(r.Left()), res)
  {
    res, err := before, false;
    var size: nat := frameSize;
    ghost var goal := Capture(ReadFrame(r.Left(), toErr, size), before);
    while size > 0
      invariant r.Valid() && |r.Left()| <= old(|r.Left()|)
      invariant Capture(ReadFrame(r.Left(), toErr, size), res) == goal
    {
      var n := size;
      if n > PIECE {
        n := PIECE;
      }
      ghost var s := r.Left();
      var chunk, rerr := r.ReadFull(n);
      assert ReadFrame(s, toErr, size)
             == Piece(toErr, chunk, if rerr then End else ReadFrame(s[n..], toErr, size - n));
      if |res.out| + |res.err| + |chunk| <= MAX_OUTPUT {
        if toErr {
          res := res.(err := res.err + chunk);
        } else {
          res := res.(out := res.out + chunk);
        }
      } else {
        res := res.(truncated := true);
      }
      if rerr {
        return res, true;
      }
      size := size - |chunk|;
    }
  }
}
