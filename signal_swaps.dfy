/**
 * The byte swaps of ANALOG and NAD payloads undo themselves when the
 * signals occupy disjoint bytes: encoding a sample and decoding the
 * result gives the application's bytes back.
 */
module SignalSwaps {
  import opened Types
  import opened Swaps
  import opened CircularBuffer
  import opened StreamWire

  /** Two regions share no byte. */
  predicate Disjoint(a: Region, b: Region)
  {
    a.offset + a.length <= b.offset || b.offset + b.length <= a.offset
  }

  /** Every signal has a region and no two regions share a byte. */
  predicate DisjointSignals(kind: int, sigs: seq<SignalLayout>)
  {
    (forall i | 0 <= i < |sigs| :: SignalRegion(kind, sigs[i]).Some?) &&
    (forall i, j | 0 <= i < j < |sigs| ::
       Disjoint(SignalRegion(kind, sigs[i]).value, SignalRegion(kind, sigs[j]).value))
  }

  /** Whether a region can be swapped depends only on the payload length. */
  lemma SwapRegionByLength(p: seq<Byte>, p': seq<Byte>, r: Region)
    requires r.width > 0 && |p| == |p'|
    ensures SwapRegion(p, r).Some? <==> SwapRegion(p', r).Some?
  {
  }

  /** Whether the signals can be swapped depends only on the payload length. */
  lemma {:induction false} SwapSignalsByLength(p: seq<Byte>, p': seq<Byte>, kind: int, sigs: seq<SignalLayout>)
    requires |p| == |p'|
    ensures SwapSignals(p, kind, sigs).Some? <==> SwapSignals(p', kind, sigs).Some?
    decreases |sigs|
  {
    if sigs != [] && SignalRegion(kind, sigs[0]).Some? {
      var r := SignalRegion(kind, sigs[0]).value;
      if SwapRegion(p, r).Some? {
        SwapSignalsByLength(SwapRegion(p, r).value, SwapRegion(p', r).value, kind, sigs[1..]);
      }
    }
  }

  /** Swapping one region twice gives the payload back. */
  lemma SwapRegionInvolution(p: seq<Byte>, r: Region)
    requires r.width > 0 && SwapRegion(p, r).Some?
    ensures SwapRegion(SwapRegion(p, r).value, r) == Some(p)
  {
    if r.offset + r.length <= |p| {
      var a, x, c := p[..r.offset], p[r.offset..r.offset + r.length], p[r.offset + r.length..];
      assert p == a + x + c;
      SwapRegionOfParts(a, x, c, r);
      var y := SwapAll(x, r.width);
      SwapRegionOfParts(a, y, c, r);
      SwapAllInvolution(x, r.width);
    }
  }

  /** Swapping a region that is exactly the middle part of a payload swaps that part. */
  lemma SwapRegionOfParts(a: seq<Byte>, x: seq<Byte>, c: seq<Byte>, r: Region)
    requires r.width > 0 && |a| == r.offset && |x| == r.length
    ensures SwapRegion(a + x + c, r) == Some(a + SwapAll(x, r.width) + c)
  {
    Splice(a, x, c);
  }

  /** A swapped region leaves every byte outside it as it was. */
  lemma SwapRegionOutside(p: seq<Byte>, r: Region, j: nat)
    requires r.width > 0 && r.offset + r.length <= |p| && j < |p|
    requires j < r.offset || j >= r.offset + r.length
    ensures SwapRegion(p, r).value[j] == p[j]
  {
  }

  /** Inside a swapped region, the bytes are those of the region swapped. */
  lemma SwapRegionInside(p: seq<Byte>, r: Region, j: nat)
    requires r.width > 0 && r.offset <= j < r.offset + r.length <= |p|
    ensures SwapRegion(p, r).value[j] == SwapAll(p[r.offset..r.offset + r.length], r.width)[j - r.offset]
  {
  }

  /** A swap leaves the bytes of a disjoint region as they were. */
  lemma SwapRegionKeeps(p: seq<Byte>, r: Region, s: Region)
    requires r.width > 0 && r.offset + r.length <= |p| && s.offset + s.length <= |p| && Disjoint(r, s)
    ensures SwapRegion(p, r).value[s.offset..s.offset + s.length] == p[s.offset..s.offset + s.length]
  {
    var q := SwapRegion(p, r).value;
    forall j | s.offset <= j < s.offset + s.length
      ensures q[j] == p[j]
    {
      SwapRegionOutside(p, r, j);
    }
  }

  /** Swaps of disjoint regions can be done in either order. */
  lemma SwapRegionsCommute(p: seq<Byte>, a: Region, b: Region)
    requires a.width > 0 && b.width > 0 && Disjoint(a, b)
    requires SwapRegion(p, a).Some? && SwapRegion(p, b).Some?
    ensures SwapRegion(SwapRegion(p, a).value, b).Some? && SwapRegion(SwapRegion(p, b).value, a).Some?
    ensures SwapRegion(SwapRegion(p, a).value, b).value == SwapRegion(SwapRegion(p, b).value, a).value
  {
    var pa, pb := SwapRegion(p, a).value, SwapRegion(p, b).value;
    SwapRegionByLength(p, pa, b);
    SwapRegionByLength(p, pb, a);
    if a.offset + a.length <= |p| && b.offset + b.length <= |p| {
      SwapFittingCommute(p, a, b);
    }
  }

  lemma SwapFittingCommute(p: seq<Byte>, a: Region, b: Region)
    requires a.width > 0 && b.width > 0 && Disjoint(a, b)
    requires a.offset + a.length <= |p| && b.offset + b.length <= |p|
    ensures SwapRegion(SwapRegion(p, a).value, b).value == SwapRegion(SwapRegion(p, b).value, a).value
  {
    var pa, pb := SwapRegion(p, a).value, SwapRegion(p, b).value;
    var ab, ba := SwapRegion(pa, b).value, SwapRegion(pb, a).value;
    SwapRegionKeeps(p, a, b);
    SwapRegionKeeps(p, b, a);
    forall j | 0 <= j < |p|
      ensures ab[j] == ba[j]
    {
      if a.offset <= j < a.offset + a.length {
        SwapRegionOutside(pa, b, j);
        SwapRegionInside(p, a, j);
        SwapRegionInside(pb, a, j);
      } else if b.offset <= j < b.offset + b.length {
        SwapRegionOutside(pb, a, j);
        SwapRegionInside(p, b, j);
        SwapRegionInside(pa, b, j);
      } else {
        SwapRegionOutside(pa, b, j);
        SwapRegionOutside(p, a, j);
        SwapRegionOutside(pb, a, j);
        SwapRegionOutside(p, b, j);
      }
    }
  }

  /** A region disjoint from every signal can be swapped before the signals as well as after. */
  lemma {:induction false} SwapRegionPastSignals(p: seq<Byte>, r: Region, kind: int, sigs: seq<SignalLayout>)
    requires r.width > 0 && SwapRegion(p, r).Some? && SwapSignals(p, kind, sigs).Some?
    requires forall i | 0 <= i < |sigs| :: SignalRegion(kind, sigs[i]).Some? && Disjoint(r, SignalRegion(kind, sigs[i]).value)
    ensures SwapSignals(SwapRegion(p, r).value, kind, sigs).Some?
    ensures SwapRegion(SwapSignals(p, kind, sigs).value, r) == SwapSignals(SwapRegion(p, r).value, kind, sigs)
    decreases |sigs|
  {
    var pr := SwapRegion(p, r).value;
    SwapSignalsByLength(p, pr, kind, sigs);
    if sigs == [] {
    } else {
      var s := SignalRegion(kind, sigs[0]).value;
      assert Disjoint(r, s);
      var ps := SwapRegion(p, s).value;
      SwapRegionsCommute(p, r, s);
      SwapRegionByLength(p, ps, r);
      assert forall i | 0 <= i < |sigs[1..]| :: sigs[1..][i] == sigs[i + 1];
      SwapRegionPastSignals(ps, r, kind, sigs[1..]);
    }
  }

  /** With disjoint signals, the swaps of the encoder and of the decoder cancel out. */
  lemma {:induction false} SwapSignalsInvolution(p: seq<Byte>, kind: int, sigs: seq<SignalLayout>)
    requires DisjointSignals(kind, sigs) && SwapSignals(p, kind, sigs).Some?
    ensures SwapSignals(SwapSignals(p, kind, sigs).value, kind, sigs) == Some(p)
    decreases |sigs|
  {
    if sigs != [] {
      var r := SignalRegion(kind, sigs[0]).value;
      var rest := sigs[1..];
      assert DisjointSignals(kind, rest) by {
        assert forall i | 0 <= i < |rest| :: rest[i] == sigs[i + 1];
      }
      assert forall i | 0 <= i < |rest| :: SignalRegion(kind, rest[i]).Some? && Disjoint(r, SignalRegion(kind, rest[i]).value) by {
        assert forall i | 0 <= i < |rest| :: rest[i] == sigs[i + 1];
      }
      var q := SwapRegion(p, r).value;
      var u := SwapSignals(q, kind, rest).value;
      assert SwapSignals(p, kind, sigs).value == u;
      SwapRegionByLength(p, u, r);
      SwapRegionByLength(p, q, r);
      // Swapping r again on u moves in front of the remaining signals and cancels the first swap.
      SwapRegionPastSignals(q, r, kind, rest);
      SwapRegionInvolution(p, r);
      assert SwapRegion(u, r) == SwapSignals(p, kind, rest);
      SwapSignalsInvolution(p, kind, rest);
      assert SwapSignals(p, kind, rest).Some?;
    }
  }

  /** A layout of disjoint ANALOG or NAD signals meets the round-trip condition for every swappable payload. */
  lemma DisjointSignalsUndo(cfg: StreamConfig, p: seq<Byte>)
    requires (cfg.kind == STREAM_ANALOG || cfg.kind == STREAM_NAD) && DisjointSignals(cfg.kind, cfg.signals)
    requires SwapPayload(cfg, p).Some?
    ensures SwapsUndo(cfg, p)
  {
    SwapSignalsInvolution(p, cfg.kind, cfg.signals);
  }

  /** Every VNAD payload the walk accepts meets the round-trip condition. */
  lemma VnadUndo(cfg: StreamConfig, p: seq<Byte>)
    requires cfg.kind == STREAM_VNAD && SwapPayload(cfg, p).Some?
    ensures SwapsUndo(cfg, p)
  {
    VnadSwapInvolution(p, cfg.signals);
  }
}
