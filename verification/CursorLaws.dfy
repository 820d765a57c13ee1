/**
 What the cursor emits and holds back over a whole history, for targets of any length.  A target of
 the source's own length is a case of its own: every candle is emitted and none is ever held.
 */
module CursorLaws {
  import opened Buckets
  import opened Candles
  import opened Resampling
  import opened ResampledLaws
  import opened BucketRuns
  import opened MtfCursor

  /** The candles in the cursor's pending bucket after `s`. */
  function Held(s: seq<Candle>, n: nat, span: int): seq<Candle>
    requires IsSpan(span)
  {
    var entry := PendingEntry(s, n, span);
    if entry.Some? then entry.value.1 else []
  }

  lemma HeldIsPending(s: seq<Candle>, n: nat, span: int)
    requires IsSpan(span)
    ensures Held(s, n, span) == if n == 1 then [] else Pending(s, span)
  {
  }

  /** Off its own grid a source emits nothing exactly for targets longer than itself, and every candle otherwise. */
  lemma MisalignedEmitsExactly(s: seq<Candle>, target: string, d: int, n: nat, span: int)
    requires Grid(s, d) && Fits(d, n, span) && !Aligned(s, d)
    ensures TargetSeries(s, target, n, span) == [] <==> n >= 2
    ensures n == 1 ==> TargetSeries(s, target, n, span) == Relabeled(s, target)
  {
    if n >= 2 { MisalignedEmitsNothing(s, target, d, n, span); }
  }

  /** And then some prefix leaves a full bucket's worth pending. */
  lemma LongHeld(s: seq<Candle>, d: int, n: nat, span: int)
    requires Grid(s, d) && Fits(d, n, span) && n >= 2 && |s| > n + n && !Aligned(s, d)
    ensures exists k :: 0 <= k <= |s| && |Held(s[..k], n, span)| == n
  {
    LongPending(s, d, n, span);
    var k :| 0 <= k <= |s| && |Pending(s[..k], span)| == n;
    HeldIsPending(s[..k], n, span);
    assert |Held(s[..k], n, span)| == n;
  }

  /**
   Over a run long enough to tell, the pending bucket stays shorter than the expected count exactly
   for aligned sources and for targets of the source's own length.
   */
  lemma PendingStaysShortExactly(s: seq<Candle>, d: int, n: nat, span: int)
    requires Grid(s, d) && Fits(d, n, span) && |s| > n + n
    ensures (forall k | 0 <= k <= |s| :: |Held(s[..k], n, span)| < n) <==> Aligned(s, d) || n == 1
  {
    if Aligned(s, d) || n == 1 {
      forall k | 0 <= k <= |s| ensures |Held(s[..k], n, span)| < n {
        HeldIsPending(s[..k], n, span);
        if n != 1 {
          GridSlice(s, d, 0, k);
          Conservation(s[..k], "", d, n, span);
        }
      }
    } else {
      LongHeld(s, d, n, span);
    }
  }

  /** How many source candles are neither emitted nor held. */
  function Lost(s: seq<Candle>, target: string, n: nat, span: int): int
    requires IsSpan(span) && n >= 1
  {
    |s| - Times(|TargetSeries(s, target, n, span)|, n) - |Held(s, n, span)|
  }

  /** A lost head and a held tail, both shorter than a bucket, and the emitted candles make up the source. */
  ghost predicate AccountsForAll(s: seq<Candle>, target: string, n: nat, span: int)
    requires IsSpan(span) && n >= 1
  {
    var out, held, lost := TargetSeries(s, target, n, span), Held(s, n, span), Lost(s, target, n, span);
    && |held| < n && held == s[|s| - |held|..]
    && 0 <= lost < n && lost <= |s|
    && TotalVolume(s) == TotalVolume(s[..lost]) + TotalVolume(out) + TotalVolume(held)
  }

  lemma {:induction false} RelabeledVolume(s: seq<Candle>, target: string)
    ensures TotalVolume(Relabeled(s, target)) == TotalVolume(s)
  {
    if s != [] {
      assert Relabeled(s, target)[1..] == Relabeled(s[1..], target);
      RelabeledVolume(s[1..], target);
    }
  }

  /** For those sources and targets every source candle and all volume is accounted for. */
  lemma CursorConserves(s: seq<Candle>, target: string, d: int, n: nat, span: int)
    requires Grid(s, d) && Fits(d, n, span) && (Aligned(s, d) || n == 1)
    ensures AccountsForAll(s, target, n, span)
  {
    HeldIsPending(s, n, span);
    if n == 1 {
      TimesIsProduct(|s|, 1);
      RelabeledVolume(s, target);
      hide Held, Relabeled, Times;
      assert |Relabeled(s, target)| == |s|;
      assert s[|s|..] == [];
    } else {
      hide Resampled, Pending;
      Conservation(s, target, d, n, span);
    }
  }

  /** Over a run long enough to tell, for no others. */
  lemma CursorConservesExactly(s: seq<Candle>, target: string, d: int, n: nat, span: int)
    requires Grid(s, d) && Fits(d, n, span) && |s| > n + n
    ensures AccountsForAll(s, target, n, span) <==> Aligned(s, d) || n == 1
  {
    if Aligned(s, d) || n == 1 {
      CursorConserves(s, target, d, n, span);
    } else {
      MisalignedEmitsExactly(s, target, d, n, span);
      TimesIsProduct(0, n);
    }
  }
}
