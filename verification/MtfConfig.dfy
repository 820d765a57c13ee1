/**
 The configuration checks shared by the cursor's constructor and the historical slice
 (app/market/multitimeframe.py), and the digests both report.

 A digest is modelled by what was hashed: its header and the candles fed to it.
 */
module MtfConfig {
  import opened Wrappers
  import opened Sequences
  import opened Timeframes
  import opened Buckets
  import opened Candles
  import opened Resampling
  import opened BatchResampler

  datatype Digest = Digest(header: string, log: seq<Candle>)

  const SOURCE_HEADER := "money-heist.visible-source-candles.v1"
  const SERIES_HEADER := "money-heist.incremental-mtf-series.v1:"

  /** `_series_fingerprint`. */
  function SeriesFingerprint(candles: seq<Candle>): Digest {
    Digest(SOURCE_HEADER, candles)
  }

  // ---------------------------------------------------------------- configuration

  datatype Config = Config(source: string, targets: seq<string>, policy: string)

  function NormalizeAll(names: seq<string>): (r: seq<string>)
    ensures |r| == |names| && forall i | 0 <= i < |names| :: r[i] == Normalize(names[i])
  {
    seq(|names|, i requires 0 <= i < |names| => Normalize(names[i]))
  }

  function TargetFault(target: string, d: int): Option<MtfError>
    requires d > 0
  {
    var span := Interval(target);
    if span.None? then Some(UnsupportedTimeframe(target))
    else if span.value < d then Some(TargetTooSmall(target))
    else if span.value % d != 0 then Some(TargetNotMultiple(target))
    else None
  }

  function TargetsFault(targets: seq<string>, d: int): (r: Option<MtfError>)
    requires d > 0
    ensures r.Some? ==> r.value.UnsupportedTimeframe? || r.value.TargetTooSmall? || r.value.TargetNotMultiple?
  {
    if targets == [] then None
    else
      var fault := TargetFault(targets[0], d);
      if fault.Some? then fault else TargetsFault(targets[1..], d)
  }

  lemma {:induction false} TargetsFaultNone(targets: seq<string>, d: int)
    requires d > 0
    ensures TargetsFault(targets, d).None? <==> forall i | 0 <= i < |targets| :: TargetFault(targets[i], d).None?
  {
    if targets != [] {
      TargetsFaultNone(targets[1..], d);
      if TargetFault(targets[0], d).None? && TargetsFault(targets[1..], d).None? {
        forall i | 0 <= i < |targets| ensures TargetFault(targets[i], d).None? {
          if i > 0 { assert targets[i] == targets[1..][i - 1]; }
        }
      }
    }
  }

  /** The checks of the constructor, in its order. */
  function ConfigFault(c: Config): (r: Option<MtfError>)
    ensures r.None? ==> Interval(c.source).Some? && NoRepeats(c.targets)
  {
    var d := Interval(c.source);
    if d.None? then Some(UnsupportedTimeframe(c.source))
    else if c.targets == [] then Some(NoTargets)
    else if "" in c.targets then Some(BlankTarget)
    else if !NoRepeats(c.targets) then Some(DuplicateTargets)
    else if c.policy == "" then Some(BlankPolicy)
    else TargetsFault(c.targets, d.value)
  }

  // ---------------------------------------------------------------- what the checks mean

  /** A label whose interval is a multiple of the source interval `d`. */
  ghost predicate Reachable(t: string, d: int)
    requires d > 0
  {
    exists span: int :: Denotes(t, span) && span >= d && span % d == 0
  }

  /** What a complaint about one target says. */
  ghost predicate TargetComplaint(t: string, d: int, e: MtfError)
    requires d > 0
  {
    match e
    case UnsupportedTimeframe(u) => u == t && forall span: int :: !Denotes(t, span)
    case TargetTooSmall(u) => u == t && exists span: int :: Denotes(t, span) && span < d
    case TargetNotMultiple(u) => u == t && exists span: int :: Denotes(t, span) && span > d && span % d != 0
    case _ => false
  }

  lemma TargetFaultExactly(t: string, d: int)
    requires d > 0 && Normalize(t) == t
    ensures TargetFault(t, d).None? <==> Reachable(t, d)
    ensures TargetFault(t, d).Some? ==> TargetComplaint(t, d, TargetFault(t, d).value)
  {
    hide Denotes, Interval, Normalize;
    IntervalMeans(t);
  }

  /** The complaint is about the first target that is not reachable. */
  ghost predicate FirstComplaint(targets: seq<string>, d: int, e: MtfError)
    requires d > 0
  {
    exists i | 0 <= i < |targets| ::
      TargetComplaint(targets[i], d, e) && forall j | 0 <= j < i :: Reachable(targets[j], d)
  }

  predicate AllNormalized(names: seq<string>) {
    forall i | 0 <= i < |names| :: Normalize(names[i]) == names[i]
  }

  lemma {:induction false} TargetsFaultExactly(targets: seq<string>, d: int)
    requires d > 0 && AllNormalized(targets)
    ensures TargetsFault(targets, d).None? <==> forall t | t in targets :: Reachable(t, d)
    ensures TargetsFault(targets, d).Some? ==> FirstComplaint(targets, d, TargetsFault(targets, d).value)
  {
    hide TargetFault, Reachable, TargetComplaint, Normalize;
    if targets != [] {
      TargetFaultExactly(targets[0], d);
      TargetsFaultExactly(targets[1..], d);
      assert targets == [targets[0]] + targets[1..];
      var e := TargetsFault(targets, d);
      if TargetFault(targets[0], d).None? && e.Some? {
        var i :| 0 <= i < |targets[1..]| && TargetComplaint(targets[1..][i], d, e.value)
                 && forall j | 0 <= j < i :: Reachable(targets[1..][j], d);
        forall j | 0 <= j < i + 1 ensures Reachable(targets[j], d) {
          if j > 0 { assert targets[j] == targets[1..][j - 1]; }
        }
        assert TargetComplaint(targets[i + 1], d, e.value);
      }
    }
  }

  /** Arguments that the checks let through on a source interval `d`. */
  ghost predicate Acceptable(targets: seq<string>, policy: string, d: int)
    requires d > 0
  {
    && targets != [] && "" !in targets && NoRepeats(targets) && policy != ""
    && forall t | t in targets :: Reachable(t, d)
  }

  ghost predicate Supported(text: string) {
    exists d: int :: Denotes(text, d)
  }

  /** What each complaint of the constructor says: the checks before it passed and this one did not. */
  ghost predicate ConfigComplaint(c: Config, e: MtfError) {
    if !Supported(c.source) then e == UnsupportedTimeframe(c.source)
    else
      match e
      case NoTargets => c.targets == []
      case BlankTarget => "" in c.targets
      case DuplicateTargets => "" !in c.targets && !NoRepeats(c.targets)
      case BlankPolicy => c.targets != [] && "" !in c.targets && NoRepeats(c.targets) && c.policy == ""
      case _ =>
        && c.targets != [] && "" !in c.targets && NoRepeats(c.targets) && c.policy != ""
        && exists d: int :: d > 0 && Denotes(c.source, d) && FirstComplaint(c.targets, d, e)
  }

  lemma IntervalPositive(spelling: string)
    ensures Interval(spelling).Some? ==> Interval(spelling).value > 0
  {
  }

  /** The constructor's checks, in terms of the labels alone. */
  lemma ConfigFaultExactly(c: Config)
    requires Normalize(c.source) == c.source && AllNormalized(c.targets)
    ensures ConfigFault(c).None? <==> exists d: int :: d > 0 && Denotes(c.source, d) && Acceptable(c.targets, c.policy, d)
    ensures ConfigFault(c).Some? ==> ConfigComplaint(c, ConfigFault(c).value)
  {
    hide Denotes, Interval, Normalize, FirstComplaint, Reachable, TargetsFault;
    IntervalMeans(c.source);
    IntervalPositive(c.source);
    if Interval(c.source).Some? { TargetsFaultExactly(c.targets, Interval(c.source).value); }
  }

  lemma AllAreNormalized(names: seq<string>)
    ensures AllNormalized(NormalizeAll(names))
  {
    forall i | 0 <= i < |names| ensures Normalize(NormalizeAll(names)[i]) == NormalizeAll(names)[i] {
      NormalizeIdempotent(names[i]);
    }
  }

  /** A usable target on a source interval `d`, with its span and candle count. */
  predicate Usable(target: string, d: int, n: nat, span: int) {
    Interval(target) == Some(span) && Fits(d, n, span) && (n == 1 <==> span == d)
  }

  function CountOf(target: string, d: int): nat
    requires d > 0 && TargetFault(target, d).None?
  {
    assert Interval(target).value / d >= 0;
    Interval(target).value / d
  }

  lemma UsableTarget(target: string, d: int)
    requires IsSpan(d) && TargetFault(target, d).None?
    ensures Usable(target, d, CountOf(target, d), Interval(target).value)
  {
    CountFits(d, Interval(target).value);
  }

  lemma AllUsable(c: Config, d: int)
    requires ConfigFault(c).None? && Interval(c.source) == Some(d)
    ensures forall t | t in c.targets ::
              TargetFault(t, d).None? && Interval(t).Some? && Usable(t, d, CountOf(t, d), Interval(t).value)
  {
    TargetsFaultNone(c.targets, d);
    forall t | t in c.targets
      ensures TargetFault(t, d).None? && Usable(t, d, CountOf(t, d), Interval(t).value)
    {
      UsableTarget(t, d);
    }
  }
}
