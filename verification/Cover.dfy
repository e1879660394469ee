/** Cover traffic: the interval derived from a bitrate, and the periodic scheduler. */
module Cover {
  import opened Bytes
  import opened Net
  import Codec

  const MIN_COVER_INTERVAL_NANOS: nat := 21_762
  const BITS_PER_PACKET: nat := Codec.PACKET_SIZE * 8
  const PACKET_NANOBITS: nat := BITS_PER_PACKET * 1_000_000_000
  const MAX_COVER_RATE_BPS: nat := PACKET_NANOBITS / MIN_COVER_INTERVAL_NANOS

  /** The exact quotient, before the floor is applied. */
  function Quotient(rate: u64): nat { Min(PACKET_NANOBITS, U64_MAX) / Max(rate, 1) }

  function IntervalFromRate(rate: u64): nat { Max(Quotient(rate), MIN_COVER_INTERVAL_NANOS) }

  lemma ProductLe(a: nat, b: nat, d: nat)
    requires a <= b
    ensures a * d <= b * d
  {}

  lemma QuotientAtLeast(n: nat, d: nat, m: nat)
    requires d > 0
    ensures n / d >= m <==> m * d <= n
  {
    var q := n / d;
    assert n == q * d + n % d;
    if m <= q {
      ProductLe(m, q, d);
    } else {
      ProductLe(q + 1, m, d);
      assert (q + 1) * d == q * d + d;
    }
  }

  lemma DividesDown(n: nat, a: nat, b: nat)
    requires 0 < a <= b
    ensures n / b <= n / a
  {
    var q := n / b;
    QuotientAtLeast(n, b, q);
    ProductLe(a, b, q);
    QuotientAtLeast(n, a, q);
  }

  /** The quotient reaches `d` exactly for divisors up to `n / d`. */
  lemma QuotientReaches(n: nat, r: nat, d: nat)
    requires r > 0 && d > 0
    ensures n / r >= d <==> r <= n / d
  {
    QuotientAtLeast(n, r, d);
    QuotientAtLeast(n, d, r);
  }

  /** A faster rate never lengthens the interval, and the floor never lets it vanish. */
  lemma IntervalAntitone(slow: u64, fast: u64)
    requires slow <= fast
    ensures MIN_COVER_INTERVAL_NANOS <= IntervalFromRate(fast) <= IntervalFromRate(slow)
  {
    DividesDown(PACKET_NANOBITS, Max(slow, 1), Max(fast, 1));
  }

  /** The floor leaves the quotient alone exactly for rates up to the advertised maximum. */
  lemma ClampInactiveUpToMax(rate: u64)
    ensures IntervalFromRate(rate) == Quotient(rate) <==> rate <= MAX_COVER_RATE_BPS
  {
    QuotientReaches(PACKET_NANOBITS, Max(rate, 1), MIN_COVER_INTERVAL_NANOS);
    assert 1 <= MAX_COVER_RATE_BPS;
  }

  /**
   * One 1280-byte packet per interval is the requested rate, to within what the whole nanoseconds
   * of the interval round off: the interval is the longest that still meets it.
   */
  lemma RateIsMet(rate: u64)
    requires 1 <= rate <= MAX_COVER_RATE_BPS
    ensures IntervalFromRate(rate) * rate <= 1280 * 8 * 1_000_000_000 < (IntervalFromRate(rate) + 1) * rate
  {
    ClampInactiveUpToMax(rate);
    var q := Quotient(rate);
    assert q == PACKET_NANOBITS / rate;
    QuotientAtLeast(PACKET_NANOBITS, rate, q);
    QuotientAtLeast(PACKET_NANOBITS, rate, q + 1);
  }

  /** Beyond that the interval stays at the floor; and no rate at all counts as one bit per second. */
  lemma EdgeRates(rate: u64)
    ensures rate > MAX_COVER_RATE_BPS ==> IntervalFromRate(rate) == 21_762
    ensures IntervalFromRate(0) == IntervalFromRate(1) == 10_240_000_000_000
    ensures IntervalFromRate(2_000_000) == 5_120_000
  {
    ClampInactiveUpToMax(rate);
  }

  // ---------------------------------------------------------------------
  // The scheduler
  // ---------------------------------------------------------------------

  datatype Policy = Policy(enabled: bool, interval: nat)

  datatype Op = Start(now: Instant) | Stop(now: Instant) | Deadline(now: Instant)

  function After(p: Policy, next: Option<Instant>, op: Op): Option<Instant> {
    match op
    case Start(now) => if next.None? && p.enabled then Some(now + p.interval) else next
    case Stop(_) => None
    case Deadline(now) =>
      if !p.enabled then None
      else if next.Some? && now >= next.value then Some(now + p.interval)
      else next
  }

  predicate Emits(p: Policy, next: Option<Instant>, op: Op) {
    op.Deadline? && p.enabled && next.Some? && op.now >= next.value
  }

  class CoverScheduler {
    const policy: Policy
    var next: Option<Instant>

    constructor (policy: Policy)
      ensures this.policy == policy && next == None
    {
      this.policy := policy;
      next := None;
    }

    method Begin(now: Instant)
      modifies this`next
      ensures next == After(policy, old(next), Start(now))
    {
      if next.None? && policy.enabled {
        next := Some(now + policy.interval);
      }
    }

    method Halt(now: Instant)
      modifies this`next
      ensures next == After(policy, old(next), Stop(now))
    {
      next := None;
    }

    method OnDeadline(now: Instant) returns (emit: bool)
      modifies this`next
      ensures next == After(policy, old(next), Deadline(now)) && emit == Emits(policy, old(next), Deadline(now))
    {
      if !policy.enabled {
        next := None;
        return false;
      }
      if next.None? {
        return false;
      }
      if now >= next.value {
        next := Some(now + policy.interval);
        return true;
      }
      return false;
    }
  }

  /** The clock does not run backwards. */
  ghost predicate Timed(ops: seq<Op>, start: Instant) {
    ops == [] || (start <= ops[0].now && Timed(ops[1..], ops[0].now))
  }

  /** The instants at which a run emits, in order. */
  ghost function Emissions(p: Policy, next: Option<Instant>, ops: seq<Op>): seq<Instant>
    decreases |ops|
  {
    if ops == [] then []
    else (if Emits(p, next, ops[0]) then [ops[0].now] else []) + Emissions(p, After(p, next, ops[0]), ops[1..])
  }

  /** Nothing is due before `t`. */
  ghost predicate NotBefore(next: Option<Instant>, t: Instant) { next.Some? ==> t <= next.value }

  ghost predicate Spaced(es: seq<Instant>, gap: nat) {
    forall i, j | 0 <= i < j < |es| :: es[i] + gap <= es[j]
  }

  /** With nothing due before `t`, and `t` at most one interval off, every emission is at or after `t`, a full interval apart. */
  lemma {:induction false} EmissionsSpaced(p: Policy, next: Option<Instant>, ops: seq<Op>, now: Instant, t: Instant)
    requires Timed(ops, now) && NotBefore(next, t) && t <= now + p.interval
    ensures forall i | 0 <= i < |Emissions(p, next, ops)| :: t <= Emissions(p, next, ops)[i]
    ensures Spaced(Emissions(p, next, ops), p.interval)
    decreases |ops|
  {
    if ops != [] {
      var op := ops[0];
      var next' := After(p, next, op);
      if Emits(p, next, op) {
        EmissionsSpaced(p, next', ops[1..], op.now, op.now + p.interval);
      } else {
        EmissionsSpaced(p, next', ops[1..], op.now, t);
      }
    }
  }

  lemma {:induction false} SpacedCount(es: seq<Instant>, gap: nat, from: Instant, to: Instant)
    requires Spaced(es, gap) && from <= to && forall i | 0 <= i < |es| :: from + gap <= es[i] <= to
    ensures |es| * gap <= to - from
  {
    if es != [] {
      var n := |es| - 1;
      var init := es[..n];
      if n > 0 {
        assert es[n - 1] + gap <= es[n];
        forall i | 0 <= i < n ensures init[i] <= es[n] - gap { assert es[i] + gap <= es[n]; }
      }
      SpacedCount(init, gap, from, es[n] - gap);
      assert |es| * gap == n * gap + gap;
    }
  }

  /**
   * Whatever the driver calls, emissions are at least one interval apart, and within
   * `span` of a start at most `span / interval` of them happen.
   */
  lemma RateIsBounded(p: Policy, ops: seq<Op>, start: Instant, span: nat)
    requires p.interval > 0 && Timed(ops, start) && forall i | 0 <= i < |ops| :: ops[i].now <= start + span
    ensures var es := Emissions(p, After(p, None, Start(start)), ops);
            Spaced(es, p.interval) && |es| <= span / p.interval
  {
    var next := After(p, None, Start(start));
    var es := Emissions(p, next, ops);
    EmissionsSpaced(p, next, ops, start, start + p.interval);
    EmissionsAreOps(p, next, ops, start + span);
    SpacedCount(es, p.interval, start, start + span);
    QuotientAtLeast(span, p.interval, |es|);
  }

  lemma {:induction false} EmissionsAreOps(p: Policy, next: Option<Instant>, ops: seq<Op>, end: Instant)
    requires forall i | 0 <= i < |ops| :: ops[i].now <= end
    ensures forall i | 0 <= i < |Emissions(p, next, ops)| :: Emissions(p, next, ops)[i] <= end
    decreases |ops|
  {
    if ops != [] { EmissionsAreOps(p, After(p, next, ops[0]), ops[1..], end); }
  }

  /** A disabled policy never emits. */
  lemma {:induction false} DisabledIsSilent(p: Policy, next: Option<Instant>, ops: seq<Op>)
    requires !p.enabled
    ensures Emissions(p, next, ops) == []
    decreases |ops|
  {
    if ops != [] { DisabledIsSilent(p, After(p, next, ops[0]), ops[1..]); }
  }

  /** The wake-ups of a driver that is never late. */
  ghost function Punctual(p: Policy, start: Instant, n: nat): (ops: seq<Op>)
    ensures |ops| == n
    decreases n
  {
    if n == 0 then [] else [Deadline(start + p.interval)] + Punctual(p, start + p.interval, n - 1)
  }

  ghost function Beats(p: Policy, start: Instant, n: nat): seq<Instant> {
    seq(n, i requires 0 <= i < n => start + (i + 1) * p.interval)
  }

  lemma OneBeatLater(p: Policy, start: Instant, i: nat)
    ensures (start + p.interval) + i * p.interval == start + (i + 1) * p.interval
  {}

  /** A driver that is never late emits exactly one packet per interval. */
  lemma {:induction false} PunctualDriver(p: Policy, start: Instant, n: nat)
    requires p.enabled
    ensures Emissions(p, Some(start + p.interval), Punctual(p, start, n)) == Beats(p, start, n)
    decreases n
  {
    if n > 0 {
      var next := start + p.interval;
      PunctualDriver(p, next, n - 1);
      var ops, es := Punctual(p, start, n), Beats(p, start, n);
      assert ops[0] == Deadline(next) && ops[1..] == Punctual(p, next, n - 1);
      var later := [next] + Beats(p, next, n - 1);
      forall i | 0 <= i < n ensures later[i] == es[i] {
        if i > 0 { OneBeatLater(p, start, i); }
      }
      assert es == later;
    }
  }
}
