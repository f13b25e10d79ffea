/** The staleness sampler: which already-parsed token ids are skipped this run.

    `random.random()` is modelled as `draw`, where `draw(k)` is the value of the k-th call;
    the sampler calls it once per flagged id, in the order of `ids`. The float leak rate is
    an exact `real`. */
module Sampler {
  import opened Seqs

  /** What `leak_of_crawled_uri` ends with: the ids to keep (skip), or its assertion on the
      leak rate failing. */
  datatype Sample<T> = Kept(ids: seq<T>) | RateOutOfRange

  /** The leak rate computed for one address: 0 when nothing is flagged, otherwise
      `maxRecrawl / flagged` capped at 1. It is a valid probability exactly when nothing is
      flagged or the recrawl budget is not negative. */
  function LeakRate(maxRecrawl: int, flagged: nat): (rate: real)
    ensures flagged == 0 ==> rate == 0.0
    ensures flagged > 0 && maxRecrawl >= flagged ==> rate == 1.0
    ensures flagged > 0 && maxRecrawl < flagged ==> rate == maxRecrawl as real / flagged as real
    ensures (0.0 <= rate <= 1.0) <==> (flagged == 0 || maxRecrawl >= 0)
  {
    if flagged == 0 then 0.0
    else
      var r := maxRecrawl as real / flagged as real;
      QuotientSign(maxRecrawl, flagged);
      if r > 1.0 then 1.0 else r
  }

  /** Dividing by a positive count keeps the sign of the budget, and the quotient exceeds 1
      exactly when the budget exceeds the count. */
  lemma QuotientSign(m: int, n: nat)
    requires n > 0
    ensures (m as real / n as real >= 0.0) <==> m >= 0
    ensures (m as real / n as real > 1.0) <==> m > n
  {
    var q := m as real / n as real;
    assert q * n as real == m as real;
    assert (q - 1.0) * n as real == (m - n) as real;
    ProductSign(q, n as real);
    ProductSign(q - 1.0, n as real);
  }

  /** A product with a positive factor has the sign of the other factor. */
  lemma ProductSign(x: real, y: real)
    requires y > 0.0
    ensures x < 0.0 ==> x * y < 0.0
    ensures x >= 0.0 ==> x * y >= 0.0
    ensures x > 0.0 ==> x * y > 0.0
    ensures x <= 0.0 ==> x * y <= 0.0
  {
  }

  /** The ids kept by the sampler when its next random call is number `next`: an id that is
      not flagged is always kept; a flagged one is kept when its draw exceeds `rate`. */
  function Leak<T(==)>(ids: seq<T>, rate: real, flagged: seq<T>, draw: nat -> real, next: nat): seq<T>
  {
    if ids == [] then []
    else if ids[0] !in flagged then [ids[0]] + Leak(ids[1..], rate, flagged, draw, next)
    else (if draw(next) > rate then [ids[0]] else []) + Leak(ids[1..], rate, flagged, draw, next + 1)
  }

  /** `leak_of_crawled_uri`: asserts the rate is a probability, then walks `ids` once. */
  method LeakOfCrawledUri<T(==)>(ids: seq<T>, rate: real, flagged: seq<T>, draw: nat -> real)
    returns (s: Sample<T>)
    ensures s == if 0.0 <= rate <= 1.0 then Kept(Leak(ids, rate, flagged, draw, 0)) else RateOutOfRange
  {
    if !(0.0 <= rate <= 1.0) {
      return RateOutOfRange;
    }
    var result := [];
    var next := 0;
    for i := 0 to |ids|
      invariant result + Leak(ids[i..], rate, flagged, draw, next) == Leak(ids, rate, flagged, draw, 0)
    {
      var id := ids[i];
      LeakStep(result, ids, i, rate, flagged, draw, next);
      if id !in flagged {
        result := result + [id];
      } else {
        if draw(next) > rate {
          result := result + [id];
        }
        next := next + 1;
      }
    }
    assert ids[|ids|..] == [];
    return Kept(result);
  }

  /** One step of the sampler's walk at position `i` of `ids`, behind the ids kept so far. */
  lemma LeakStep<T>(kept: seq<T>, ids: seq<T>, i: nat, rate: real, flagged: seq<T>, draw: nat -> real, next: nat)
    requires i < |ids|
    ensures kept + Leak(ids[i..], rate, flagged, draw, next) ==
      (if ids[i] !in flagged || draw(next) > rate then kept + [ids[i]] else kept) +
      Leak(ids[i + 1..], rate, flagged, draw, if ids[i] in flagged then next + 1 else next)
  {
    assert ids[i..][1..] == ids[i + 1..];
  }

  /** The keep/leak decision the sampler takes at each position of `ids`. */
  ghost function LeakMask<T>(ids: seq<T>, rate: real, flagged: seq<T>, draw: nat -> real, next: nat): (keep: seq<bool>)
    ensures |keep| == |ids|
  {
    if ids == [] then []
    else if ids[0] !in flagged then [true] + LeakMask(ids[1..], rate, flagged, draw, next)
    else [draw(next) > rate] + LeakMask(ids[1..], rate, flagged, draw, next + 1)
  }

  /** The sampler selects positions of `ids` by `LeakMask`, which drops only flagged ids. */
  lemma {:induction false} LeakSelectsByMask<T>(ids: seq<T>, rate: real, flagged: seq<T>, draw: nat -> real, next: nat)
    ensures Leak(ids, rate, flagged, draw, next) == Select(ids, LeakMask(ids, rate, flagged, draw, next))
    ensures forall i :: 0 <= i < |ids| && !LeakMask(ids, rate, flagged, draw, next)[i] ==> ids[i] in flagged
  {
    if ids != [] {
      var next' := if ids[0] in flagged then next + 1 else next;
      LeakSelectsByMask(ids[1..], rate, flagged, draw, next');
      var keep := LeakMask(ids, rate, flagged, draw, next);
      assert keep[1..] == LeakMask(ids[1..], rate, flagged, draw, next');
      forall i | 0 <= i < |ids| && !keep[i]
        ensures ids[i] in flagged
      {
        if i > 0 {
          assert ids[i] == ids[1..][i - 1];
        }
      }
    }
  }

  /** The kept ids are `ids` with some flagged positions removed, in their original order:
      no new id appears and nothing is reordered. */
  lemma LeakIsSubsequence<T>(ids: seq<T>, rate: real, flagged: seq<T>, draw: nat -> real)
    ensures exists keep: seq<bool> ::
      |keep| == |ids| && Leak(ids, rate, flagged, draw, 0) == Select(ids, keep) &&
      forall i :: 0 <= i < |ids| && !keep[i] ==> ids[i] in flagged
  {
    LeakSelectsByMask(ids, rate, flagged, draw, 0);
    var keep := LeakMask(ids, rate, flagged, draw, 0);
    assert |keep| == |ids| && Leak(ids, rate, flagged, draw, 0) == Select(ids, keep);
  }

  /** Every kept id comes from `ids`, and every id that is not flagged is kept, whatever the
      draws and the rate: an unflagged id is never re-fetched. */
  lemma {:induction false} LeakKeepsUnflagged<T>(ids: seq<T>, rate: real, flagged: seq<T>, draw: nat -> real, next: nat)
    ensures forall x :: x in Leak(ids, rate, flagged, draw, next) ==> x in ids
    ensures forall x :: x in ids && x !in flagged ==> x in Leak(ids, rate, flagged, draw, next)
  {
    if ids != [] {
      var next' := if ids[0] in flagged then next + 1 else next;
      LeakKeepsUnflagged(ids[1..], rate, flagged, draw, next');
      assert forall x :: x in ids ==> x == ids[0] || x in ids[1..];
    }
  }

  /** The predicate "not flagged", as the function `Filter` takes. */
  function NotIn<T(==)>(flagged: seq<T>): T -> bool
  {
    x => x !in flagged
  }

  /** At rate 1 (the budget covers every flagged id) and draws in [0, 1), every flagged id
      leaks: the kept ids are exactly the unflagged ones, in order. */
  lemma {:induction false} LeakAtFullRate<T>(ids: seq<T>, flagged: seq<T>, draw: nat -> real, next: nat)
    requires forall k :: 0.0 <= draw(k) < 1.0
    ensures Leak(ids, 1.0, flagged, draw, next) == Filter(ids, NotIn(flagged))
  {
    if ids != [] {
      var next' := if ids[0] in flagged then next + 1 else next;
      LeakAtFullRate(ids[1..], flagged, draw, next');
    }
  }

  /** At rate 0 (no budget), and as long as no draw is exactly 0.0, nothing leaks: every
      already-parsed id is kept. A draw of 0.0, which `random.random()` can return, still
      leaks a flagged id, because the comparison is strict. */
  lemma {:induction false} LeakAtZeroRate<T>(ids: seq<T>, flagged: seq<T>, draw: nat -> real, next: nat)
    requires forall k :: draw(k) > 0.0
    ensures Leak(ids, 0.0, flagged, draw, next) == ids
  {
    if ids != [] {
      var next' := if ids[0] in flagged then next + 1 else next;
      LeakAtZeroRate(ids[1..], flagged, draw, next');
    }
  }

  /** The strict comparison at rate 0: one flagged id and a first draw of 0.0 leaks it. */
  lemma LeakAtZeroRateZeroDraw<T>(id: T, draw: nat -> real)
    requires draw(0) == 0.0
    ensures Leak([id], 0.0, [id], draw, 0) == []
  {
    assert [id][1..] == [];
  }
}
