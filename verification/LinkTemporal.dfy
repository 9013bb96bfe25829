/** Half-life decay and reinforcement of a link's temporal weight. */
module LinkTemporal {
  import opened Results
  import opened Times
  import opened Uuids

  const DECAY_HALF_LIFE_HOURS: int := 45 * 24
  const RECENCY_HALF_LIFE_HOURS: int := 30 * 24
  const REINFORCEMENT_BOOST := 0.18

  datatype EngramLink = EngramLink(
    linkId: Uuid,
    sourceEngramId: Uuid,
    targetEngramId: Uuid,
    relationType: string,
    weight: real,
    temporalWeight: real,
    confidence: real,
    lastReinforcedAt: Option<Time>,
    createdAt: Time)

  function Clamp(value: real, low: real, high: real): real {
    if value < low then low else if value > high then high else value
  }

  function TemporalReference(link: EngramLink): Time {
    match link.lastReinforcedAt
    case Some(at) => if at != 0 then at else link.createdAt
    case None => link.createdAt
  }

  /** `decay(age, h)` stands for 2 to the power -(age / h), the age in nanoseconds and h in hours. */
  type Decay = (int, int) -> real

  function DecayByHalfLife(decay: Decay, age: int, halfLifeHours: int): (score: real)
    ensures 0.0 <= score <= 1.0
  {
    if age <= 0 then 1.0 else Clamp(decay(age, halfLifeHours), 0.0, 1.0)
  }

  function DecayedWeight(decay: Decay, now: Time, link: EngramLink): (weight: real)
    ensures 0.0 <= weight <= 1.0
  {
    var reference := TemporalReference(link);
    if reference == 0 then Clamp(link.temporalWeight, 0.0, 1.0)
    else
      Clamp(link.temporalWeight * DecayByHalfLife(decay, now - reference, DECAY_HALF_LIFE_HOURS), 0.0, 1.0)
  }

  function ReinforcedWeight(decay: Decay, now: Time, link: EngramLink): (weight: real)
    ensures 0.0 <= weight <= 1.0
  {
    Clamp(DecayedWeight(decay, now, link) + REINFORCEMENT_BOOST, 0.0, 1.0)
  }

  /** The update a reinforcement writes back. */
  function Reinforced(decay: Decay, now: Time, link: EngramLink): EngramLink {
    link.(temporalWeight := ReinforcedWeight(decay, now, link), lastReinforcedAt := Some(now))
  }

  function LinkRecency(decay: Decay, now: Time, link: EngramLink): (recency: real)
    ensures 0.0 <= recency <= 1.0
  {
    var reference := TemporalReference(link);
    if reference == 0 then 0.5
    else DecayByHalfLife(decay, now - reference, RECENCY_HALF_LIFE_HOURS)
  }

  // ----- properties -----

  /** The temporal decay over an age. */
  ghost function Factor(decay: Decay, age: int): real {
    decay(age, DECAY_HALF_LIFE_HOURS)
  }

  ghost predicate FactorSplits(decay: Decay, a: int, b: int) {
    Factor(decay, a + b) == Factor(decay, a) * Factor(decay, b)
  }

  ghost predicate FactorBounded(decay: Decay, a: int) {
    0.0 <= Factor(decay, a) <= 1.0
  }

  /** The laws of 2 to the power -(age / half life) on non-negative ages. */
  ghost predicate HalvingLaws(decay: Decay) {
    && Factor(decay, 0) == 1.0
    && Factor(decay, DECAY_HALF_LIFE_HOURS * NANOS_PER_HOUR) == 0.5
    && (forall a, b :: a >= 0 && b >= 0 ==> FactorSplits(decay, a, b))
    && (forall a :: a >= 0 ==> FactorBounded(decay, a))
  }

  /** Decay from `reference` to `now`. */
  ghost function DecaySince(decay: Decay, reference: Time, now: Time): real {
    Factor(decay, now - reference)
  }

  /** Decaying in two stages is decaying once. */
  lemma DecayComposes(decay: Decay, a: Time, b: Time, c: Time)
    requires HalvingLaws(decay) && a <= b <= c
    ensures DecaySince(decay, a, c) == DecaySince(decay, a, b) * DecaySince(decay, b, c)
    ensures 0.0 <= DecaySince(decay, a, b) <= 1.0
  {
    assert FactorSplits(decay, b - a, c - b);
    assert FactorBounded(decay, b - a);
    assert (b - a) + (c - b) == c - a;
  }

  /** The decayed weight before clamping. */
  ghost function RawWeight(decay: Decay, now: Time, link: EngramLink): real {
    var reference := TemporalReference(link);
    if reference == 0 || now <= reference then link.temporalWeight
    else link.temporalWeight * DecaySince(decay, reference, now)
  }

  lemma DecayedWeightOf(decay: Decay, now: Time, link: EngramLink)
    requires HalvingLaws(decay)
    ensures DecayedWeight(decay, now, link) == Clamp(RawWeight(decay, now, link), 0.0, 1.0)
  {
    var reference := TemporalReference(link);
    if reference < now {
      assert FactorBounded(decay, now - reference);
    }
  }

  /** A link counts from its last reinforcement; one never reinforced, or at no known instant, from its creation. */
  lemma CountsFromReference(link: EngramLink, at: Time)
    ensures at != 0 ==> TemporalReference(link.(lastReinforcedAt := Some(at))) == at
    ensures TemporalReference(link.(lastReinforcedAt := Some(0))) == link.createdAt
    ensures TemporalReference(link.(lastReinforcedAt := None)) == link.createdAt
  {
  }

  /** The laws of 2 to the power -(age / half life) that recency needs. */
  ghost predicate RecencyLaws(decay: Decay, hours: int) {
    && decay(0, hours) == 1.0
    && (forall age :: age >= 0 ==>
          0.0 <= decay(age, hours) <= 1.0 && decay(age + hours * NANOS_PER_HOUR, hours) == decay(age, hours) / 2.0)
  }

  /** Recency is 1 at the reference, halves with every thirty days from there, and is a half when nothing is known. */
  lemma RecencyHalves(decay: Decay, now: Time, link: EngramLink)
    requires RecencyLaws(decay, 30 * 24)
    ensures var reference, later := TemporalReference(link), now + 30 * 24 * 3600 * 1_000_000_000;
            if reference == 0 then LinkRecency(decay, now, link) == 0.5
            else if now <= reference then LinkRecency(decay, now, link) == 1.0
            else LinkRecency(decay, later, link) == LinkRecency(decay, now, link) / 2.0
    ensures 0 < TemporalReference(link) ==>
              LinkRecency(decay, TemporalReference(link) + 30 * 24 * 3600 * 1_000_000_000, link) == 0.5
  {
    assert 30 * 24 * NANOS_PER_HOUR == 30 * 24 * 3600 * 1_000_000_000;
    if TemporalReference(link) != 0 && now > TemporalReference(link) {
      assert decay(now - TemporalReference(link) + 30 * 24 * NANOS_PER_HOUR, 30 * 24)
          == decay(now - TemporalReference(link), 30 * 24) / 2.0;
    }
    assert decay(0 + 30 * 24 * NANOS_PER_HOUR, 30 * 24) == decay(0, 30 * 24) / 2.0;
  }

  /** Scaling by a factor in [0, 1] keeps the order of non-negative numbers. */
  lemma ScaleOrder(x: real, y: real, d: real)
    requires x <= y && 0.0 <= d
    ensures x * d <= y * d
  {
  }

  lemma RawWeightFalls(decay: Decay, link: EngramLink, now: Time, later: Time)
    requires HalvingLaws(decay) && now <= later && link.temporalWeight >= 0.0
    ensures RawWeight(decay, later, link) <= RawWeight(decay, now, link)
  {
    var r, w := TemporalReference(link), link.temporalWeight;
    if r != 0 && r < now {
      DecayComposes(decay, r, now, later);
      DecayComposes(decay, now, later, later);
      var d, e := DecaySince(decay, r, now), DecaySince(decay, now, later);
      ShrinkProduct(w, d, e);
      assert RawWeight(decay, later, link) == w * (d * e) && RawWeight(decay, now, link) == w * d;
    } else if r != 0 && r < later {
      DecayComposes(decay, r, later, later);
      ScaleOrder(DecaySince(decay, r, later), 1.0, w);
      assert DecaySince(decay, r, later) * w == w * DecaySince(decay, r, later);
    }
  }

  /** A weight in [0, 1] is halved by forty-five days without reinforcement. */
  lemma WeightHalves(decay: Decay, link: EngramLink, now: Time)
    requires HalvingLaws(decay) && 0 < TemporalReference(link) <= now && 0.0 <= link.temporalWeight <= 1.0
    ensures DecayedWeight(decay, now + 45 * 24 * 3600 * 1_000_000_000, link) == DecayedWeight(decay, now, link) / 2.0
  {
    var reference, later := TemporalReference(link), now + 45 * 24 * 3600 * 1_000_000_000;
    DecayedWeightOf(decay, now, link);
    DecayedWeightOf(decay, later, link);
    DecayComposes(decay, reference, now, later);
    assert later - now == DECAY_HALF_LIFE_HOURS * NANOS_PER_HOUR;
    HalvedProduct(link.temporalWeight, DecaySince(decay, reference, now));
  }

  lemma HalvedProduct(w: real, d: real)
    requires 0.0 <= w <= 1.0 && 0.0 <= d <= 1.0
    ensures 0.0 <= w * d <= 1.0
    ensures w * (d * 0.5) == (w * d) / 2.0
  {
    UnitProduct(w, d);
  }

  /** Reinforcement adds 0.18 to the weight that is left, up to 1. */
  lemma ReinforcementAdds(decay: Decay, now: Time, link: EngramLink)
    ensures var before, after := DecayedWeight(decay, now, link), ReinforcedWeight(decay, now, link);
            if before <= 0.82 then after - before == 0.18 else after == 1.0
  {
  }

  /** Without reinforcement the weight only falls as time passes. */
  lemma DecayIsAntitone(decay: Decay, link: EngramLink, now: Time, later: Time)
    requires HalvingLaws(decay) && now <= later && link.temporalWeight >= 0.0
    ensures DecayedWeight(decay, later, link) <= DecayedWeight(decay, now, link)
  {
    DecayedWeightOf(decay, now, link);
    DecayedWeightOf(decay, later, link);
    RawWeightFalls(decay, link, now, later);
  }

  lemma ShrinkProduct(w: real, d: real, e: real)
    requires w >= 0.0 && d >= 0.0 && 0.0 <= e <= 1.0
    ensures w * (d * e) <= w * d
  {
  }

  /** Reinforcing at `now` is never a loss, whenever the weight is read afterwards. */
  ghost predicate ReinforcementNeverLowers(decay: Decay, now: Time, link: EngramLink) {
    forall later: Time :: now <= later ==>
      DecayedWeight(decay, later, Reinforced(decay, now, link)) >= DecayedWeight(decay, later, link)
  }

  /**
   * What a caller can test before reinforcing. A positive weight needs a reference instant; with the reference in
   * the past its decayed value must not exceed 1; with the reference in the future it must not exceed what 1, or
   * the weight and the boost together, have decayed to by then.
   */
  ghost predicate SafeToReinforce(decay: Decay, now: Time, link: EngramLink) {
    var reference, w := TemporalReference(link), link.temporalWeight;
    w <= 0.0
    || (reference != 0
        && if reference <= now then w * DecaySince(decay, reference, now) <= 1.0
           else w <= (if w + REINFORCEMENT_BOOST < 1.0 then w + REINFORCEMENT_BOOST else 1.0)
                     * DecaySince(decay, now, reference))
  }

  /** The reinforced link decays from its new weight and the present instant. */
  lemma ReinforcedDecay(decay: Decay, now: Time, link: EngramLink, later: Time)
    requires HalvingLaws(decay) && 0 < now <= later
    ensures DecayedWeight(decay, later, Reinforced(decay, now, link))
         == ReinforcedWeight(decay, now, link) * DecaySince(decay, now, later)
    ensures DecayedWeight(decay, later, Reinforced(decay, now, link)) <= DecaySince(decay, now, later)
  {
    DecayedWeightOf(decay, later, Reinforced(decay, now, link));
    DecayComposes(decay, now, later, later);
    UnitProduct(ReinforcedWeight(decay, now, link), DecaySince(decay, now, later));
  }

  lemma UnitProduct(r: real, d: real)
    requires 0.0 <= r <= 1.0 && 0.0 <= d <= 1.0
    ensures 0.0 <= r * d <= d && Clamp(r * d, 0.0, 1.0) == r * d
    ensures d == 1.0 ==> r * d == r
  {
  }

  lemma HelpsPastReference(decay: Decay, now: Time, link: EngramLink, later: Time)
    requires HalvingLaws(decay) && 0 < now <= later && SafeToReinforce(decay, now, link)
    requires 0 < TemporalReference(link) <= now && link.temporalWeight > 0.0
    ensures RawWeight(decay, later, link) <= ReinforcedWeight(decay, now, link) * DecaySince(decay, now, later)
  {
    var reference, w := TemporalReference(link), link.temporalWeight;
    DecayedWeightOf(decay, now, link);
    DecayComposes(decay, reference, now, later);
    DecayComposes(decay, now, later, later);
    var d, e := DecaySince(decay, reference, now), DecaySince(decay, now, later);
    ScaleOrder(0.0, w, d);
    assert w * d <= ReinforcedWeight(decay, now, link);
    ScaleOrder(w * d, ReinforcedWeight(decay, now, link), e);
    assert w * (d * e) == (w * d) * e;
  }

  lemma HelpsUntilReference(decay: Decay, now: Time, reference: Time, later: Time, w: real, boosted: real)
    requires HalvingLaws(decay) && now <= later <= reference
    requires 0.0 <= boosted && w <= boosted * DecaySince(decay, now, reference)
    ensures w <= boosted * DecaySince(decay, now, later)
  {
    DecayComposes(decay, now, later, reference);
    DecayComposes(decay, later, reference, reference);
    ScaleOrder(DecaySince(decay, later, reference), 1.0, DecaySince(decay, now, later));
    ScaleOrder(DecaySince(decay, now, reference), DecaySince(decay, now, later), boosted);
  }

  lemma HelpsAfterReference(decay: Decay, now: Time, reference: Time, later: Time, w: real, boosted: real)
    requires HalvingLaws(decay) && now <= reference <= later
    requires w <= boosted * DecaySince(decay, now, reference)
    ensures w * DecaySince(decay, reference, later) <= boosted * DecaySince(decay, now, later)
  {
    DecayComposes(decay, now, reference, later);
    DecayComposes(decay, reference, later, later);
    var d, e := DecaySince(decay, now, reference), DecaySince(decay, reference, later);
    ScaleOrder(w, boosted * d, e);
    assert boosted * (d * e) == (boosted * d) * e;
  }

  lemma SafeReinforcementBounds(decay: Decay, now: Time, link: EngramLink, later: Time)
    requires HalvingLaws(decay) && 0 < now <= later && SafeToReinforce(decay, now, link)
    ensures RawWeight(decay, later, link) <= 0.0
         || RawWeight(decay, later, link) <= ReinforcedWeight(decay, now, link) * DecaySince(decay, now, later)
  {
    var reference, boosted := TemporalReference(link), ReinforcedWeight(decay, now, link);
    if link.temporalWeight <= 0.0 {
      if reference != 0 && reference < later {
        DecayComposes(decay, reference, later, later);
        ScaleOrder(link.temporalWeight, 0.0, DecaySince(decay, reference, later));
      }
    } else if reference <= now {
      HelpsPastReference(decay, now, link, later);
    } else if later <= reference {
      HelpsUntilReference(decay, now, reference, later, link.temporalWeight, boosted);
    } else {
      HelpsAfterReference(decay, now, reference, later, link.temporalWeight, boosted);
    }
  }

  lemma SafeReinforcementHelps(decay: Decay, now: Time, link: EngramLink, later: Time)
    requires HalvingLaws(decay) && 0 < now <= later && SafeToReinforce(decay, now, link)
    ensures DecayedWeight(decay, later, Reinforced(decay, now, link)) >= DecayedWeight(decay, later, link)
  {
    ReinforcedDecay(decay, now, link, later);
    DecayedWeightOf(decay, later, link);
    SafeReinforcementBounds(decay, now, link, later);
  }

  /** The instant `n` half lives after `now`. */
  function AfterHalfLives(now: Time, n: nat): Time {
    now + n * DECAY_HALF_LIFE_HOURS * NANOS_PER_HOUR
  }

  lemma {:induction false} DecayVanishes(decay: Decay, now: Time, n: nat)
    requires HalvingLaws(decay)
    ensures var later := AfterHalfLives(now, n);
            DecaySince(decay, now, later) * (n + 1) as real <= 1.0
            && (n == 1 ==> DecaySince(decay, now, later) == 0.5)
  {
    if n > 0 {
      var before, later := AfterHalfLives(now, n - 1), AfterHalfLives(now, n);
      DecayVanishes(decay, now, n - 1);
      DecayComposes(decay, now, before, later);
      DecayComposes(decay, now, before, before);
      var d := DecaySince(decay, now, before);
      assert later - before == DECAY_HALF_LIFE_HOURS * NANOS_PER_HOUR;
      assert DecaySince(decay, now, later) == d * 0.5;
      assert (n + 1) as real <= 2.0 * n as real;
      ScaleOrder((n + 1) as real, 2.0 * n as real, d * 0.5);
      assert d * 0.5 * (2.0 * n as real) == d * n as real;
    }
  }

  lemma NoReference(decay: Decay, now: Time, link: EngramLink) returns (later: Time)
    requires HalvingLaws(decay) && 0 < now && TemporalReference(link) == 0 && link.temporalWeight > 0.0
    ensures now <= later
    ensures DecayedWeight(decay, later, Reinforced(decay, now, link)) < DecayedWeight(decay, later, link)
  {
    var weight := Clamp(link.temporalWeight, 0.0, 1.0);
    var n := (1.0 / weight).Floor + 1;
    later := AfterHalfLives(now, n);
    DecayVanishes(decay, now, n);
    ReinforcedDecay(decay, now, link, later);
    DecayComposes(decay, now, later, later);
    ReciprocalBound(weight, 1.0 / weight, DecaySince(decay, now, later), n as real);
  }

  lemma ReciprocalBound(weight: real, reciprocal: real, d: real, n: real)
    requires 0.0 < weight && reciprocal * weight == 1.0 && n >= reciprocal && d * (n + 1.0) <= 1.0
    ensures d < weight
  {
  }

  lemma UnsafeReinforcementHurts(decay: Decay, now: Time, link: EngramLink) returns (later: Time)
    requires HalvingLaws(decay) && 0 < now && !SafeToReinforce(decay, now, link)
    ensures now <= later
    ensures DecayedWeight(decay, later, Reinforced(decay, now, link)) < DecayedWeight(decay, later, link)
  {
    var reference := TemporalReference(link);
    if reference == 0 {
      later := NoReference(decay, now, link);
    } else if reference <= now {
      later := AfterHalfLives(now, 1);
      HalfLifeLater(decay, now, link, later, reference);
    } else {
      later := AfterHalfLives(reference, 1);
      FutureReference(decay, now, link, later, reference);
    }
  }

  lemma HalfLifeLater(decay: Decay, now: Time, link: EngramLink, later: Time, reference: Time)
    requires HalvingLaws(decay) && 0 < now && !SafeToReinforce(decay, now, link)
    requires reference == TemporalReference(link) && 0 < reference <= now && later == AfterHalfLives(now, 1)
    ensures DecayedWeight(decay, later, Reinforced(decay, now, link)) < DecayedWeight(decay, later, link)
  {
    DecayVanishes(decay, now, 1);
    ReinforcedDecay(decay, now, link, later);
    DecayedWeightOf(decay, later, link);
    DecayComposes(decay, reference, now, later);
    var w, d := link.temporalWeight, DecaySince(decay, reference, now);
    assert w * (d * 0.5) == (w * d) * 0.5;
    assert RawWeight(decay, later, link) == (w * d) * 0.5;
  }

  lemma FutureReference(decay: Decay, now: Time, link: EngramLink, later: Time, reference: Time)
    requires HalvingLaws(decay) && 0 < now && !SafeToReinforce(decay, now, link)
    requires reference == TemporalReference(link) && now < reference && later == AfterHalfLives(reference, 1)
    ensures DecayedWeight(decay, later, Reinforced(decay, now, link)) < DecayedWeight(decay, later, link)
  {
    DecayVanishes(decay, reference, 1);
    ReinforcedDecay(decay, now, link, later);
    DecayedWeightOf(decay, later, link);
    DecayComposes(decay, now, reference, later);
    DecayComposes(decay, now, reference, reference);
    var boosted, d := ReinforcedWeight(decay, now, link), DecaySince(decay, now, reference);
    ScaleOrder(boosted, 1.0, d);
    assert boosted * (d * 0.5) == (boosted * d) * 0.5;
  }

  /** Reinforcement never lowers a later reading exactly when the caller's test passes. */
  lemma ReinforcementNeverLowersIff(decay: Decay, now: Time, link: EngramLink)
    requires HalvingLaws(decay) && 0 < now
    ensures ReinforcementNeverLowers(decay, now, link) <==> SafeToReinforce(decay, now, link)
  {
    if SafeToReinforce(decay, now, link) {
      forall later: Time | now <= later
        ensures DecayedWeight(decay, later, Reinforced(decay, now, link)) >= DecayedWeight(decay, later, link)
      {
        SafeReinforcementHelps(decay, now, link, later);
      }
    } else {
      var later := UnsafeReinforcementHurts(decay, now, link);
    }
  }

  /** The ordinary case: a weight in [0, 1] with a reference in the past. */
  lemma OrdinaryReinforcementNeverLowers(decay: Decay, now: Time, link: EngramLink)
    requires HalvingLaws(decay) && 0 < TemporalReference(link) <= now && 0.0 <= link.temporalWeight <= 1.0
    ensures ReinforcementNeverLowers(decay, now, link)
  {
    DecayComposes(decay, TemporalReference(link), now, now);
    ScaleOrder(link.temporalWeight, 1.0, DecaySince(decay, TemporalReference(link), now));
    ReinforcementNeverLowersIff(decay, now, link);
  }

  /** A link whose reference lies two half lives ahead loses its later weight by being reinforced now. */
  lemma FarReferenceLoses(decay: Decay, now: Time, link: EngramLink)
    requires HalvingLaws(decay) && 0 < now
    requires link.temporalWeight == 0.9 && TemporalReference(link) == AfterHalfLives(now, 2)
    ensures !ReinforcementNeverLowers(decay, now, link)
  {
    var between, reference := AfterHalfLives(now, 1), AfterHalfLives(now, 2);
    assert AfterHalfLives(between, 1) == reference;
    DecayVanishes(decay, now, 1);
    DecayVanishes(decay, between, 1);
    DecayComposes(decay, now, between, reference);
    ReinforcementNeverLowersIff(decay, now, link);
  }

  /**
   * For a stored link, with a weight in [0, 1] and a reference instant, reinforcement is a loss at some later time
   * exactly when the reference is in the future and the weight exceeds what the boosted weight has decayed to by then.
   */
  lemma StoredLinkLosesIff(decay: Decay, now: Time, link: EngramLink)
    requires HalvingLaws(decay) && 0 < now && 0 < TemporalReference(link) && 0.0 <= link.temporalWeight <= 1.0
    ensures !ReinforcementNeverLowers(decay, now, link)
       <==> var w := link.temporalWeight;
            && now < TemporalReference(link)
            && w > (if w + REINFORCEMENT_BOOST < 1.0 then w + REINFORCEMENT_BOOST else 1.0)
                   * DecaySince(decay, now, TemporalReference(link))
  {
    ReinforcementNeverLowersIff(decay, now, link);
    if TemporalReference(link) <= now {
      OrdinaryReinforcementNeverLowers(decay, now, link);
    } else if link.temporalWeight == 0.0 {
      DecayComposes(decay, now, TemporalReference(link), TemporalReference(link));
      ScaleOrder(0.0, REINFORCEMENT_BOOST, DecaySince(decay, now, TemporalReference(link)));
    }
  }
}
