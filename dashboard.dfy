/** The dashboard statistics computed over one owner's policies: the number of
    active policies, the total coverage, the sum of monthly premiums and the
    policies "expiring soon". Recomputed from the list on every request. */
module Dashboard {
  import opened Wrappers
  import opened PolicyModel
  import opened Seqs

  /** Seven days in milliseconds, the width of the "expiring soon" window. */
  const WeekMillis: int := 7 * 24 * 60 * 60 * 1000

  /** `Number(x)` of a FLOAT column: a NULL reads as 0. */
  function Amount(x: Option<int>): int {
    x.GetOr(0)
  }

  /** `new Date(p.endDate)` in milliseconds: a NULL date is the epoch. */
  function EndMillis(p: Policy): Millis {
    p.endDate.GetOr(0)
  }

  predicate IsActive(p: Policy) {
    p.status == "active"
  }

  /** Exact, case-sensitive comparison with "Monthly". */
  predicate IsMonthly(p: Policy) {
    p.premiumFrequency == Some("Monthly")
  }

  /** `endDate - now <= 7 days`; true as well for every end date already past. */
  predicate ExpiresSoon(p: Policy, now: Millis) {
    EndMillis(p) - now <= WeekMillis
  }

  function ExpiresSoonAt(now: Millis): Policy -> bool {
    p => ExpiresSoon(p, now)
  }

  function Coverage(p: Policy): int {
    Amount(p.coverageAmount)
  }

  function Premium(p: Policy): int {
    Amount(p.premiumAmount)
  }

  /** The premium a policy adds to the monthly total: its amount if it is billed
      monthly, nothing otherwise. */
  function MonthlyPremium(p: Policy): int {
    if IsMonthly(p) then Amount(p.premiumAmount) else 0
  }

  datatype Stats = Stats(
    activePolicies: nat,
    totalCoverage: int,
    monthlyPremiums: int,
    expiringSoon: seq<Policy>)

  /** `getDashboard` over the owner's policies `ps` at time `now`. */
  function Compute(ps: seq<Policy>, now: Millis): (r: Stats)
    ensures r.activePolicies <= |ps|
    ensures |r.expiringSoon| <= |ps|
    ensures forall i :: 0 <= i < |r.expiringSoon| ==> ExpiresSoon(r.expiringSoon[i], now)
  {
    Stats(
      activePolicies := Count(IsActive, ps),
      totalCoverage := Sum(Coverage, ps),
      monthlyPremiums := Sum(Premium, Filter(IsMonthly, ps)),
      expiringSoon := Filter(ExpiresSoonAt(now), ps))
  }

  /** Filtering to monthly policies and then summing their premiums is the same as
      summing every policy's monthly contribution. */
  lemma {:induction false} MonthlyTotalIsSumOfContributions(ps: seq<Policy>)
    ensures Sum(Premium, Filter(IsMonthly, ps)) == Sum(MonthlyPremium, ps)
  {
    if ps != [] {
      MonthlyTotalIsSumOfContributions(ps[1..]);
      if IsMonthly(ps[0]) {
        assert ([ps[0]] + Filter(IsMonthly, ps[1..]))[1..] == Filter(IsMonthly, ps[1..]);
      }
    }
  }

  /** A policy is listed as expiring soon exactly when it is one of the owner's and
      its end date is at most seven days ahead, and the list keeps the input order. */
  lemma ExpiringSoonExactly(ps: seq<Policy>, now: Millis, p: Policy)
    ensures p in Compute(ps, now).expiringSoon <==> p in ps && EndMillis(p) - now <= WeekMillis
    ensures IsSubsequence(Compute(ps, now).expiringSoon, ps)
  {
    FilterMembership(ExpiresSoonAt(now), ps, p);
    FilterIsSubsequence(ExpiresSoonAt(now), ps);
  }

  /** Policies that have already ended, and policies without an end date, are in
      the "expiring soon" list. */
  lemma PastAndUndatedAreExpiringSoon(ps: seq<Policy>, now: Millis, p: Policy)
    requires p in ps
    requires EndMillis(p) <= now || (p.endDate.None? && now >= -WeekMillis)
    ensures p in Compute(ps, now).expiringSoon
  {
    ExpiringSoonExactly(ps, now, p);
  }

  /** The statistics of two lists together are the sums of their statistics, and the
      expiring-soon lists are concatenated. */
  lemma ComputeAppend(a: seq<Policy>, b: seq<Policy>, now: Millis)
    ensures var sa, sb, s := Compute(a, now), Compute(b, now), Compute(a + b, now);
      s.activePolicies == sa.activePolicies + sb.activePolicies &&
      s.totalCoverage == sa.totalCoverage + sb.totalCoverage &&
      s.monthlyPremiums == sa.monthlyPremiums + sb.monthlyPremiums &&
      s.expiringSoon == sa.expiringSoon + sb.expiringSoon
  {
    FilterAppend(IsActive, a, b);
    SumAppend(Coverage, a, b);
    MonthlyTotalIsSumOfContributions(a);
    MonthlyTotalIsSumOfContributions(b);
    MonthlyTotalIsSumOfContributions(a + b);
    SumAppend(MonthlyPremium, a, b);
    FilterAppend(ExpiresSoonAt(now), a, b);
  }

  /** The row order the database happens to return does not change the numbers. */
  lemma ComputeIgnoresOrder(a: seq<Policy>, b: seq<Policy>, now: Millis)
    requires multiset(a) == multiset(b)
    ensures Compute(a, now).activePolicies == Compute(b, now).activePolicies
    ensures Compute(a, now).totalCoverage == Compute(b, now).totalCoverage
    ensures Compute(a, now).monthlyPremiums == Compute(b, now).monthlyPremiums
  {
    CountPermutation(IsActive, a, b);
    SumPermutation(Coverage, a, b);
    MonthlyTotalIsSumOfContributions(a);
    MonthlyTotalIsSumOfContributions(b);
    SumPermutation(MonthlyPremium, a, b);
  }

  /** What one policy contributes: it counts as active only when its status is
      exactly "active", its coverage always adds up (NULL as 0), its premium adds
      to the monthly total only when billed exactly "Monthly", and it is listed
      when its end date (NULL as the epoch) is at most seven days ahead. With
      `ComputeAppend` this fixes the statistics of every list. */
  lemma ComputeSingle(p: Policy, now: Millis)
    ensures Compute([p], now) == Stats(
      if p.status == "active" then 1 else 0,
      p.coverageAmount.GetOr(0),
      if p.premiumFrequency == Some("Monthly") then p.premiumAmount.GetOr(0) else 0,
      if p.endDate.GetOr(0) - now <= 604800000 then [p] else [])
  {
    var ps := [p];
    assert ps[1..] == [];
    CountSingle(IsActive, p);
    MonthlyTotalIsSumOfContributions(ps);
  }

  /** A policy billed "monthly" (lower case) adds nothing to the monthly total. */
  lemma LowerCaseMonthlyIsNotCounted(p: Policy, now: Millis)
    requires p.premiumFrequency == Some("monthly")
    ensures Compute([p], now).monthlyPremiums == 0
  {
    assert "monthly" != "Monthly";
    assert Filter(IsMonthly, [p]) == [];
  }

  function Day(): Millis { 24 * 60 * 60 * 1000 }

  function Sample(status: string, coverage: int, premium: int, frequency: string, end: Millis): Policy {
    Policy(1, "n", "no", "co", None, Some(premium), Some(frequency), Some(coverage),
           status, None, Some(end), None, [], 1, 0)
  }

  /** One active monthly policy ending in three days and one inactive annual policy
      ending in 400 days give one active policy, coverage 150000, monthly premiums
      500 and only the first policy expiring soon. */
  lemma TwoPolicyScenario(now: Millis)
    ensures var p1 := Sample("active", 100000, 500, "Monthly", now + 3 * Day());
      var p2 := Sample("inactive", 50000, 1200, "Annually", now + 400 * Day());
      Compute([p1, p2], now) == Stats(1, 150000, 500, [p1])
  {
    var p1 := Sample("active", 100000, 500, "Monthly", now + 3 * Day());
    var p2 := Sample("inactive", 50000, 1200, "Annually", now + 400 * Day());
    var ps := [p1, p2];
    assert ps[1..] == [p2] && ps[1..][1..] == [];
    assert "inactive" != "active" && "Annually" != "Monthly";
    assert Filter(IsActive, ps) == [p1];
    assert Filter(IsMonthly, ps) == [p1];
    assert Filter(ExpiresSoonAt(now), ps) == [p1];
    assert Sum(Coverage, ps) == 100000 + Sum(Coverage, [p2]) == 150000;
    assert Sum(Premium, [p1]) == 500 + Sum(Premium, []) == 500;
  }
}
