/** The client-side filtering of the "My Policies" page: a case-insensitive search
    over name, number and company, followed by a status filter, and the counts shown
    on the status tabs. */
module PolicyFilter {
  import opened Text
  import opened Seqs
  import opened PolicyModel

  const AllLabel: string := "All"

  /** `applyStatusFilter`: "All" accepts every policy; any other label accepts the
      policies whose status equals it ignoring case. */
  function StatusAccepts(filter: string, p: Policy): (b: bool)
    ensures filter == AllLabel || p.status == filter ==> b
    ensures b && filter != AllLabel ==> |p.status| == |filter|
  {
    filter == AllLabel || ToLower(p.status) == ToLower(filter)
  }

  function StatusFilter(filter: string): Policy -> bool {
    p => StatusAccepts(filter, p)
  }

  /** The search predicate: the lower-cased term occurs in the lower-cased name,
      number or company. */
  function SearchMatches(term: string, p: Policy): (b: bool)
    ensures term == "" ==> b
    ensures b ==> |term| <= |p.policyName| || |term| <= |p.policyNumber| || |term| <= |p.insuranceCompany|
  {
    var t := ToLower(term);
    Includes(ToLower(p.policyName), t) ||
    Includes(ToLower(p.policyNumber), t) ||
    Includes(ToLower(p.insuranceCompany), t)
  }

  function SearchFilter(term: string): Policy -> bool {
    p => SearchMatches(term, p)
  }

  /** `filteredAndSearchedPolicies`: the search filter, then the status filter. */
  function Displayed(policies: seq<Policy>, term: string, filter: string): (r: seq<Policy>)
    ensures |r| <= |policies|
    ensures forall i :: 0 <= i < |r| ==> StatusAccepts(filter, r[i])
  {
    Filter(StatusFilter(filter), Filter(SearchFilter(term), policies))
  }

  /** The two filters as one: matches the search and passes the status filter. */
  function Shown(term: string, filter: string): Policy -> bool {
    p => SearchMatches(term, p) && StatusAccepts(filter, p)
  }

  /** A match is an occurrence of the lower-cased term at some position of one of
      the three lower-cased fields. */
  lemma SearchMatchesIffOccurs(term: string, p: Policy)
    ensures SearchMatches(term, p) <==>
      (exists i :: OccursAt(ToLower(p.policyName), ToLower(term), i)) ||
      (exists i :: OccursAt(ToLower(p.policyNumber), ToLower(term), i)) ||
      (exists i :: OccursAt(ToLower(p.insuranceCompany), ToLower(term), i))
  {
    IncludesIffOccurs(ToLower(p.policyName), ToLower(term));
    IncludesIffOccurs(ToLower(p.policyNumber), ToLower(term));
    IncludesIffOccurs(ToLower(p.insuranceCompany), ToLower(term));
    assert SearchMatches(term, p) <==>
      Includes(ToLower(p.policyName), ToLower(term)) ||
      Includes(ToLower(p.policyNumber), ToLower(term)) ||
      Includes(ToLower(p.insuranceCompany), ToLower(term));
  }

  /** The search ignores the case of the term. */
  lemma SearchIgnoresTermCase(term: string, other: string, p: Policy)
    requires ToLower(term) == ToLower(other)
    ensures SearchMatches(term, p) == SearchMatches(other, p)
  {
  }

  /** A label that is not "All" accepts a policy exactly when the status matches it
      ignoring case, so labels differing only in case select the same policies. */
  lemma StatusFilterIgnoresCase(filter: string, other: string, p: Policy)
    requires filter != AllLabel && other != AllLabel
    requires ToLower(filter) == ToLower(other)
    ensures StatusAccepts(filter, p) <==> ToLower(p.status) == ToLower(filter)
    ensures StatusAccepts(filter, p) == StatusAccepts(other, p)
  {
  }

  /** A policy is displayed exactly when it is in the list, matches the search and
      passes the status filter; the displayed list keeps the list's order. */
  lemma DisplayedExactly(policies: seq<Policy>, term: string, filter: string, p: Policy)
    ensures p in Displayed(policies, term, filter) <==>
      p in policies && SearchMatches(term, p) && StatusAccepts(filter, p)
    ensures IsSubsequence(Displayed(policies, term, filter), policies)
  {
    var both := Shown(term, filter);
    FilterTwice(SearchFilter(term), StatusFilter(filter), both, policies);
    FilterMembership(both, policies, p);
    FilterIsSubsequence(both, policies);
  }

  /** With an empty search term and the "All" tab every policy is displayed, in
      order. */
  lemma EmptySearchShowsAll(policies: seq<Policy>)
    ensures Displayed(policies, "", AllLabel) == policies
  {
    forall p | p in policies ensures SearchMatches("", p) {
      IncludesEmpty(ToLower(p.policyName));
    }
    FilterKeepsAll(SearchFilter(""), policies);
    FilterKeepsAll(StatusFilter(AllLabel), policies);
  }

  datatype TabCounts = TabCounts(all: nat, active: nat, expired: nat)

  predicate LowerStatusIs(p: Policy, s: string) {
    ToLower(p.status) == s
  }

  function StatusIs(s: string): Policy -> bool {
    p => LowerStatusIs(p, s)
  }

  /** `allCount`, `activeCount` and `expiredCount`: every policy, and those whose
      lower-cased status is "active" or "expired"; no policy is counted twice. */
  function Counts(policies: seq<Policy>): (r: TabCounts)
    ensures r.all == |policies|
    ensures r.active + r.expired <= r.all
  {
    CountDisjoint(StatusIs("active"), StatusIs("expired"), policies);
    TabCounts(|policies|, Count(StatusIs("active"), policies), Count(StatusIs("expired"), policies))
  }

  /** One policy counts once on the "All" tab, on the "Active" tab when its status
      is "active" ignoring case, and on the "Expired" tab when it is "expired"
      ignoring case. With `CountsAppend` this fixes the counts of every list. */
  lemma CountsSingle(p: Policy)
    ensures Counts([p]) == TabCounts(1,
      if ToLower(p.status) == "active" then 1 else 0,
      if ToLower(p.status) == "expired" then 1 else 0)
  {
    CountSingle(StatusIs("active"), p);
    CountSingle(StatusIs("expired"), p);
  }

  /** The tab counts of two lists together are the sums of their counts. */
  lemma CountsAppend(a: seq<Policy>, b: seq<Policy>)
    ensures var ca, cb, c := Counts(a), Counts(b), Counts(a + b);
      c.all == ca.all + cb.all && c.active == ca.active + cb.active &&
      c.expired == ca.expired + cb.expired
  {
    CountAppend(StatusIs("active"), a, b);
    CountAppend(StatusIs("expired"), a, b);
  }

  /** Every status the store accepts is "active" or "inactive", so a list read back
      from the store never counts as expired. */
  lemma StoredPoliciesAreNeverExpired(policies: seq<Policy>)
    requires forall p :: p in policies ==> Storable(p)
    ensures Counts(policies).expired == 0
  {
    var f := StatusIs("expired");
    var kept := Filter(f, policies);
    if kept != [] {
      FilterMembership(f, policies, kept[0]);
    }
  }
}
