/** The policy lifecycle: create a policy with its uploaded documents, list the
    caller's policies newest first, fetch one, delete one together with its files,
    and compute the caller's dashboard. The table is a map from id to row and the
    upload directory is the set of file paths that exist. */
module PolicyStore {
  import opened Wrappers
  import opened Text
  import opened PolicyModel
  import Dashboard

  /** The failures a request can end in, with the HTTP status the source sends. */
  datatype Error =
    | ValidationError  // 400 "Please fill required fields"
    | NotFound         // 404 "Policy not found"
    | Forbidden        // 403 "Unauthorized"
    | ServerError      // 500: `status.toLowerCase()` on a missing status
    | StorageError     // 500: the database refuses the row (status outside the enum)

  /** The request body of a create; an absent field is `None`. */
  datatype PolicyInput = PolicyInput(
    policyName: Option<string>,
    policyNumber: Option<string>,
    insuranceCompany: Option<string>,
    policyType: Option<string>,
    premiumAmount: Option<int>,
    premiumFrequency: Option<string>,
    coverageAmount: Option<int>,
    status: Option<string>,
    startDate: Option<Millis>,
    endDate: Option<Millis>,
    notes: Option<string>)

  predicate HasRequiredFields(input: PolicyInput) {
    Truthy(input.policyName) && Truthy(input.policyNumber) && Truthy(input.insuranceCompany)
  }

  const UploadPrefix: string := "/uploads/"

  /** The stored path of each uploaded file, in upload order. */
  function DocumentPaths(filenames: seq<string>): (r: seq<string>)
    ensures |r| == |filenames|
    ensures forall i :: 0 <= i < |r| ==> r[i] == UploadPrefix + filenames[i]
  {
    seq(|filenames|, i requires 0 <= i < |filenames| => UploadPrefix + filenames[i])
  }

  /** A listing is newest first: creation times never increase along it. */
  predicate NewestFirst(r: seq<Policy>) {
    forall i, j :: 0 <= i < j < |r| ==> r[i].createdAt >= r[j].createdAt
  }

  /** The first position in a newest-first listing whose row is older than `p`. */
  function InsertionPoint(r: seq<Policy>, p: Policy): (k: nat)
    requires NewestFirst(r)
    ensures k <= |r|
    ensures forall i :: 0 <= i < k ==> r[i].createdAt >= p.createdAt
    ensures forall i :: k <= i < |r| ==> r[i].createdAt < p.createdAt
  {
    if r == [] || r[0].createdAt < p.createdAt then 0
    else 1 + InsertionPoint(r[1..], p)
  }

  /** After scanning every id of `table` outside `remaining`, `r` holds exactly the
      scanned rows owned by `uid`, once each, newest first. */
  ghost predicate PartialListing(table: map<nat, Policy>, uid: int, r: seq<Policy>, remaining: set<nat>) {
    (forall i :: 0 <= i < |r| ==>
      r[i].userId == uid && r[i].id in table && table[r[i].id] == r[i] && r[i].id !in remaining) &&
    (forall id :: id in table && id !in remaining && table[id].userId == uid ==> table[id] in r) &&
    (forall i, j :: 0 <= i < j < |r| ==> r[i].id != r[j].id) &&
    NewestFirst(r)
  }

  /** `p` placed at position `k` of `r`. */
  function InsertAt(r: seq<Policy>, k: nat, p: Policy): (r': seq<Policy>)
    requires k <= |r|
    ensures |r'| == |r| + 1 && r'[k] == p
    ensures forall i :: 0 <= i < k ==> r'[i] == r[i]
    ensures forall i :: k < i < |r'| ==> r'[i] == r[i - 1]
  {
    r[..k] + [p] + r[k..]
  }

  /** Inserting a scanned owned row keeps every listed row a scanned owned row. */
  lemma InsertKeepsRows(table: map<nat, Policy>, uid: int, r: seq<Policy>, remaining: set<nat>, p: Policy, k: nat)
    requires forall i :: 0 <= i < |r| ==>
      r[i].userId == uid && r[i].id in table && table[r[i].id] == r[i] && r[i].id !in remaining
    requires p.id in table && table[p.id] == p && p.userId == uid
    requires k <= |r|
    ensures var r' := InsertAt(r, k, p);
      forall i :: 0 <= i < |r'| ==>
        r'[i].userId == uid && r'[i].id in table && table[r'[i].id] == r'[i] && r'[i].id !in remaining - {p.id}
  {
    var r' := InsertAt(r, k, p);
    forall i | 0 <= i < |r'|
      ensures r'[i].userId == uid && r'[i].id in table && table[r'[i].id] == r'[i] && r'[i].id !in remaining - {p.id}
    {
      if i < k {
        assert r'[i] == r[i];
      } else if i > k {
        assert r'[i] == r[i - 1];
      }
    }
  }

  /** Inserting at the insertion point keeps ids distinct and the order newest first. */
  lemma InsertKeepsOrder(r: seq<Policy>, p: Policy, k: nat)
    requires forall i, j :: 0 <= i < j < |r| ==> r[i].id != r[j].id
    requires NewestFirst(r)
    requires forall i :: 0 <= i < |r| ==> r[i].id != p.id
    requires k <= |r|
    requires forall i :: 0 <= i < k ==> r[i].createdAt >= p.createdAt
    requires forall i :: k <= i < |r| ==> r[i].createdAt < p.createdAt
    ensures var r' := InsertAt(r, k, p);
      (forall i, j :: 0 <= i < j < |r'| ==> r'[i].id != r'[j].id) && NewestFirst(r')
  {
    var r' := InsertAt(r, k, p);
    forall i, j | 0 <= i < j < |r'| ensures r'[i].id != r'[j].id && r'[i].createdAt >= r'[j].createdAt {
      var i0 := if i < k then i else i - 1;
      var j0 := if j < k then j else j - 1;
      if i != k && j != k {
        assert r'[i] == r[i0] && r'[j] == r[j0] && i0 < j0;
      } else if i == k {
        assert r'[j] == r[j0];
      } else {
        assert r'[i] == r[i0];
      }
    }
  }

  /** Every scanned owned row is still listed after one more is inserted. */
  lemma InsertKeepsCompleteness(table: map<nat, Policy>, uid: int, r: seq<Policy>, remaining: set<nat>, p: Policy, k: nat)
    requires forall id :: id in table && id !in remaining && table[id].userId == uid ==> table[id] in r
    requires p.id in table && table[p.id] == p
    requires k <= |r|
    ensures var r' := InsertAt(r, k, p);
      forall id :: id in table && id !in remaining - {p.id} && table[id].userId == uid ==> table[id] in r'
  {
    var r' := InsertAt(r, k, p);
    forall id | id in table && id !in remaining - {p.id} && table[id].userId == uid
      ensures table[id] in r'
    {
      if id != p.id {
        var i :| 0 <= i < |r| && r[i] == table[id];
        if i < k {
          assert r'[i] == table[id];
        } else {
          assert r'[i + 1] == table[id];
        }
      }
    }
  }

  /** Scanning one more owned row and inserting it at its insertion point keeps the
      partial listing. */
  lemma InsertKeepsListing(table: map<nat, Policy>, uid: int, r: seq<Policy>, remaining: set<nat>, p: Policy, k: nat)
    requires PartialListing(table, uid, r, remaining)
    requires p.id in remaining && p.id in table && table[p.id] == p && p.userId == uid
    requires k <= |r|
    requires forall i :: 0 <= i < k ==> r[i].createdAt >= p.createdAt
    requires forall i :: k <= i < |r| ==> r[i].createdAt < p.createdAt
    ensures PartialListing(table, uid, InsertAt(r, k, p), remaining - {p.id})
  {
    InsertKeepsRows(table, uid, r, remaining, p, k);
    InsertKeepsOrder(r, p, k);
    InsertKeepsCompleteness(table, uid, r, remaining, p, k);
  }

  class Store {
    var table: map<nat, Policy>
    var files: set<string>
    var nextId: nat

    /** Every row sits under its own id, below the next id to hand out, and is
        admitted by the schema. */
    ghost predicate Valid()
      reads this
    {
      forall id :: id in table ==> table[id].id == id && id < nextId && Storable(table[id])
    }

    /** An empty table over an upload directory holding `existing`. */
    constructor (existing: set<string>)
      ensures Valid()
      ensures table == map[] && files == existing && nextId == 1
    {
      table := map[];
      files := existing;
      nextId := 1;
    }

    /** The ids of the rows owned by `uid`. */
    ghost function OwnedIds(uid: int): set<nat>
      reads this
    {
      set id | id in table && table[id].userId == uid
    }

    /** `r` lists every row owned by `uid` exactly once and nothing else. */
    ghost predicate IsOwnerListing(r: seq<Policy>, uid: int)
      reads this
    {
      (forall i :: 0 <= i < |r| ==> r[i].userId == uid && r[i].id in table && table[r[i].id] == r[i]) &&
      (forall id :: id in table && table[id].userId == uid ==> table[id] in r) &&
      (forall i, j :: 0 <= i < j < |r| ==> r[i].id != r[j].id)
    }

    /** `addPolicy`: validates the three names, then builds the row from the body,
        the uploaded file names and the caller's id. The uploaded files are already
        on disk when the request arrives, so the upload directory is left as it is,
        whatever the outcome. */
    method AddPolicy(uid: int, input: PolicyInput, uploaded: seq<string>, now: Millis)
      returns (r: Result<Policy, Error>)
      requires Valid()
      modifies this
      ensures Valid()
      ensures files == old(files)
      ensures !HasRequiredFields(input) ==> r == Failure(ValidationError)
      ensures HasRequiredFields(input) && input.status.None? ==> r == Failure(ServerError)
      ensures HasRequiredFields(input) && input.status.Some? && !IsStatus(ToLower(input.status.value)) ==>
        r == Failure(StorageError)
      ensures r.Success? <==>
        HasRequiredFields(input) && input.status.Some? && IsStatus(ToLower(input.status.value))
      ensures r.Failure? ==> table == old(table) && nextId == old(nextId)
      ensures r.Success? ==>
        r.value.id !in old(table) && table == old(table)[r.value.id := r.value] &&
        r.value.documents == DocumentPaths(uploaded) &&
        r.value.status == ToLower(input.status.value) &&
        r.value.userId == uid && r.value.createdAt == now &&
        Some(r.value.policyName) == input.policyName &&
        Some(r.value.policyNumber) == input.policyNumber &&
        Some(r.value.insuranceCompany) == input.insuranceCompany &&
        r.value.policyType == input.policyType &&
        r.value.premiumAmount == input.premiumAmount &&
        r.value.premiumFrequency == input.premiumFrequency &&
        r.value.coverageAmount == input.coverageAmount &&
        r.value.startDate == input.startDate &&
        r.value.endDate == input.endDate &&
        r.value.notes == input.notes &&
        r.value.id in OwnedIds(uid) &&
        GetPolicyById(uid, r.value.id) == Success(r.value)
    {
      if !HasRequiredFields(input) {
        return Failure(ValidationError);
      }
      var documents := DocumentPaths(uploaded);
      if input.status.None? {
        return Failure(ServerError);
      }
      var attributes := Attributes(
        policyName := input.policyName,
        policyNumber := input.policyNumber,
        insuranceCompany := input.insuranceCompany,
        policyType := input.policyType,
        premiumAmount := input.premiumAmount,
        premiumFrequency := input.premiumFrequency,
        coverageAmount := input.coverageAmount,
        status := Some(ToLower(input.status.value)),
        startDate := input.startDate,
        endDate := input.endDate,
        notes := input.notes,
        documents := Some(documents),
        userId := Some(uid));
      var row := FromAttributes(attributes, nextId, now);
      if row.None? {
        return Failure(StorageError);
      }
      table := table[nextId := row.value];
      nextId := nextId + 1;
      r := Success(row.value);
    }

    /** `getPolicies`: every policy of the caller, exactly once, newest first. */
    method GetPolicies(uid: int) returns (r: seq<Policy>)
      requires Valid()
      ensures IsOwnerListing(r, uid)
      ensures NewestFirst(r)
    {
      var remaining := table.Keys;
      r := [];
      while remaining != {}
        invariant remaining <= table.Keys
        invariant PartialListing(table, uid, r, remaining)
        decreases remaining
      {
        var id :| id in remaining;
        var p := table[id];
        if p.userId == uid {
          var k := InsertionPoint(r, p);
          InsertKeepsListing(table, uid, r, remaining, p, k);
          r := InsertAt(r, k, p);
        }
        remaining := remaining - {id};
      }
    }

    /** `getPolicyById`: a row is returned only when both the id and the owner
        match; an absent id and another user's policy give the same not-found. */
    function GetPolicyById(uid: int, id: nat): (r: Result<Policy, Error>)
      reads this
      ensures r.Success? <==> id in table && table[id].userId == uid
      ensures r.Success? ==> r.value == table[id] && r.value.userId == uid
      ensures r.Failure? ==> r.error == NotFound
    {
      if id in table && table[id].userId == uid then Success(table[id]) else Failure(NotFound)
    }

    /** `deletePolicy`: not-found for an absent id, forbidden for another user's
        policy, both leaving everything as it was; otherwise every referenced file
        that exists is removed (missing ones are skipped) and then the row. */
    method DeletePolicy(uid: int, id: nat) returns (r: Result<(), Error>)
      requires Valid()
      modifies this
      ensures Valid()
      ensures id !in old(table) ==> r == Failure(NotFound) && unchanged(this)
      ensures id in old(table) && old(table)[id].userId != uid ==> r == Failure(Forbidden) && unchanged(this)
      ensures id in old(table) && old(table)[id].userId == uid ==>
        r == Success(()) &&
        table == old(table) - {id} &&
        files == old(files) - set d | d in old(table)[id].documents &&
        nextId == old(nextId) &&
        GetPolicyById(uid, id) == Failure(NotFound)
    {
      if id !in table {
        return Failure(NotFound);
      }
      var policy := table[id];
      if policy.userId != uid {
        return Failure(Forbidden);
      }
      var docs := policy.documents;
      var i := 0;
      while i < |docs|
        invariant 0 <= i <= |docs|
        invariant files == old(files) - set k | 0 <= k < i :: docs[k]
        invariant table == old(table) && nextId == old(nextId)
      {
        var path := docs[i];
        if path in files {
          files := files - {path};
        }
        i := i + 1;
      }
      assert (set k | 0 <= k < |docs| :: docs[k]) == set d | d in docs;
      table := table - {id};
      r := Success(());
    }

    /** `getDashboard`: the statistics over the caller's policies, in whatever order
        the table yields them. */
    method GetDashboard(uid: int, now: Millis) returns (stats: Dashboard.Stats)
      requires Valid()
      ensures exists ps :: IsOwnerListing(ps, uid) && stats == Dashboard.Compute(ps, now)
    {
      var ps := GetPolicies(uid);
      stats := Dashboard.Compute(ps, now);
    }
  }

  /** Looking up an absent id and looking up another user's policy are
      indistinguishable to the caller. */
  lemma ForeignAndAbsentLookIdentical(s: Store, uid: int, absent: nat, foreign: nat)
    requires absent !in s.table
    requires foreign in s.table && s.table[foreign].userId != uid
    ensures s.GetPolicyById(uid, absent) == s.GetPolicyById(uid, foreign) == Failure(NotFound)
  {
  }

  /** In a sequence of rows with pairwise different ids each row occurs at most once. */
  lemma {:induction false} DistinctMultiplicity(a: seq<Policy>, x: Policy)
    requires forall i, j :: 0 <= i < j < |a| ==> a[i].id != a[j].id
    ensures multiset(a)[x] == if x in a then 1 else 0
  {
    if a != [] {
      DistinctMultiplicity(a[1..], x);
      assert a == [a[0]] + a[1..];
      assert multiset(a)[x] == multiset{a[0]}[x] + multiset(a[1..])[x];
      if a[0] == x {
        assert x !in a[1..];
      }
    }
  }

  /** Two listings of the same owner's policies hold the same rows, so the dashboard
      numbers do not depend on which one the database returns. */
  lemma ListingsArePermutations(s: Store, uid: int, a: seq<Policy>, b: seq<Policy>, now: Millis)
    requires s.IsOwnerListing(a, uid) && s.IsOwnerListing(b, uid)
    ensures multiset(a) == multiset(b)
    ensures Dashboard.Compute(a, now).activePolicies == Dashboard.Compute(b, now).activePolicies
    ensures Dashboard.Compute(a, now).totalCoverage == Dashboard.Compute(b, now).totalCoverage
    ensures Dashboard.Compute(a, now).monthlyPremiums == Dashboard.Compute(b, now).monthlyPremiums
  {
    forall x ensures multiset(a)[x] == multiset(b)[x] {
      DistinctMultiplicity(a, x);
      DistinctMultiplicity(b, x);
    }
    assert multiset(a) == multiset(b);
    Dashboard.ComputeIgnoresOrder(a, b, now);
  }
}
