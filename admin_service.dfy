/**
 * The server's admin reports: totals and per-status or per-role counts over
 * the three tables, the first ten rows of a table, and the pets grouped by
 * type.
 */
module AdminService {
  import opened Common
  import opened Status
  import opened Store

  /** The dashboard numbers. */
  datatype DashboardStats = DashboardStats(totalUsers: nat, totalPets: nat, totalAdoptions: nat, pendingAdoptions: nat)

  datatype AdoptionReport = AdoptionReport(
    totalRequests: nat, pendingRequests: nat, approvedRequests: nat, rejectedRequests: nat,
    recentRequests: seq<AdoptionRequest>)

  datatype UserReport = UserReport(totalUsers: nat, regularUsers: nat, shelters: nat, admins: nat, users: seq<User>)

  datatype PetReport = PetReport(
    totalPets: nat, availablePets: nat, adoptedPets: nat, petsByType: map<string, nat>, recentPets: seq<Pet>)

  /** How many rows the "recent" lists hold at most. */
  const RECENT := 10

  /** A request whose status text is exactly `status` (case matters). */
  function StatusIs(status: string): AdoptionRequest -> bool
  {
    (q: AdoptionRequest) => q.status == status
  }

  function RoleIs(role: Role): User -> bool
  {
    (u: User) => u.role == role
  }

  function PetStatusIs(status: string): Pet -> bool
  {
    (p: Pet) => p.status == status
  }

  function TypeIs(petType: string): Pet -> bool
  {
    (p: Pet) => p.petType == petType
  }

  /** `getDashboardStats`. */
  function Dashboard(users: seq<User>, pets: seq<Pet>, requests: seq<AdoptionRequest>): (d: DashboardStats)
    ensures d.totalUsers == |users| && d.totalPets == |pets| && d.totalAdoptions == |requests|
    ensures d.pendingAdoptions == Count(requests, StatusIs("PENDING")) <= d.totalAdoptions
  {
    DashboardStats(|users|, |pets|, |requests|, Count(requests, StatusIs("PENDING")))
  }

  /** `getAdoptionReports` without the placeholder monthly figures. */
  function AdoptionReportOf(requests: seq<AdoptionRequest>): (r: AdoptionReport)
    ensures r.totalRequests == |requests|
    ensures r.pendingRequests == Count(requests, StatusIs("PENDING"))
    ensures r.approvedRequests == Count(requests, StatusIs("APPROVED"))
    ensures r.rejectedRequests == Count(requests, StatusIs("REJECTED"))
    ensures r.pendingRequests + r.approvedRequests + r.rejectedRequests <= r.totalRequests
    ensures r.recentRequests <= requests
    ensures |r.recentRequests| == if |requests| < RECENT then |requests| else RECENT
  {
    StatusCountsBounded(requests);
    AdoptionReport(|requests|, Count(requests, StatusIs("PENDING")), Count(requests, StatusIs("APPROVED")),
      Count(requests, StatusIs("REJECTED")), Take(requests, RECENT))
  }

  /** Counting one row: one when it passes, none otherwise. */
  lemma CountOne<T(!new)>(x: T, p: T -> bool)
    ensures Count([x], p) == if p(x) then 1 else 0
  {
    assert [x][1..] == [];
  }

  /** A request has at most one of the three counted statuses. */
  lemma CountedStatusesExclusive(q: AdoptionRequest)
    ensures (if q.status == "PENDING" then 1 else 0) + (if q.status == "APPROVED" then 1 else 0)
      + (if q.status == "REJECTED" then 1 else 0) <= 1
  {
    assert |"PENDING"| != |"APPROVED"| && |"PENDING"| != |"REJECTED"|;
    assert "APPROVED"[0] != "REJECTED"[0];
  }

  /** The three counted statuses exclude each other, so together they count at most every request. */
  lemma {:induction false} StatusCountsBounded(requests: seq<AdoptionRequest>)
    ensures Count(requests, StatusIs("PENDING")) + Count(requests, StatusIs("APPROVED"))
      + Count(requests, StatusIs("REJECTED")) <= |requests|
  {
    if requests != [] {
      var q := requests[0];
      var head, tail := [q], requests[1..];
      assert requests == head + tail;
      CountAppend(head, tail, StatusIs("PENDING"));
      CountAppend(head, tail, StatusIs("APPROVED"));
      CountAppend(head, tail, StatusIs("REJECTED"));
      CountOne(q, StatusIs("PENDING"));
      CountOne(q, StatusIs("APPROVED"));
      CountOne(q, StatusIs("REJECTED"));
      CountedStatusesExclusive(q);
      StatusCountsBounded(tail);
    }
  }

  /** The dashboard and the adoption report agree on the totals and on the pending count. */
  lemma DashboardAgreesWithReport(users: seq<User>, pets: seq<Pet>, requests: seq<AdoptionRequest>)
    ensures Dashboard(users, pets, requests).totalAdoptions == AdoptionReportOf(requests).totalRequests
    ensures Dashboard(users, pets, requests).pendingAdoptions == AdoptionReportOf(requests).pendingRequests
  {
  }

  /** `getUserReports`. */
  function UserReportOf(users: seq<User>): (r: UserReport)
    ensures r.totalUsers == |users| && r.users == users
    ensures r.regularUsers == Count(users, RoleIs(UserRole)) && r.shelters == Count(users, RoleIs(ShelterRole))
    ensures r.admins == Count(users, RoleIs(AdminRole))
    ensures r.regularUsers + r.shelters + r.admins == r.totalUsers
  {
    RoleCountsPartition(users);
    UserReport(|users|, Count(users, RoleIs(UserRole)), Count(users, RoleIs(ShelterRole)),
      Count(users, RoleIs(AdminRole)), users)
  }

  /** Every account has exactly one of the three roles, so the role counts add up to the total. */
  lemma {:induction false} RoleCountsPartition(users: seq<User>)
    ensures Count(users, RoleIs(UserRole)) + Count(users, RoleIs(ShelterRole)) + Count(users, RoleIs(AdminRole))
      == |users|
  {
    if users != [] {
      var head, tail := [users[0]], users[1..];
      assert users == head + tail;
      CountAppend(head, tail, RoleIs(UserRole));
      CountAppend(head, tail, RoleIs(ShelterRole));
      CountAppend(head, tail, RoleIs(AdminRole));
      CountOne(users[0], RoleIs(UserRole));
      CountOne(users[0], RoleIs(ShelterRole));
      CountOne(users[0], RoleIs(AdminRole));
      RoleCountsPartition(tail);
    }
  }

  /** `getPetReports`. */
  function PetReportOf(pets: seq<Pet>): (r: PetReport)
    ensures r.totalPets == |pets|
    ensures r.availablePets == Count(pets, PetStatusIs("AVAILABLE"))
    ensures r.adoptedPets == Count(pets, PetStatusIs("ADOPTED"))
    ensures r.availablePets + r.adoptedPets <= r.totalPets
    ensures r.recentPets <= pets
    ensures |r.recentPets| == if |pets| < RECENT then |pets| else RECENT
    ensures r.petsByType == PetsByType(pets)
  {
    PetStatusCountsBounded(pets);
    PetReport(|pets|, Count(pets, PetStatusIs("AVAILABLE")), Count(pets, PetStatusIs("ADOPTED")),
      PetsByType(pets), Take(pets, RECENT))
  }

  lemma {:induction false} PetStatusCountsBounded(pets: seq<Pet>)
    ensures Count(pets, PetStatusIs("AVAILABLE")) + Count(pets, PetStatusIs("ADOPTED")) <= |pets|
  {
    if pets != [] {
      var head, tail := [pets[0]], pets[1..];
      assert pets == head + tail;
      CountAppend(head, tail, PetStatusIs("AVAILABLE"));
      CountAppend(head, tail, PetStatusIs("ADOPTED"));
      CountOne(pets[0], PetStatusIs("AVAILABLE"));
      CountOne(pets[0], PetStatusIs("ADOPTED"));
      assert |"AVAILABLE"| != |"ADOPTED"|;
      PetStatusCountsBounded(tail);
    }
  }

  /**
   * `getPetsByType`: the types that occur, each with its number of pets.
   * The map is built pet by pet from the front of the table.
   */
  function PetsByType(pets: seq<Pet>): (m: map<string, nat>)
    ensures forall t :: t in m <==> exists p :: p in pets && p.petType == t
    ensures forall t :: t in m ==> m[t] == Count(pets, TypeIs(t))
  {
    if pets == [] then map[]
    else
      var init, last := pets[..|pets| - 1], pets[|pets| - 1];
      assert pets == init + [last];
      var m := PetsByType(init);
      PetsByTypeStepKeys(init, last, m);
      PetsByTypeStepCounts(init, last, m);
      AddOne(m, last.petType)
  }

  /** The map with one more pet of this type. */
  function AddOne(m: map<string, nat>, t: string): (m': map<string, nat>)
    ensures m'.Keys == m.Keys + {t}
    ensures m'[t] == (if t in m then m[t] else 0) + 1
    ensures forall u :: u in m && u != t ==> m'[u] == m[u]
  {
    m[t := (if t in m then m[t] else 0) + 1]
  }

  /** Nothing passes, so nothing is counted. */
  lemma CountNone<T(!new)>(s: seq<T>, p: T -> bool)
    requires forall x :: x in s ==> !p(x)
    ensures Count(s, p) == 0
  {
    forall x ensures multiset(Filter(s, p))[x] == 0 {
      if x in s {
        assert !p(x);
      }
    }
    assert multiset(Filter(s, p)) == multiset{};
  }

  /** Counting one more pet keeps the map's keys the types that occur. */
  lemma PetsByTypeStepKeys(init: seq<Pet>, last: Pet, m: map<string, nat>)
    requires forall t :: t in m <==> exists p :: p in init && p.petType == t
    ensures forall t :: t in AddOne(m, last.petType) <==> exists p :: p in init + [last] && p.petType == t
  {
    var pets := init + [last];
    forall t ensures t in AddOne(m, last.petType) <==> exists p :: p in pets && p.petType == t {
      if t != last.petType && exists p :: p in pets && p.petType == t {
        var p :| p in pets && p.petType == t;
        assert p in init;
      }
      if t == last.petType {
        assert last in pets;
      }
    }
  }

  /** Counting one more pet keeps every mapped value the count of its type. */
  lemma PetsByTypeStepCounts(init: seq<Pet>, last: Pet, m: map<string, nat>)
    requires forall t :: t in m <==> exists p :: p in init && p.petType == t
    requires forall t :: t in m ==> m[t] == Count(init, TypeIs(t))
    ensures forall t :: t in AddOne(m, last.petType) ==> AddOne(m, last.petType)[t] == Count(init + [last], TypeIs(t))
  {
    var m' := AddOne(m, last.petType);
    forall t | t in m' ensures m'[t] == Count(init + [last], TypeIs(t)) {
      CountAppend(init, [last], TypeIs(t));
      CountOne(last, TypeIs(t));
      if t !in m {
        CountNone(init, TypeIs(t));
      }
    }
  }

  /** The sum of a map's values. */
  ghost function SumValues(m: map<string, nat>): nat
    decreases |m|
  {
    if m == map[] then 0
    else
      var k :| k in m;
      m[k] + SumValues(m - {k})
  }

  /** Any key can be taken out first. */
  lemma SumValuesRemove(m: map<string, nat>, k: string)
    requires k in m
    ensures SumValues(m) == m[k] + SumValues(m - {k})
    decreases |m|
  {
    var j :| j in m && SumValues(m) == m[j] + SumValues(m - {j});
    if j != k {
      SumValuesRemove(m - {j}, k);
      SumValuesRemove(m - {k}, j);
      assert m - {j} - {k} == m - {k} - {j};
    }
  }

  /** One more pet of a type adds one to the sum. */
  lemma SumValuesAddOne(m: map<string, nat>, t: string)
    ensures SumValues(AddOne(m, t)) == SumValues(m) + 1
  {
    var m' := AddOne(m, t);
    SumValuesRemove(m', t);
    if t in m {
      SumValuesRemove(m, t);
      assert m' - {t} == m - {t};
    } else {
      assert m' - {t} == m;
    }
  }

  /** Every pet is counted under exactly one type: the counts add up to the number of pets. */
  lemma {:induction false} PetsByTypeSum(pets: seq<Pet>)
    ensures SumValues(PetsByType(pets)) == |pets|
  {
    if pets != [] {
      var init, last := pets[..|pets| - 1], pets[|pets| - 1];
      PetsByTypeSum(init);
      assert PetsByType(pets) == AddOne(PetsByType(init), last.petType);
      SumValuesAddOne(PetsByType(init), last.petType);
    }
  }
}
