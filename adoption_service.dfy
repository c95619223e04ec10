/**
 * The server's adoption-request service: creating a request, the three
 * listings (own, by pet, everything the caller may manage) and the status
 * update with its ownership check.
 */
module AdoptionService {
  import opened Common
  import opened Status
  import opened Dto
  import opened Store
  import RequestView

  /**
   * `mapToDTO`: id, user, pet and the status text. The entity has no
   * creation date, so the DTO never carries one.
   */
  function ToDto(q: AdoptionRequest): (d: RequestDto)
    ensures d.id == q.id && d.userId == q.userId && d.petId == q.petId
    ensures RequestStatusName(d.status) == q.status
    ensures d.createdAt.None?
  {
    RequestDto(q.id, q.userId, q.petId, ParseRequestStatus(q.status), None)
  }

  /**
   * The mapping keeps everything the entity has: a request can be read back
   * from its DTO. Because the date is missing, the client sorts and filters
   * server requests by their id.
   */
  lemma ToDtoRoundTrip(q: AdoptionRequest)
    ensures AdoptionRequest(ToDto(q).id, ToDto(q).userId, ToDto(q).petId, RequestStatusName(ToDto(q).status)) == q
    ensures RequestView.RequestTime(ToDto(q)) == q.id
  {
  }

  function ToDtos(s: seq<AdoptionRequest>): (r: seq<RequestDto>)
    ensures |r| == |s| && forall i :: 0 <= i < |s| ==> r[i] == ToDto(s[i])
  {
    seq(|s|, i requires 0 <= i < |s| => ToDto(s[i]))
  }

  /** A request's DTO is listed exactly when the request is: the mapping loses no request and merges none. */
  lemma ToDtosMembership(s: seq<AdoptionRequest>, q: AdoptionRequest)
    ensures ToDto(q) in ToDtos(s) <==> q in s
  {
    if ToDto(q) in ToDtos(s) {
      var i :| 0 <= i < |s| && ToDtos(s)[i] == ToDto(q);
      ToDtoRoundTrip(q);
      ToDtoRoundTrip(s[i]);
    }
    if q in s {
      var i :| 0 <= i < |s| && s[i] == q;
      assert ToDtos(s)[i] == ToDto(q);
    }
  }

  /** `findByPet`: the requests for one pet, in table order. */
  function ForPet(requests: seq<AdoptionRequest>, petId: nat): (r: seq<AdoptionRequest>)
    ensures forall q :: q in r <==> q in requests && q.petId == petId
  {
    var p := (q: AdoptionRequest) => q.petId == petId;
    assert forall q :: q in Filter(requests, p) <==> q in requests && q.petId == petId by {
      forall q ensures q in Filter(requests, p) <==> q in requests && q.petId == petId {
        FilterMembership(requests, p, q);
      }
    }
    Filter(requests, p)
  }

  /** `findByShelterId`: the pets a shelter owns, in table order. */
  function ShelterPets(pets: seq<Pet>, shelterId: nat): (r: seq<Pet>)
    ensures forall p :: p in r <==> p in pets && p.shelterId == shelterId
  {
    var f := (p: Pet) => p.shelterId == shelterId;
    assert forall p :: p in Filter(pets, f) <==> p in pets && p.shelterId == shelterId by {
      forall p ensures p in Filter(pets, f) <==> p in pets && p.shelterId == shelterId {
        FilterMembership(pets, f, p);
      }
    }
    Filter(pets, f)
  }

  /** The requests of each pet in turn, concatenated pet by pet. */
  function RequestsForPets(ps: seq<Pet>, requests: seq<AdoptionRequest>): seq<AdoptionRequest>
  {
    if ps == [] then [] else RequestsForPets(ps[..|ps| - 1], requests) + ForPet(requests, ps[|ps| - 1].id)
  }

  /** A request is in the concatenation exactly when it exists and one of the pets is its pet. */
  lemma {:induction false} RequestsForPetsMembership(ps: seq<Pet>, requests: seq<AdoptionRequest>, q: AdoptionRequest)
    ensures q in RequestsForPets(ps, requests) <==> q in requests && exists p :: p in ps && p.id == q.petId
  {
    if ps != [] {
      var init, last := ps[..|ps| - 1], ps[|ps| - 1];
      assert ps == init + [last];
      RequestsForPetsMembership(init, requests, q);
      if q in requests && q.petId != last.id && (exists p :: p in ps && p.id == q.petId) {
        var p :| p in ps && p.id == q.petId;
        assert p in init;
      }
    }
  }

  /** The caller may list a pet's requests: the pet's shelter, whatever its role, or an admin. */
  predicate MayListByPet(user: User, pet: Pet)
  {
    pet.shelterId == user.id || user.role == AdminRole
  }

  /** `getAdoptionRequestsByPet`: the pet is looked up before the caller. */
  function RequestsByPet(users: seq<User>, pets: seq<Pet>, requests: seq<AdoptionRequest>, petId: nat, username: string)
    : (r: Result<seq<RequestDto>, ServiceError>)
    ensures PetById(pets, petId).None? ==> r == Err(ResourceNotFound("Pet not found"))
    ensures r.Ok? <==> (PetById(pets, petId).Some? && UserByEmail(users, username).Some?
      && MayListByPet(UserByEmail(users, username).value, PetById(pets, petId).value))
    ensures r.Ok? ==> forall d :: d in r.value ==> d.petId == petId
    ensures r.Ok? ==> forall q :: q in requests ==> (ToDto(q) in r.value <==> q.petId == petId)
  {
    match PetById(pets, petId)
    case None => Err(ResourceNotFound("Pet not found"))
    case Some(pet) =>
      match UserByEmail(users, username)
      case None => Err(ResourceNotFound("User not found"))
      case Some(user) =>
        if !MayListByPet(user, pet) then Err(Unauthorized("You are not authorized to view these requests"))
        else
          forall q | q in requests ensures ToDto(q) in ToDtos(ForPet(requests, pet.id)) <==> q.petId == petId {
            ToDtosMembership(ForPet(requests, pet.id), q);
          }
          Ok(ToDtos(ForPet(requests, pet.id)))
  }

  /** `getUserAdoptionRequests`: the caller's own requests, in table order. */
  function UserRequests(users: seq<User>, requests: seq<AdoptionRequest>, username: string)
    : (r: Result<seq<RequestDto>, ServiceError>)
    ensures r.Err? <==> UserByEmail(users, username).None?
    ensures r.Err? ==> r.error == ResourceNotFound("User not found")
    ensures r.Ok? ==> forall d :: d in r.value ==> d.userId == UserByEmail(users, username).value.id
    ensures r.Ok? ==> forall q :: q in requests ==>
      (ToDto(q) in r.value <==> q.userId == UserByEmail(users, username).value.id)
  {
    match UserByEmail(users, username)
    case None => Err(ResourceNotFound("User not found"))
    case Some(user) =>
      var p := (q: AdoptionRequest) => q.userId == user.id;
      forall q | q in requests ensures ToDto(q) in ToDtos(Filter(requests, p)) <==> p(q) {
        FilterMembership(requests, p, q);
        ToDtosMembership(Filter(requests, p), q);
      }
      Ok(ToDtos(Filter(requests, p)))
  }

  /**
   * `getAllAdoptionRequests`: an admin sees every request, a shelter the
   * requests for its pets pet by pet, anyone else is refused.
   */
  function AllRequests(users: seq<User>, pets: seq<Pet>, requests: seq<AdoptionRequest>, username: string)
    : (r: Result<seq<AdoptionRequest>, ServiceError>)
    ensures UserByEmail(users, username).None? ==> r == Err(ResourceNotFound("User not found"))
    ensures r.Ok? <==> UserByEmail(users, username).Some? && UserByEmail(users, username).value.role != UserRole
    ensures r.Ok? ==> forall q :: q in r.value ==> q in requests
  {
    match UserByEmail(users, username)
    case None => Err(ResourceNotFound("User not found"))
    case Some(user) =>
      if user.role == AdminRole then Ok(requests)
      else if user.role == ShelterRole then
        var listed := RequestsForPets(ShelterPets(pets, user.id), requests);
        forall q | q in listed ensures q in requests {
          RequestsForPetsMembership(ShelterPets(pets, user.id), requests, q);
        }
        Ok(listed)
      else
        assert user.role == UserRole;
        Err(Unauthorized("You are not authorized to view all requests"))
  }

  /**
   * What the listing means: an admin gets the whole table; a shelter gets
   * exactly the requests whose pet it owns (pet ids are unique, and every
   * request names a stored pet); a plain user is refused.
   */
  lemma AllRequestsSelects(users: seq<User>, pets: seq<Pet>, requests: seq<AdoptionRequest>, username: string,
                           nextPetId: nat)
    requires FreshIds(pets, (p: Pet) => p.id, nextPetId)
    requires forall q :: q in requests ==> PetById(pets, q.petId).Some?
    ensures var r := AllRequests(users, pets, requests, username);
      match UserByEmail(users, username)
      case None => r == Err(ResourceNotFound("User not found"))
      case Some(user) =>
        && (user.role == AdminRole ==> r == Ok(requests))
        && (user.role == UserRole ==> r.Err? && r.error.Unauthorized?)
        && (user.role == ShelterRole ==> r.Ok? && forall q ::
              q in r.value <==> q in requests && PetById(pets, q.petId).value.shelterId == user.id)
  {
    var u := UserByEmail(users, username);
    if u.Some? && u.value.role == ShelterRole {
      var user := u.value;
      var owned := ShelterPets(pets, user.id);
      forall q ensures q in RequestsForPets(owned, requests) <==>
        q in requests && PetById(pets, q.petId).value.shelterId == user.id
      {
        RequestsForPetsMembership(owned, requests, q);
        if q in requests {
          var pet := PetById(pets, q.petId).value;
          if exists p :: p in owned && p.id == q.petId {
            var p :| p in owned && p.id == q.petId;
            SameIdSameRow(pets, (x: Pet) => x.id, nextPetId, p, pet);
          } else {
            assert !(pet in owned);
          }
        }
      }
    }
  }

  /**
   * The caller may change a request's status: an admin always, a shelter
   * only for a pet it owns, a plain user never.
   */
  predicate MayUpdate(user: User, pet: Option<Pet>)
  {
    user.role == AdminRole || (user.role == ShelterRole && pet.Some? && pet.value.shelterId == user.id)
  }

  /** The guards of `updateAdoptionRequestStatus`, in order. */
  function UpdateCheck(users: seq<User>, pets: seq<Pet>, requests: seq<AdoptionRequest>, id: nat, username: string)
    : (e: Option<ServiceError>)
    ensures e.None? <==> (RequestById(requests, id).Some? && UserByEmail(users, username).Some?
      && MayUpdate(UserByEmail(users, username).value, PetById(pets, RequestById(requests, id).value.petId)))
    ensures e.None? ==> UserByEmail(users, username).value.role != UserRole
  {
    match RequestById(requests, id)
    case None => Some(ResourceNotFound("Adoption request not found"))
    case Some(q) =>
      match UserByEmail(users, username)
      case None => Some(ResourceNotFound("User not found"))
      case Some(user) =>
        if !MayUpdate(user, PetById(pets, q.petId)) then
          Some(Unauthorized("You are not authorized to update this request. Shelters can only update requests for pets they own."))
        else None
  }

  /** The table with the status text of the request with this id replaced. */
  function WithStatus(requests: seq<AdoptionRequest>, id: nat, status: string): (r: seq<AdoptionRequest>)
    ensures |r| == |requests|
    ensures forall i :: 0 <= i < |r| ==>
      r[i] == if requests[i].id == id then requests[i].(status := status) else requests[i]
  {
    seq(|requests|, i requires 0 <= i < |requests| =>
      if requests[i].id == id then requests[i].(status := status) else requests[i])
  }

  /** The guards of `createAdoptionRequest`: the caller, then the pet. */
  function CreateCheck(users: seq<User>, pets: seq<Pet>, petId: nat, username: string): (e: Option<ServiceError>)
    ensures e.None? <==> UserByEmail(users, username).Some? && PetById(pets, petId).Some?
    ensures UserByEmail(users, username).None? ==> e == Some(ResourceNotFound("User not found"))
  {
    if UserByEmail(users, username).None? then Some(ResourceNotFound("User not found"))
    else if PetById(pets, petId).None? then Some(ResourceNotFound("Pet not found"))
    else None
  }

  class Service {
    const db: Database

    constructor (db: Database)
      ensures this.db == db
    {
      this.db := db;
    }

    /**
     * `createAdoptionRequest`: a new PENDING request by the caller for the
     * pet. Nothing about the pet or the caller's other requests is checked,
     * so the same user may hold several open requests for one pet.
     */
    method CreateAdoptionRequest(petId: nat, username: string) returns (r: Result<RequestDto, ServiceError>)
      requires db.Valid()
      modifies db`requests, db`nextRequestId
      ensures db.Valid()
      ensures var e := CreateCheck(db.users, db.pets, petId, username);
        && (e.Some? ==> (r == Err(e.value) && db.requests == old(db.requests)
              && db.nextRequestId == old(db.nextRequestId)))
        && (e.None? ==>
              var q := AdoptionRequest(old(db.nextRequestId), UserByEmail(db.users, username).value.id, petId, "PENDING");
              && db.requests == old(db.requests) + [q]
              && db.nextRequestId == old(db.nextRequestId) + 1
              && r == Ok(ToDto(q)))
    {
      var e := CreateCheck(db.users, db.pets, petId, username);
      if e.Some? {
        return Err(e.value);
      }
      var user := UserByEmail(db.users, username).value;
      var q := AdoptionRequest(db.nextRequestId, user.id, petId, "PENDING");
      FreshIdsAppend(db.requests, (x: AdoptionRequest) => x.id, db.nextRequestId, q);
      db.requests := db.requests + [q];
      db.nextRequestId := db.nextRequestId + 1;
      r := Ok(ToDto(q));
    }

    /**
     * `getAllAdoptionRequests`, with the shelter's requests gathered pet by
     * pet in a loop.
     */
    method GetAllAdoptionRequests(username: string) returns (r: Result<seq<RequestDto>, ServiceError>)
      ensures var all := AllRequests(db.users, db.pets, db.requests, username);
        r == if all.Ok? then Ok(ToDtos(all.value)) else Err(all.error)
    {
      var found := UserByEmail(db.users, username);
      if found.None? {
        return Err(ResourceNotFound("User not found"));
      }
      var user := found.value;
      var requests: seq<AdoptionRequest>;
      if user.role == AdminRole {
        requests := db.requests;
        assert AllRequests(db.users, db.pets, db.requests, username) == Ok(requests);
      } else if user.role == ShelterRole {
        var shelterPets := ShelterPets(db.pets, user.id);
        requests := [];
        var i := 0;
        while i < |shelterPets|
          invariant 0 <= i <= |shelterPets|
          invariant requests == RequestsForPets(shelterPets[..i], db.requests)
        {
          assert shelterPets[..i + 1][..i] == shelterPets[..i];
          requests := requests + ForPet(db.requests, shelterPets[i].id);
          i := i + 1;
        }
        assert shelterPets[..i] == shelterPets;
        assert AllRequests(db.users, db.pets, db.requests, username) == Ok(requests);
      } else {
        return Err(Unauthorized("You are not authorized to view all requests"));
      }
      r := Ok(ToDtos(requests));
    }

    /**
     * `updateAdoptionRequestStatus`: a failed guard changes nothing;
     * otherwise the request's status becomes the given text, unchecked.
     */
    method UpdateAdoptionRequestStatus(id: nat, status: string, username: string)
      returns (r: Result<RequestDto, ServiceError>)
      requires db.Valid()
      modifies db`requests
      ensures db.Valid()
      ensures var e := UpdateCheck(db.users, db.pets, old(db.requests), id, username);
        && (e.Some? ==> r == Err(e.value) && db.requests == old(db.requests))
        && (e.None? ==> (db.requests == WithStatus(old(db.requests), id, status)
              && r == Ok(ToDto(RequestById(old(db.requests), id).value.(status := status)))))
    {
      var e := UpdateCheck(db.users, db.pets, db.requests, id, username);
      if e.Some? {
        return Err(e.value);
      }
      var before := db.requests;
      var q := RequestById(before, id).value;
      db.requests := WithStatus(before, id, status);
      FreshIdsSameIds(before, db.requests, (x: AdoptionRequest) => x.id, db.nextRequestId);
      forall x | x in db.requests ensures PetById(db.pets, x.petId).Some? {
        var i :| 0 <= i < |db.requests| && db.requests[i] == x;
        assert before[i].petId == x.petId;
      }
      r := Ok(ToDto(q.(status := status)));
    }
  }

  /**
   * The server keeps no request lifecycle: an authorized caller may set any
   * text, and the client then reads it back unchanged (an unknown text
   * becomes an unrecognized status, not an error).
   */
  lemma ServerAcceptsAnyRequestStatus(q: AdoptionRequest, status: string)
    ensures RequestStatusName(ToDto(q.(status := status)).status) == status
    ensures IsKnownRequestStatusName(status) == !ToDto(q.(status := status)).status.Unrecognized?
  {
  }
}
