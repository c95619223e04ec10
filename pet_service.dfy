/**
 * The server's pet service: looking pets up, listing them, and a shelter
 * adding, editing and removing its own listings. The uploaded photo is
 * reduced to the URL it is stored under, or nothing when no photo came.
 */
module PetService {
  import opened Common
  import opened Status
  import opened Dto
  import opened Store
  import PetsPage

  /** The listing fields of the add and edit forms. */
  datatype PetForm = PetForm(
    name: string, petType: string, age: int, breed: string, description: string, status: string)

  /** The pet's DTO: every column, and the owning shelter by id. */
  function ToDto(p: Pet): (d: PetDto)
    ensures d.id == p.id && d.name == p.name && d.petType == p.petType && d.age == p.age
    ensures d.breed == p.breed && d.description == p.description && d.status == p.status
    ensures d.photoUrl == p.photoUrl && d.shelterId == p.shelterId
  {
    PetDto(p.id, p.name, p.petType, p.age, p.breed, p.description, p.status, p.photoUrl, p.shelterId)
  }

  /** `getPetById`: a missing pet is an illegal-argument error naming the id. */
  function GetPetById(pets: seq<Pet>, id: nat): (r: Result<PetDto, ServiceError>)
    ensures r.Err? <==> PetById(pets, id).None?
    ensures r.Err? ==> r.error == IllegalArgument("Pet not found with ID: " + DecimalString(id))
    ensures r.Ok? ==> r.value.id == id && exists p :: p in pets && ToDto(p) == r.value
  {
    match PetById(pets, id)
    case None => Err(IllegalArgument("Pet not found with ID: " + DecimalString(id)))
    case Some(p) => Ok(ToDto(p))
  }

  /** `getAllPets`: one DTO per stored pet, in table order. */
  function GetAllPets(pets: seq<Pet>): (r: seq<PetDto>)
    ensures |r| == |pets|
    ensures forall i :: 0 <= i < |pets| ==> r[i] == ToDto(pets[i])
  {
    seq(|pets|, i requires 0 <= i < |pets| => ToDto(pets[i]))
  }

  /** The pet a successful `addPet` saves: the form, the photo if one came, the caller as shelter. */
  function NewPet(id: nat, form: PetForm, photoUrl: Option<string>, shelterId: nat): (p: Pet)
    ensures p.id == id && p.shelterId == shelterId && p.photoUrl == photoUrl
    ensures p.name == form.name && p.petType == form.petType && p.age == form.age
    ensures p.breed == form.breed && p.description == form.description && p.status == form.status
  {
    Pet(id, form.name, form.petType, form.age, form.breed, form.description, form.status, photoUrl, shelterId)
  }

  /** The pet after `updatePet`: the form overwrites its fields; the old photo stays unless a new one came. */
  function EditedPet(p: Pet, form: PetForm, photoUrl: Option<string>): (p': Pet)
    ensures p'.id == p.id && p'.shelterId == p.shelterId
    ensures p'.name == form.name && p'.petType == form.petType && p'.age == form.age
    ensures p'.breed == form.breed && p'.description == form.description && p'.status == form.status
    ensures p'.photoUrl == if photoUrl.Some? then photoUrl else p.photoUrl
  {
    Pet(p.id, form.name, form.petType, form.age, form.breed, form.description, form.status,
      if photoUrl.Some? then photoUrl else p.photoUrl, p.shelterId)
  }

  /**
   * Edit and delete go ahead only for the pet's own shelter: the pet and the
   * caller exist and the caller's id is the pet's shelter id. The caller's
   * role plays no part, so an admin may not touch another shelter's pet.
   */
  predicate IsOwner(users: seq<User>, pets: seq<Pet>, id: nat, email: string)
  {
    PetById(pets, id).Some? && UserByEmail(users, email).Some?
    && PetById(pets, id).value.shelterId == UserByEmail(users, email).value.id
  }

  /** The table with every row carrying this pet's id replaced by the pet. */
  function ReplacePet(pets: seq<Pet>, p: Pet): (r: seq<Pet>)
    ensures |r| == |pets|
    ensures forall i :: 0 <= i < |r| ==> r[i] == if pets[i].id == p.id then p else pets[i]
  {
    seq(|pets|, i requires 0 <= i < |pets| => if pets[i].id == p.id then p else pets[i])
  }

  /** `deleteById`: the table without the pet with this id, the others in order. */
  function WithoutPet(pets: seq<Pet>, id: nat): (r: seq<Pet>)
    ensures forall p :: p in r <==> p in pets && p.id != id
    ensures |r| <= |pets|
  {
    if pets == [] then []
    else (if pets[0].id == id then [] else [pets[0]]) + WithoutPet(pets[1..], id)
  }

  /** Removing rows keeps the remaining ids fresh. */
  lemma {:induction false} FreshIdsWithoutPet(pets: seq<Pet>, id: nat, next: nat)
    requires FreshIds(pets, (x: Pet) => x.id, next)
    ensures FreshIds(WithoutPet(pets, id), (x: Pet) => x.id, next)
  {
    if pets != [] {
      var tail := pets[1..];
      assert FreshIds(tail, (x: Pet) => x.id, next) by {
        forall i, j | 0 <= i < j < |tail| ensures tail[i].id != tail[j].id {
          assert tail[i] == pets[i + 1] && tail[j] == pets[j + 1];
        }
      }
      FreshIdsWithoutPet(tail, id, next);
      var rest := WithoutPet(tail, id);
      if pets[0].id != id {
        forall x | x in rest ensures x.id != pets[0].id {
          var k :| 0 <= k < |tail| && tail[k] == x;
          assert pets[k + 1] == x;
        }
        FreshPetsCons(pets[0], rest, next);
      }
    }
  }

  /** A pet whose id is fresh and differs from every listed id can go in front. */
  lemma FreshPetsCons(p: Pet, rest: seq<Pet>, next: nat)
    requires FreshIds(rest, (x: Pet) => x.id, next) && p.id < next
    requires forall x :: x in rest ==> x.id != p.id
    ensures FreshIds([p] + rest, (x: Pet) => x.id, next)
  {
    var r := [p] + rest;
    forall i, j | 0 <= i < j < |r| ensures r[i].id != r[j].id {
      assert r[j] == rest[j - 1];
      if i > 0 {
        assert r[i] == rest[i - 1];
      }
    }
  }

  /** Some adoption request still names this pet. */
  predicate Referenced(requests: seq<AdoptionRequest>, id: nat)
  {
    exists q :: q in requests && q.petId == id
  }

  class Service {
    const db: Database

    constructor (db: Database)
      ensures this.db == db
    {
      this.db := db;
    }

    /**
     * `addPet` for the signed-in `email`: a missing account fails as
     * "Failed to add pet"; otherwise the new pet gets the next id and the
     * caller as its shelter. No role is checked here.
     */
    method AddPet(form: PetForm, photoUrl: Option<string>, email: string) returns (r: Result<PetDto, ServiceError>)
      requires db.Valid()
      modifies db`pets, db`nextPetId
      ensures db.Valid()
      ensures var found := UserByEmail(db.users, email);
        && (found.None? ==> (r == Err(Runtime("Failed to add pet"))
              && db.pets == old(db.pets) && db.nextPetId == old(db.nextPetId)))
        && (found.Some? ==>
              var p := NewPet(old(db.nextPetId), form, photoUrl, found.value.id);
              && db.pets == old(db.pets) + [p]
              && db.nextPetId == old(db.nextPetId) + 1
              && r == Ok(ToDto(p)))
    {
      var found := UserByEmail(db.users, email);
      if found.None? {
        return Err(Runtime("Failed to add pet"));
      }
      var p := NewPet(db.nextPetId, form, photoUrl, found.value.id);
      FreshIdsAppend(db.pets, (x: Pet) => x.id, db.nextPetId, p);
      var before := db.pets;
      db.pets := db.pets + [p];
      db.nextPetId := db.nextPetId + 1;
      forall q | q in db.requests ensures PetById(db.pets, q.petId).Some? {
        assert PetById(before, q.petId).value in db.pets;
      }
      r := Ok(ToDto(p));
    }

    /**
     * `updatePet`: every failure (no such pet, no such account, not the
     * owner) is reported as "Failed to update pet" and changes nothing;
     * otherwise only that pet's listing fields and photo change.
     */
    method UpdatePet(id: nat, form: PetForm, photoUrl: Option<string>, email: string)
      returns (r: Result<PetDto, ServiceError>)
      requires db.Valid()
      modifies db`pets
      ensures db.Valid()
      ensures !IsOwner(db.users, old(db.pets), id, email) ==>
        r == Err(Runtime("Failed to update pet")) && db.pets == old(db.pets)
      ensures IsOwner(db.users, old(db.pets), id, email) ==>
        var p := EditedPet(PetById(old(db.pets), id).value, form, photoUrl);
        db.pets == ReplacePet(old(db.pets), p) && r == Ok(ToDto(p))
    {
      if !IsOwner(db.users, db.pets, id, email) {
        return Err(Runtime("Failed to update pet"));
      }
      var before := db.pets;
      var p := EditedPet(PetById(before, id).value, form, photoUrl);
      db.pets := ReplacePet(before, p);
      FreshIdsSameIds(before, db.pets, (x: Pet) => x.id, db.nextPetId);
      forall q | q in db.requests ensures PetById(db.pets, q.petId).Some? {
        var old_p := PetById(before, q.petId).value;
        var i :| 0 <= i < |before| && before[i] == old_p;
        assert db.pets[i].id == q.petId;
      }
      r := Ok(ToDto(p));
    }

    /**
     * `deletePet`: only the owner may delete, and a pet that adoption
     * requests still name cannot be removed (the required `pet_id` column
     * refuses it); every failure is reported as "Failed to delete pet".
     * Otherwise exactly the pet with that id leaves the table.
     */
    method DeletePet(id: nat, email: string) returns (r: Option<ServiceError>)
      requires db.Valid()
      modifies db`pets
      ensures db.Valid()
      ensures !IsOwner(db.users, old(db.pets), id, email) || Referenced(db.requests, id) ==>
        r == Some(Runtime("Failed to delete pet")) && db.pets == old(db.pets)
      ensures IsOwner(db.users, old(db.pets), id, email) && !Referenced(db.requests, id) ==>
        r.None? && db.pets == WithoutPet(old(db.pets), id)
    {
      if !IsOwner(db.users, db.pets, id, email) || Referenced(db.requests, id) {
        return Some(Runtime("Failed to delete pet"));
      }
      var before := db.pets;
      db.pets := WithoutPet(before, id);
      FreshIdsWithoutPet(before, id, db.nextPetId);
      forall q | q in db.requests ensures PetById(db.pets, q.petId).Some? {
        assert PetById(before, q.petId).value in db.pets;
      }
      r := None;
    }
  }

  /** A pet just added under the next id is what `getPetById` then returns for that id. */
  lemma AddedPetIsFound(pets: seq<Pet>, next: nat, form: PetForm, photoUrl: Option<string>, shelterId: nat)
    requires FreshIds(pets, (x: Pet) => x.id, next)
    ensures var p := NewPet(next, form, photoUrl, shelterId);
      GetPetById(pets + [p], next) == Ok(ToDto(p))
  {
    var p := NewPet(next, form, photoUrl, shelterId);
    var s := pets + [p];
    FreshIdsAppend(pets, (x: Pet) => x.id, next, p);
    assert p in s;
    SameIdSameRow(s, (x: Pet) => x.id, next + 1, PetById(s, next).value, p);
  }

  /** After an edit `getPetById` returns the edited listing. */
  lemma EditedPetIsFound(pets: seq<Pet>, next: nat, id: nat, form: PetForm, photoUrl: Option<string>)
    requires FreshIds(pets, (x: Pet) => x.id, next) && PetById(pets, id).Some?
    ensures var p := EditedPet(PetById(pets, id).value, form, photoUrl);
      GetPetById(ReplacePet(pets, p), id) == Ok(ToDto(p))
  {
    var p := EditedPet(PetById(pets, id).value, form, photoUrl);
    var s := ReplacePet(pets, p);
    FreshIdsSameIds(pets, s, (x: Pet) => x.id, next);
    var k :| 0 <= k < |pets| && pets[k] == PetById(pets, id).value;
    assert s[k] == p;
    SameIdSameRow(s, (x: Pet) => x.id, next, PetById(s, id).value, p);
  }

  /** After a delete the id is not found, and every other id is found as before. */
  lemma DeletedPetIsGone(pets: seq<Pet>, next: nat, id: nat, other: nat)
    requires FreshIds(pets, (x: Pet) => x.id, next) && other != id
    ensures GetPetById(WithoutPet(pets, id), id).Err?
    ensures GetPetById(WithoutPet(pets, id), other) == GetPetById(pets, other)
  {
    var s := WithoutPet(pets, id);
    FreshIdsWithoutPet(pets, id, next);
    match PetById(pets, other)
    case None =>
    case Some(p) =>
      assert p in s;
      SameIdSameRow(s, (x: Pet) => x.id, next, PetById(s, other).value, p);
  }

  /**
   * The list page shows edit and delete to an admin on every pet, but the
   * server refuses an admin who does not own the pet.
   */
  lemma AdminEditRefusedByServer(admin: User, pet: Pet)
    requires admin.role == AdminRole && pet.shelterId != admin.id
    ensures PetsPage.CanEditDelete(true, false, Some(admin.id), ToDto(pet))
    ensures !IsOwner([admin], [pet], pet.id, admin.email)
  {
    assert admin in [admin];
  }
}
