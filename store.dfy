/**
 * The server's persistent state: the four entity tables the services read
 * and write through their repositories, each with the identity counter the
 * database uses to number new rows, and the errors the services raise.
 */
module Store {
  import opened Common
  import opened Status

  /** The address and contact columns of a user; only shelters and admins fill them. */
  datatype Contact = Contact(
    address: Option<string>, city: Option<string>, state: Option<string>,
    zipCode: Option<string>, contactEmail: Option<string>, contactNumber: Option<string>)

  const NoContact := Contact(None, None, None, None, None, None)

  datatype User = User(id: nat, name: string, email: string, password: string, role: Role, contact: Contact)

  /** Pet: `status` is free text (AVAILABLE, ADOPTED, ...); `shelterId` is the owning account. */
  datatype Pet = Pet(
    id: nat, name: string, petType: string, age: int, breed: string, description: string,
    status: string, photoUrl: Option<string>, shelterId: nat)

  /** AdoptionRequest: the status column is free text. */
  datatype AdoptionRequest = AdoptionRequest(id: nat, userId: nat, petId: nat, status: string)

  datatype Appointment = Appointment(
    id: nat, userId: nat, shelterId: nat, adoptionRequestId: nat,
    visitorName: string, numberOfVisitors: int, appointmentDateTime: int, status: AppointmentStatus)

  /** The exception classes the services throw, with their messages. */
  datatype ServiceError =
    | ResourceNotFound(message: string)
    | Unauthorized(message: string)
    | IllegalArgument(message: string)
    | UsernameNotFound(message: string)
    | Runtime(message: string)

  /** No two rows share an id, and every id is below the next one to be issued. */
  predicate FreshIds<T>(rows: seq<T>, id: T -> nat, next: nat)
  {
    && (forall i, j :: 0 <= i < j < |rows| ==> id(rows[i]) != id(rows[j]))
    && (forall i :: 0 <= i < |rows| ==> id(rows[i]) < next)
  }

  /** Saving a new row with the next id keeps the ids fresh. */
  lemma FreshIdsAppend<T>(rows: seq<T>, id: T -> nat, next: nat, row: T)
    requires FreshIds(rows, id, next) && id(row) == next
    ensures FreshIds(rows + [row], id, next + 1)
  {
  }

  /** Rewriting rows in place without touching their ids keeps the ids fresh. */
  lemma FreshIdsSameIds<T>(rows: seq<T>, rows': seq<T>, id: T -> nat, next: nat)
    requires FreshIds(rows, id, next) && |rows'| == |rows|
    requires forall i :: 0 <= i < |rows| ==> id(rows'[i]) == id(rows[i])
    ensures FreshIds(rows', id, next)
  {
  }

  /** With fresh ids, two stored rows with one id are the same row. */
  lemma SameIdSameRow<T>(rows: seq<T>, id: T -> nat, next: nat, x: T, y: T)
    requires FreshIds(rows, id, next)
    requires x in rows && y in rows && id(x) == id(y)
    ensures x == y
  {
    var i :| 0 <= i < |rows| && rows[i] == x;
    var j :| 0 <= j < |rows| && rows[j] == y;
  }

  /** `findByEmail`: the first account with this e-mail. */
  function UserByEmail(users: seq<User>, email: string): (r: Option<User>)
    ensures r.Some? ==> r.value in users && r.value.email == email
    ensures r.None? <==> forall u :: u in users ==> u.email != email
  {
    Find(users, (u: User) => u.email == email)
  }

  /** `findById` on the user table. */
  function UserById(users: seq<User>, id: nat): (r: Option<User>)
    ensures r.Some? ==> r.value in users && r.value.id == id
    ensures r.None? <==> forall u :: u in users ==> u.id != id
  {
    Find(users, (u: User) => u.id == id)
  }

  function PetById(pets: seq<Pet>, id: nat): (r: Option<Pet>)
    ensures r.Some? ==> r.value in pets && r.value.id == id
    ensures r.None? <==> forall p :: p in pets ==> p.id != id
  {
    Find(pets, (p: Pet) => p.id == id)
  }

  function RequestById(requests: seq<AdoptionRequest>, id: nat): (r: Option<AdoptionRequest>)
    ensures r.Some? ==> r.value in requests && r.value.id == id
    ensures r.None? <==> forall q :: q in requests ==> q.id != id
  {
    Find(requests, (q: AdoptionRequest) => q.id == id)
  }

  function AppointmentById(appointments: seq<Appointment>, id: nat): (r: Option<Appointment>)
    ensures r.Some? ==> r.value in appointments && r.value.id == id
    ensures r.None? <==> forall a :: a in appointments ==> a.id != id
  {
    Find(appointments, (a: Appointment) => a.id == id)
  }

  /** `adoptionRequest.getAppointment() != null`: some appointment refers to the request. */
  predicate HasAppointment(appointments: seq<Appointment>, requestId: nat)
  {
    exists a :: a in appointments && a.adoptionRequestId == requestId
  }

  /** The one-to-one side of the relation: no request has two appointments. */
  predicate AtMostOneAppointmentPerRequest(appointments: seq<Appointment>)
  {
    forall i, j :: 0 <= i < j < |appointments| ==>
      appointments[i].adoptionRequestId != appointments[j].adoptionRequestId
  }

  /** The repositories. */
  class Database {
    var users: seq<User>
    var pets: seq<Pet>
    var requests: seq<AdoptionRequest>
    var appointments: seq<Appointment>
    var nextUserId: nat
    var nextPetId: nat
    var nextRequestId: nat
    var nextAppointmentId: nat

    /**
     * Ids are unique per table; every request names an existing pet (the
     * `pet_id` join column is a required foreign key); a request has at most
     * one appointment. The last is not a table constraint: the booking guard
     * keeps it, provided service calls run one at a time.
     */
    predicate Valid()
      reads this
    {
      && FreshIds(users, (u: User) => u.id, nextUserId)
      && FreshIds(pets, (p: Pet) => p.id, nextPetId)
      && FreshIds(requests, (q: AdoptionRequest) => q.id, nextRequestId)
      && FreshIds(appointments, (a: Appointment) => a.id, nextAppointmentId)
      && (forall q :: q in requests ==> PetById(pets, q.petId).Some?)
      && AtMostOneAppointmentPerRequest(appointments)
    }

    constructor ()
      ensures users == [] && pets == [] && requests == [] && appointments == []
      ensures Valid()
    {
      users, pets, requests, appointments := [], [], [], [];
      nextUserId, nextPetId, nextRequestId, nextAppointmentId := 1, 1, 1, 1;
    }
  }
}
