/**
 * The record shapes exchanged between the server and the browser client
 * (the server's DTO classes, as the client's pages read them). Ids are the
 * database's positive identity values; dates are integer timestamps in
 * milliseconds.
 */
module Dto {
  import opened Common
  import opened Status

  /**
   * An adoption request as the client holds it. The client also reads a
   * `createdAt` field; the server's mapping never fills it, so it is absent
   * on every request the server sends.
   */
  datatype RequestDto = RequestDto(
    id: nat, userId: nat, petId: nat, status: RequestStatus, createdAt: Option<int>)

  /** An appointment as the client holds it. */
  datatype AppointmentDto = AppointmentDto(
    id: nat, userId: nat, shelterId: nat, adoptionRequestId: nat,
    visitorName: string, numberOfVisitors: int, appointmentDateTime: int,
    status: AppointmentStatus)

  /** A pet listing; `status` is free text ("AVAILABLE", "ADOPTED", ...). */
  datatype PetDto = PetDto(
    id: nat, name: string, petType: string, age: int, breed: string,
    description: string, status: string, photoUrl: Option<string>, shelterId: nat)

  const AVAILABLE := "AVAILABLE"
  const ADOPTED := "ADOPTED"
  /** The pet status the client writes locally after sending an adoption request. */
  const PENDING_PET := "PENDING"
}
