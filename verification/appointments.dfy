/** The data of the medical appointment service: the stored record, the
    payload a caller supplies, and the success/failure values every
    operation returns. */
module Appointments {

  /** Candid's nat64: the timestamps of the host clock and of appointments,
      in nanoseconds. */
  type Nat64 = x: int | 0 <= x < 0x1_0000_0000_0000_0000

  datatype Option<+T> = None | Some(value: T)

  /** One appointment as it is kept in the store (a MedicalAppointment). */
  datatype Appointment = Appointment(
    id: string,
    patientName: string,
    doctorName: string,
    appointmentDate: Nat64,
    isScheduled: bool,
    reminderSent: bool,
    medicalRecord: string,
    createdAt: Option<Nat64>,
    updatedAt: Option<Nat64>
  )

  /** What a caller supplies to schedule or update an appointment. */
  datatype Payload = Payload(
    patientName: string,
    doctorName: string,
    appointmentDate: Nat64
  )

  /** The failure cases the service reports; each one stands for the message
      text of one `Result.Err` in the service. */
  datatype Error =
    | MissingFields          // payload rejected by the validity check
    | NotFound               // no record under the id
    | AlreadyCanceled        // cancel of a record that is not scheduled
    | NotScheduled           // complete of a record that is not scheduled
    | ReminderNotApplicable  // reminder for an unscheduled or already reminded record
    | InvalidId              // delete with an id that is not a UUID

  datatype Result<+T> = Ok(value: T) | Err(error: Error)

  /** The keyed store: appointment id to appointment. */
  type Store = map<string, Appointment>
}
