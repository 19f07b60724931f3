/** The shape of the application form that the validator checks. */
module Types {

  /** A picture file chosen in the browser; nothing about it is validated. */
  type Image(!new)

  /** One submitted application. Every input arrives as a string; `specialty`
      is declared as one of the known specialties but is not restricted at
      run time, so it is a string here too. */
  datatype ApplicationForm = ApplicationForm(
    name: string,
    phone: string,
    email: string,
    birthDate: string,
    photo: Image,
    specialty: string,
    customSpecialty: string,
    experience: string,
    password: string)

  /** `keyof ApplicationForm`: the names of the form's fields. */
  datatype Field =
    | Name
    | Phone
    | Email
    | BirthDate
    | Photo
    | Specialty
    | CustomSpecialty
    | Experience
    | Password
}
