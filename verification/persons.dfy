/** The person records the core works on. Each field wrapper class of the
    application (`Name`, `Nric`, `Age`, ...) is reduced to the string it holds;
    the validation rules behind those classes are not part of this model. */
module Persons {

  /** A free-form tag attached to a person. */
  datatype Tag = Tag(tagName: string)

  /** A medical-qualification tag of a volunteer. */
  datatype MedicalTag = MedicalTag(tagName: string)

  /** The fields every person has: name, phone, email, address and tags. */
  datatype PersonFields = PersonFields(
    name: string,
    phone: string,
    email: string,
    address: string,
    tags: set<Tag>)

  datatype Nric = Nric(value: string)

  datatype Age = Age(value: string)

  /** A risk level, kept as the text it is written with in storage. */
  datatype RiskLevel = RiskLevel(riskStatus: string)

  datatype Elderly = Elderly(fields: PersonFields, nric: Nric, age: Age, riskLevel: RiskLevel)

  /** A volunteer, with the set of its medical-qualification tags. */
  datatype Volunteer = Volunteer(fields: PersonFields, nric: Nric, age: Age, medicalTags: set<MedicalTag>)

  /** Any record the address book holds. Two records are the same person
      exactly when all their fields are equal. */
  datatype Person = VolunteerPerson(volunteer: Volunteer) | ElderlyPerson(elderly: Elderly)
}
