/**
 * The descriptive part of a CV document: the consultant, the skills, the
 * availability, the tags and the notes, as the upload route stores them and the
 * search and export read them back.
 */
module CvDocs {
  import opened Common

  type Millis = int

  /** A skill; `years` is the number the upload route derived from the request, or none. */
  datatype Skill = Skill(name: string, level: Option<string>, years: Option<int>)

  datatype Consultant = Consultant(
    name: string,
    email: Option<string>,
    phone: Option<string>,
    title: Option<string>,
    location: Option<string>,
    seniority: Option<string>,
    languages: Option<seq<string>>)

  datatype AvailabilityStatus = Available | Unavailable | Soon | Unknown

  datatype Availability = Availability(status: AvailabilityStatus, availableFrom: Option<Millis>, notes: Option<string>)

  /** The fields of a CV document that describe the consultant; `skills` and `tags` may be missing. */
  datatype Profile = Profile(
    consultant: Consultant,
    skills: Option<seq<Skill>>,
    availability: Availability,
    tags: Option<seq<string>>,
    notes: Option<string>)

  /** The name under which a status is stored and filtered on. */
  function StatusName(s: AvailabilityStatus): (r: string)
    ensures r in {"available", "unavailable", "soon", "unknown"}
  {
    match s
    case Available => "available"
    case Unavailable => "unavailable"
    case Soon => "soon"
    case Unknown => "unknown"
  }

  /** Distinct statuses are stored under distinct names. */
  lemma StatusNameInjective(a: AvailabilityStatus, b: AvailabilityStatus)
    ensures StatusName(a) == StatusName(b) ==> a == b
  {
  }
}
