/**
 * The record types of the mock back end: staff profiles, and a student's folder with its family
 * contacts, medications and documents. Dates are ISO day strings, as the records store them.
 */
module MockData {
  import opened Wrappers

  datatype StaffRole = StaffAdmin | StaffSupervisor | StaffTherapist

  /** The role as the records spell it. */
  function StaffRoleText(r: StaffRole): (t: string)
    ensures t in {"admin", "supervisor", "therapist"}
    ensures t == "admin" <==> r == StaffAdmin
    ensures t == "supervisor" <==> r == StaffSupervisor
    ensures t == "therapist" <==> r == StaffTherapist
  {
    match r
    case StaffAdmin => "admin"
    case StaffSupervisor => "supervisor"
    case StaffTherapist => "therapist"
  }

  datatype UserProfile = UserProfile(
    id: string,
    name: string,
    profession: string,
    title: string,
    description: string,
    avatar: string,
    role: StaffRole,
    email: string,
    phone: Option<string>,
    joinedDate: string)

  datatype MedStatus = MedActive | MedInactive

  datatype MedicationRecord = MedicationRecord(
    id: string,
    name: string,
    dose: string,
    frequency: string,
    status: MedStatus,
    startDate: string,
    endDate: Option<string>,
    prescribedBy: string,
    notes: Option<string>,
    history: Option<seq<MedicationRecord>>)

  datatype FamilyMember = FamilyMember(
    id: string, name: string, relationship: string, phone: string, email: Option<string>, isPrimaryContact: bool)

  datatype DocumentType = Consent | Medical | Authorization | OtherDocument

  datatype LegalDocument = LegalDocument(
    id: string, name: string, docType: DocumentType, uploadDate: string, fileUrl: string, fileSize: string)

  datatype StudentStatus = StudentActive | StudentInactive

  /** The status as the records and the list's tabs spell it. */
  function StudentStatusText(s: StudentStatus): (t: string)
    ensures t in {"active", "inactive"}
    ensures t == "active" <==> s == StudentActive
  {
    match s
    case StudentActive => "active"
    case StudentInactive => "inactive"
  }

  datatype StudentProfile = StudentProfile(
    id: string,
    avatar: string,
    fullName: string,
    identityNumber: string,
    dateOfBirth: string,
    age: int,
    diagnosis: string,
    consultationReason: string,
    hasActiveSession: bool,
    familyAccessEnabled: bool,
    familyMembers: seq<FamilyMember>,
    medications: seq<MedicationRecord>,
    legalDocuments: seq<LegalDocument>,
    registrationDate: string,
    lastSessionDate: Option<string>,
    assignedTherapist: Option<string>,
    status: Option<StudentStatus>)
}
