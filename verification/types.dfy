/** The record shapes and closed enumerations of src/app/types/index.ts.
    Each enumeration that the pages compare as text has a name function
    (its TypeScript string literal) and a parser that inverts it. */
module Types {

  datatype Option<T> = None | Some(value: T)

  /** `UserRole`: exactly four roles. */
  datatype UserRole = Admin | BDM | AM | Recruiter

  const AllRoles: seq<UserRole> := [Admin, BDM, AM, Recruiter]

  function RoleName(r: UserRole): string
  {
    match r
    case Admin => "Admin"
    case BDM => "BDM"
    case AM => "AM"
    case Recruiter => "Recruiter"
  }

  function RoleFromName(s: string): (r: Option<UserRole>)
    ensures r.Some? ==> RoleName(r.value) == s
  {
    if s == "Admin" then Some(Admin)
    else if s == "BDM" then Some(BDM)
    else if s == "AM" then Some(AM)
    else if s == "Recruiter" then Some(Recruiter)
    else None
  }

  /** The role names and the role parser invert each other, so the four
      names are distinct and every role is among the four listed. */
  lemma RolesClosed()
    ensures |AllRoles| == 4
    ensures forall r: UserRole :: r in AllRoles && RoleFromName(RoleName(r)) == Some(r)
    ensures forall i, j :: 0 <= i < j < |AllRoles| ==> RoleName(AllRoles[i]) != RoleName(AllRoles[j])
  {
    forall r: UserRole ensures r in AllRoles && RoleFromName(RoleName(r)) == Some(r) {
      match r
      case Admin => assert AllRoles[0] == r;
      case BDM => assert AllRoles[1] == r;
      case AM => assert AllRoles[2] == r;
      case Recruiter => assert AllRoles[3] == r;
    }
  }

  /** `CandidateStatus`: exactly ten pipeline stages. */
  datatype CandidateStatus =
    | New
    | Screening
    | InterviewLevel1
    | InterviewLevel2
    | InterviewLevel3
    | InterviewLevel4
    | Offered
    | Joined
    | Rejected
    | OnHold

  /** The ten stages in the order index.ts declares them. */
  const AllCandidateStatuses: seq<CandidateStatus> :=
    [New, Screening, InterviewLevel1, InterviewLevel2, InterviewLevel3, InterviewLevel4,
     Offered, Joined, Rejected, CandidateStatus.OnHold]

  function CandidateStatusName(s: CandidateStatus): string
  {
    match s
    case New => "New"
    case Screening => "Screening"
    case InterviewLevel1 => "Interview Level 1"
    case InterviewLevel2 => "Interview Level 2"
    case InterviewLevel3 => "Interview Level 3"
    case InterviewLevel4 => "Interview Level 4"
    case Offered => "Offered"
    case Joined => "Joined"
    case Rejected => "Rejected"
    case OnHold => "On Hold"
  }

  function CandidateStatusFromName(s: string): (r: Option<CandidateStatus>)
    ensures r.Some? ==> CandidateStatusName(r.value) == s
  {
    if s == "New" then Some(New)
    else if s == "Screening" then Some(Screening)
    else if s == "Interview Level 1" then Some(InterviewLevel1)
    else if s == "Interview Level 2" then Some(InterviewLevel2)
    else if s == "Interview Level 3" then Some(InterviewLevel3)
    else if s == "Interview Level 4" then Some(InterviewLevel4)
    else if s == "Offered" then Some(Offered)
    else if s == "Joined" then Some(Joined)
    else if s == "Rejected" then Some(Rejected)
    else if s == "On Hold" then Some(CandidateStatus.OnHold)
    else None
  }

  /** Every stage is listed once, and names and parser invert each other,
      so two stages never share a name. */
  lemma CandidateStatusesClosed()
    ensures |AllCandidateStatuses| == 10
    ensures forall s: CandidateStatus ::
      s in AllCandidateStatuses && CandidateStatusFromName(CandidateStatusName(s)) == Some(s)
    ensures forall i, j :: 0 <= i < j < |AllCandidateStatuses| ==>
      AllCandidateStatuses[i] != AllCandidateStatuses[j]
  {
    forall s: CandidateStatus
      ensures s in AllCandidateStatuses && CandidateStatusFromName(CandidateStatusName(s)) == Some(s)
    {
      match s
      case New => assert AllCandidateStatuses[0] == s;
      case Screening => assert AllCandidateStatuses[1] == s;
      case InterviewLevel1 => assert AllCandidateStatuses[2] == s;
      case InterviewLevel2 => assert AllCandidateStatuses[3] == s;
      case InterviewLevel3 => assert AllCandidateStatuses[4] == s;
      case InterviewLevel4 => assert AllCandidateStatuses[5] == s;
      case Offered => assert AllCandidateStatuses[6] == s;
      case Joined => assert AllCandidateStatuses[7] == s;
      case Rejected => assert AllCandidateStatuses[8] == s;
      case OnHold => assert AllCandidateStatuses[9] == s;
    }
  }

  /** Stage names are case-sensitive and exact: equal names mean equal stages. */
  lemma CandidateStatusNameInjective(s: CandidateStatus, t: CandidateStatus)
    ensures CandidateStatusName(s) == CandidateStatusName(t) <==> s == t
  {
    assert CandidateStatusFromName(CandidateStatusName(s)) == Some(s);
  }

  /** The `'Active' | 'Inactive'` status of users and clients. */
  datatype AccountStatus = Active | Inactive

  function AccountStatusName(s: AccountStatus): string
  {
    match s
    case Active => "Active"
    case Inactive => "Inactive"
  }

  /** The `'Open' | 'Closed' | 'On Hold'` status of positions. */
  datatype PositionStatus = Open | Closed | OnHold

  function PositionStatusName(s: PositionStatus): string
  {
    match s
    case Open => "Open"
    case Closed => "Closed"
    case OnHold => "On Hold"
  }

  /** The five states of one interview round. */
  datatype InterviewStatus = Pending | Scheduled | Completed | Passed | Failed

  datatype User = User(
    id: string,
    name: string,
    email: string,
    role: UserRole,
    avatar: Option<string>,
    status: AccountStatus,
    createdAt: string)

  datatype Candidate = Candidate(
    id: string,
    name: string,
    email: string,
    phone: string,
    position: string,
    clientId: string,
    clientName: string,
    status: CandidateStatus,
    assignedRecruiterId: string,
    assignedRecruiterName: string,
    currentCTC: string,
    expectedCTC: string,
    noticePeriod: string,
    experience: string,
    skills: seq<string>,
    education: string,
    location: string,
    nextInterviewDate: Option<string>,
    joinDate: Option<string>,
    createdAt: string,
    updatedAt: string)

  /** `level` is a TypeScript `number`, modelled as an integer round number. */
  datatype InterviewLevel = InterviewLevel(
    level: int,
    date: Option<string>,
    status: InterviewStatus,
    interviewer: Option<string>,
    feedback: Option<string>,
    scheduledTime: Option<string>)

  datatype Comment = Comment(
    id: string,
    candidateId: string,
    userId: string,
    userName: string,
    userAvatar: Option<string>,
    content: string,
    createdAt: string)

  datatype Client = Client(
    id: string,
    name: string,
    industry: string,
    location: string,
    contactPerson: string,
    contactEmail: string,
    contactPhone: string,
    openPositions: int,
    activeContracts: int,
    status: AccountStatus,
    createdAt: string)

  datatype Position = Position(
    id: string,
    title: string,
    clientId: string,
    clientName: string,
    description: string,
    requiredSkills: seq<string>,
    experience: string,
    budget: string,
    openings: int,
    filled: int,
    status: PositionStatus,
    createdAt: string)
}
