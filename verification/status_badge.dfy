/** The colour rule of src/app/components/StatusBadge.tsx: one switch from a
    status string to a class string, with a gray default. */
module StatusBadge {
  import opened Types

  const Blue := "bg-blue-100 text-blue-700 hover:bg-blue-100"
  const Purple := "bg-purple-100 text-purple-700 hover:bg-purple-100"
  const Yellow := "bg-yellow-100 text-yellow-700 hover:bg-yellow-100"
  const Cyan := "bg-cyan-100 text-cyan-700 hover:bg-cyan-100"
  const Green := "bg-green-100 text-green-700 hover:bg-green-100"
  const Red := "bg-red-100 text-red-700 hover:bg-red-100"
  const Gray := "bg-gray-100 text-gray-700 hover:bg-gray-100"

  /** The seven classes a badge can take. */
  const Palette: set<string> := {Blue, Purple, Yellow, Cyan, Green, Red, Gray}

  /** `getStatusColor`: total over every string, the `default` branch included. */
  function StatusColor(status: string): (cls: string)
    ensures cls in Palette
  {
    if status == "New" || status == "Open" then Blue
    else if status == "Screening" then Purple
    else if status == "Interview Level 1" || status == "Interview Level 2"
         || status == "Interview Level 3" || status == "Interview Level 4" then Yellow
    else if status == "Offered" then Cyan
    else if status == "Joined" || status == "Active" then Green
    else if status == "Rejected" || status == "Closed" || status == "Inactive" then Red
    else if status == "On Hold" then Gray
    else Gray
  }

  /** What the badge renders: its class list and its text. */
  datatype Badge = Badge(className: string, text: string)

  /** `StatusBadge`: the colour class followed by `border-0`, labelled with
      the status string itself. */
  function StatusBadgeView(status: string): (b: Badge)
    ensures b.text == status
    ensures StatusColor(status) <= b.className
  {
    Badge(StatusColor(status) + " border-0", status)
  }

  /** The seven palette classes are pairwise different. */
  lemma PaletteDistinct()
    ensures |Palette| == 7
  {
    // Same-length classes differ in the last letter of their colour word.
    assert Blue[|Blue| - 5] == 'e' && Cyan[|Cyan| - 5] == 'n' && Gray[|Gray| - 5] == 'y';
    assert Purple[|Purple| - 5] == 'e' && Yellow[|Yellow| - 5] == 'w';
  }

  /** The four `Interview Level n` stages. */
  predicate IsInterviewStage(s: CandidateStatus)
  {
    s.InterviewLevel1? || s.InterviewLevel2? || s.InterviewLevel3? || s.InterviewLevel4?
  }

  /** The four interview stages share yellow; New and Open share blue; Joined
      and Active share green; Rejected, Closed and Inactive share red. */
  lemma StatusColorGroups()
    ensures forall s :: IsInterviewStage(s) ==> StatusColor(CandidateStatusName(s)) == Yellow
    ensures StatusColor(CandidateStatusName(New)) == StatusColor(PositionStatusName(Open)) == Blue
    ensures StatusColor(CandidateStatusName(Joined)) == StatusColor(AccountStatusName(Active)) == Green
    ensures StatusColor(CandidateStatusName(Rejected)) == StatusColor(PositionStatusName(Closed))
      == StatusColor(AccountStatusName(Inactive)) == Red
  {
  }

  /** "On Hold", of candidates and of positions alike, gets exactly what an
      unknown string gets. */
  lemma OnHoldIsDefault(other: string)
    requires CandidateStatusFromName(other).None?
    requires other !in {"Open", "Closed", "Active", "Inactive"}
    ensures StatusColor(CandidateStatusName(CandidateStatus.OnHold)) == StatusColor(other) == Gray
    ensures StatusColor(PositionStatusName(PositionStatus.OnHold)) == Gray
  {
  }

  /** Each stage's colour, read off the switch. */
  lemma StageColourTable()
    ensures StatusColor(CandidateStatusName(New)) == Blue
    ensures StatusColor(CandidateStatusName(Screening)) == Purple
    ensures forall s :: IsInterviewStage(s) ==> StatusColor(CandidateStatusName(s)) == Yellow
    ensures StatusColor(CandidateStatusName(Offered)) == Cyan
    ensures StatusColor(CandidateStatusName(Joined)) == Green
    ensures StatusColor(CandidateStatusName(Rejected)) == Red
    ensures StatusColor(CandidateStatusName(CandidateStatus.OnHold)) == Gray
  {
  }

  /** Among candidate stages, only On Hold is gray, and stages in different
      groups get different colours. */
  lemma CandidateStageColours(s: CandidateStatus, t: CandidateStatus)
    ensures StatusColor(CandidateStatusName(s)) == Gray <==> s == CandidateStatus.OnHold
    ensures StatusColor(CandidateStatusName(s)) == StatusColor(CandidateStatusName(t)) <==>
      s == t || (IsInterviewStage(s) && IsInterviewStage(t))
  {
    PaletteDistinct();
    StageColourTable();
  }
}
