/** The rules of src/app/pages/CandidateDetailPage.tsx: the lookup of the
    candidate named by the route, the per-candidate interview levels and
    comments, the interview timeline's icons, badges and connectors, and the
    page's edit flag and comment draft. */
module CandidateDetailPage {
  import opened Types
  import opened Text
  import StatusBadge

  /** `mockCandidates.find(c => c.id === id)`: the first candidate with the
      route's id; an absent id (`undefined`) equals no candidate's id. */
  function FindCandidate(cs: seq<Candidate>, id: Option<string>): (r: Option<Candidate>)
    ensures r.Some? <==> id.Some? && exists c :: c in cs && c.id == id.value
    ensures r.Some? ==> r.value.id == id.value && exists i ::
      0 <= i < |cs| && cs[i] == r.value && forall j :: 0 <= j < i ==> cs[j].id != id.value
    decreases |cs|
  {
    if id.None? || |cs| == 0 then None
    else if cs[0].id == id.value then Some(cs[0])
    else
      var r := FindCandidate(cs[1..], id);
      assert forall c :: c in cs <==> c == cs[0] || c in cs[1..];
      if r.Some? then
        FirstIndexShifts(cs, id.value, r.value);
        r
      else
        r
  }

  /** A first occurrence in the tail, behind a head with another id, is a
      first occurrence in the whole list. */
  lemma FirstIndexShifts(cs: seq<Candidate>, id: string, c: Candidate)
    requires |cs| > 0 && cs[0].id != id
    requires exists i :: 0 <= i < |cs[1..]| && cs[1..][i] == c && forall j :: 0 <= j < i ==> cs[1..][j].id != id
    ensures exists i :: 0 <= i < |cs| && cs[i] == c && forall j :: 0 <= j < i ==> cs[j].id != id
  {
    var i :| 0 <= i < |cs[1..]| && cs[1..][i] == c && forall j :: 0 <= j < i ==> cs[1..][j].id != id;
    assert cs[i + 1] == c;
    assert forall j :: 1 <= j < i + 1 ==> cs[j] == cs[1..][j - 1];
  }

  /** `id ? table[id] || [] : []`: the entry for a present, non-empty id, and
      the empty sequence when the id is absent, empty or has no entry. */
  function EntryOrEmpty<T>(table: map<string, seq<T>>, id: Option<string>): seq<T>
  {
    if id.Some? && id.value != "" && id.value in table then table[id.value] else []
  }

  /** Levels and comments default to nothing exactly when there is no entry
      to read, and otherwise are the stored entry. */
  lemma EntryOrEmptySpec<T>(table: map<string, seq<T>>, id: Option<string>)
    ensures id.None? || id.value == "" || id.value !in table ==> EntryOrEmpty(table, id) == []
    ensures id.Some? && id.value in table && id.value != "" ==> EntryOrEmpty(table, id) == table[id.value]
  {
  }

  /** What the page renders. */
  datatype DetailView =
    | NotFound
    | Found(candidate: Candidate, levels: seq<InterviewLevel>, comments: seq<Comment>)

  /** The page for a route id: "Candidate not found" when the lookup fails,
      otherwise the candidate with its levels and comments. */
  function View(cs: seq<Candidate>, levelTable: map<string, seq<InterviewLevel>>,
                commentTable: map<string, seq<Comment>>, id: Option<string>): (v: DetailView)
    ensures v.NotFound? <==> id.None? || forall c :: c in cs ==> c.id != id.value
    ensures v.Found? ==> v.candidate in cs && v.candidate.id == id.value
  {
    match FindCandidate(cs, id)
    case None => NotFound
    case Some(c) => Found(c, EntryOrEmpty(levelTable, id), EntryOrEmpty(commentTable, id))
  }

  /** A found page shows the first candidate of the list with that id, and
      the levels and comments stored under the id. */
  lemma FoundViewSpec(cs: seq<Candidate>, levelTable: map<string, seq<InterviewLevel>>,
                      commentTable: map<string, seq<Comment>>, i: nat)
    requires i < |cs|
    requires forall j :: 0 <= j < i ==> cs[j].id != cs[i].id
    ensures View(cs, levelTable, commentTable, Some(cs[i].id))
      == Found(cs[i], EntryOrEmpty(levelTable, Some(cs[i].id)), EntryOrEmpty(commentTable, Some(cs[i].id)))
    ensures cs[i].id !in levelTable ==> View(cs, levelTable, commentTable, Some(cs[i].id)).levels == []
  {
    var r := FindCandidate(cs, Some(cs[i].id));
    assert cs[i] in cs;
    var k :| 0 <= k < |cs| && cs[k] == r.value && r.value.id == cs[i].id
      && forall j :: 0 <= j < k ==> cs[j].id != cs[i].id;
  }

  /** The icon beside one interview round. */
  datatype InterviewIcon = GreenCheck | YellowClock | RedCircle | GrayCircle

  /** `getInterviewIcon`. */
  function IconFor(s: InterviewStatus): InterviewIcon
  {
    if s == Passed || s == Completed then GreenCheck
    else if s == Scheduled then YellowClock
    else if s == Failed then RedCircle
    else GrayCircle
  }

  const Slate := "bg-slate-100 text-slate-700 hover:bg-slate-100"

  /** The class of the status badge of one interview round. */
  function LevelBadgeClass(s: InterviewStatus): (cls: string)
    ensures cls in {StatusBadge.Green, StatusBadge.Yellow, StatusBadge.Red, Slate}
  {
    if s == Passed then StatusBadge.Green
    else if s == Scheduled then StatusBadge.Yellow
    else if s == Failed then StatusBadge.Red
    else Slate
  }

  /** The icon and the badge group the five states the same way except for
      Completed: the icon shows it like Passed, the badge like Pending. */
  lemma IconAndBadgeDisagreeOnlyOnCompleted()
    ensures IconFor(Completed) == IconFor(Passed) && IconFor(Completed) != IconFor(Pending)
    ensures LevelBadgeClass(Completed) == LevelBadgeClass(Pending)
    ensures LevelBadgeClass(Completed) != LevelBadgeClass(Passed)
    ensures forall s, t :: s != Completed && t != Completed ==>
      (IconFor(s) == IconFor(t) <==> LevelBadgeClass(s) == LevelBadgeClass(t))
  {
    var G, Y, R, S := StatusBadge.Green, StatusBadge.Yellow, StatusBadge.Red, Slate;
    assert G[|G| - 5] == 'n' && S[|S| - 5] == 'e';
    assert |Y| != |G| && |Y| != |R| && |Y| != |S| && |R| != |G| && |R| != |S|;
  }

  /** The vertical line after round `i` of `n`. */
  predicate HasConnector(i: int, n: int)
  {
    i < n - 1
  }

  /** The timeline card appears only when there is at least one round. */
  predicate TimelineShown(levels: seq<InterviewLevel>)
  {
    |levels| > 0
  }

  /** The rounds of the timeline drawn with a connector below them. */
  function ConnectorIndices(levels: seq<InterviewLevel>): set<int>
  {
    set i | 0 <= i < |levels| && HasConnector(i, |levels|)
  }

  /** The indices `0 .. n - 1`, one element each. */
  function IndicesBelow(n: nat): (r: set<int>)
    ensures forall i :: i in r <==> 0 <= i < n
    ensures |r| == n
    decreases n
  {
    if n == 0 then {} else
      var r := IndicesBelow(n - 1);
      assert n - 1 !in r;
      r + {n - 1}
  }

  /** A shown timeline of `n` rounds has `n - 1` connectors, one below every
      round but the last, each leading on to the next round; a hidden
      timeline has none. */
  lemma TimelineConnectors(levels: seq<InterviewLevel>)
    ensures |ConnectorIndices(levels)| == if TimelineShown(levels) then |levels| - 1 else 0
    ensures forall i :: i in ConnectorIndices(levels) ==> 0 <= i && i + 1 < |levels|
    ensures forall i :: 0 <= i < |levels| - 1 ==> i in ConnectorIndices(levels)
    ensures TimelineShown(levels) ==> |levels| - 1 !in ConnectorIndices(levels)
  {
    var n := if |levels| > 0 then |levels| - 1 else 0;
    assert ConnectorIndices(levels) == IndicesBelow(n);
  }

  /** What the comment box holds after "Add Comment": cleared when the draft
      has something besides whitespace, left as it is otherwise. */
  function DraftAfterSave(draft: string): (next: string)
    ensures next == draft <==> forall i :: 0 <= i < |draft| ==> IsJsWhitespace(draft[i])
    ensures next != draft ==> next == ""
  {
    TrimBlankIff(draft);
    if Trim(draft) != "" then "" else draft
  }

  /** The page state `isEditing` and `newComment`. */
  class DetailState {
    var isEditing: bool
    var newComment: string

    /** The page opens out of edit mode with an empty comment box. */
    constructor ()
      ensures !isEditing && newComment == ""
    {
      isEditing := false;
      newComment := "";
    }

    /** Typing in the comment box. */
    method SetDraft(text: string)
      modifies this
      ensures newComment == text && isEditing == old(isEditing)
    {
      newComment := text;
    }

    /** `handleSaveComment`: when the trimmed draft is non-empty, confirm
        (`saved`, the success toast) and clear the box; otherwise do nothing.
        The comment list itself is not extended. */
    method SaveComment() returns (saved: bool)
      modifies this
      ensures saved <==> exists i :: 0 <= i < |old(newComment)| && !IsJsWhitespace(old(newComment)[i])
      ensures newComment == DraftAfterSave(old(newComment))
      ensures isEditing == old(isEditing)
    {
      TrimBlankIff(newComment);
      if Trim(newComment) != "" {
        saved := true;
        newComment := "";
      } else {
        saved := false;
      }
    }

    /** The Edit button. */
    method Edit()
      modifies this
      ensures isEditing && newComment == old(newComment)
    {
      isEditing := true;
    }

    /** The Cancel button: leaves edit mode. */
    method Cancel()
      modifies this
      ensures !isEditing && newComment == old(newComment)
    {
      isEditing := false;
    }

    /** The Save Changes button: leaves edit mode (and shows a toast). */
    method SaveChanges()
      modifies this
      ensures !isEditing && newComment == old(newComment)
    {
      isEditing := false;
    }
  }
}
