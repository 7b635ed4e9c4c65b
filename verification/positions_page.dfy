/** The rules of src/app/pages/PositionsPage.tsx: the position search, the
    open count of a position and the four-skill preview with its overflow
    badge. */
module PositionsPage {
  import opened Types
  import opened Text
  import opened Seqs

  /** The query, ignoring case, occurs in the title or the client name. */
  predicate PositionMatches(p: Position, query: string)
  {
    IncludesIgnoringCase(p.title, query) || IncludesIgnoringCase(p.clientName, query)
  }

  /** The callback handed to `filter`. */
  function Searches(query: string): Position -> bool
  {
    (p: Position) => PositionMatches(p, query)
  }

  /** `filteredPositions`. */
  function FilteredPositions(positions: seq<Position>, query: string): seq<Position>
  {
    Filter(positions, Searches(query))
  }

  /** The number in the header, `filteredPositions.length`. */
  function HeaderCount(positions: seq<Position>, query: string): (n: nat)
    ensures n <= |positions|
  {
    |FilteredPositions(positions, query)|
  }

  /** The result holds exactly the matching positions, in list order. */
  lemma FilteredPositionsSpec(positions: seq<Position>, query: string)
    ensures forall p :: p in FilteredPositions(positions, query) ==> p in positions && PositionMatches(p, query)
    ensures forall p :: p in positions && PositionMatches(p, query) ==> p in FilteredPositions(positions, query)
    ensures forall i :: 0 <= i < |positions| ==>
      (i in KeptIndices(positions, Searches(query)) <==> PositionMatches(positions[i], query))
    ensures Embeds(FilteredPositions(positions, query), positions, KeptIndices(positions, Searches(query)))
    ensures IsSubsequence(FilteredPositions(positions, query), positions)
  {
    FilterMembers(positions, Searches(query));
    FilterKeepsExactly(positions, Searches(query));
  }

  /** An empty query lists every position, closed ones included, and the
      header counts them all. */
  lemma EmptyQueryShowsAllPositions(positions: seq<Position>)
    ensures FilteredPositions(positions, "") == positions
    ensures HeaderCount(positions, "") == |positions|
  {
    forall p | p in positions ensures Searches("")(p) {
      EmptyQueryIncluded(p.title);
    }
    FilterKeepsAll(positions, Searches(""));
  }

  /** The "Open" badge: openings minus filled, with no guard, so it goes
      negative when more are filled than were opened. */
  function OpenCount(p: Position): (n: int)
    ensures n + p.filled == p.openings
    ensures n < 0 <==> p.filled > p.openings
  {
    p.openings - p.filled
  }

  /** `requiredSkills.slice(0, 4)`: at most the first four skills, in order. */
  function ShownSkills(skills: seq<string>): (shown: seq<string>)
    ensures shown <= skills
    ensures |shown| == if |skills| < 4 then |skills| else 4
  {
    if |skills| <= 4 then skills else skills[..4]
  }

  /** The `+n` badge: present exactly when there are more than four skills,
      showing how many are not shown. */
  function Overflow(skills: seq<string>): (badge: Option<nat>)
    ensures badge.Some? <==> |skills| > 4
  {
    if |skills| > 4 then Some(|skills| - 4) else None
  }

  /** The preview and the badge together account for every skill: the badge
      appears exactly when the preview leaves something out, and it counts
      what is left out. */
  lemma SkillsAccountedFor(skills: seq<string>)
    ensures Overflow(skills).Some? <==> ShownSkills(skills) != skills
    ensures |ShownSkills(skills)| + (if Overflow(skills).Some? then Overflow(skills).value else 0) == |skills|
    ensures ShownSkills(skills) + skills[|ShownSkills(skills)|..] == skills
  {
  }
}
