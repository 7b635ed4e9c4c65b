/** The rules of src/app/pages/CandidatesPage.tsx: the search-and-status
    filter over the candidate list, the status dropdown, and the set of
    selected candidate ids behind the row and header checkboxes. */
module CandidatesPage {
  import opened Types
  import opened Text
  import opened Seqs

  /** `matchesSearch`: the query, ignoring case, occurs in the name, the
      email, the position or the client name. */
  predicate MatchesSearch(c: Candidate, query: string)
  {
    || IncludesIgnoringCase(c.name, query)
    || IncludesIgnoringCase(c.email, query)
    || IncludesIgnoringCase(c.position, query)
    || IncludesIgnoringCase(c.clientName, query)
  }

  /** `matchesStatus`: the sentinel "all", or the status written exactly. */
  predicate MatchesStatus(c: Candidate, statusFilter: string)
  {
    statusFilter == "all" || CandidateStatusName(c.status) == statusFilter
  }

  /** The callback handed to `filter`. */
  function Keeps(query: string, statusFilter: string): Candidate -> bool
  {
    (c: Candidate) => MatchesSearch(c, query) && MatchesStatus(c, statusFilter)
  }

  /** `filteredCandidates`. */
  function FilteredCandidates(cs: seq<Candidate>, query: string, statusFilter: string): seq<Candidate>
  {
    Filter(cs, Keeps(query, statusFilter))
  }

  /** The result keeps, in their order, exactly the positions of the list
      whose candidate matches both the search and the status. */
  lemma FilteredCandidatesSpec(cs: seq<Candidate>, query: string, statusFilter: string)
    ensures forall c :: c in FilteredCandidates(cs, query, statusFilter) ==>
      c in cs && MatchesSearch(c, query) && MatchesStatus(c, statusFilter)
    ensures forall c :: c in cs && MatchesSearch(c, query) && MatchesStatus(c, statusFilter) ==>
      c in FilteredCandidates(cs, query, statusFilter)
    ensures Embeds(FilteredCandidates(cs, query, statusFilter), cs, KeptIndices(cs, Keeps(query, statusFilter)))
    ensures forall i :: 0 <= i < |cs| ==>
      (i in KeptIndices(cs, Keeps(query, statusFilter)) <==>
        MatchesSearch(cs[i], query) && MatchesStatus(cs[i], statusFilter))
    ensures IsSubsequence(FilteredCandidates(cs, query, statusFilter), cs)
  {
    FilterMembers(cs, Keeps(query, statusFilter));
    FilterKeepsExactly(cs, Keeps(query, statusFilter));
  }

  /** The search is a substring test, ignoring case, on four fields. */
  lemma MatchesSearchAt(c: Candidate, query: string)
    ensures MatchesSearch(c, query) <==>
      exists field :: field in [c.name, c.email, c.position, c.clientName] &&
        exists i :: 0 <= i <= |field| && Lower(query) <= Lower(field)[i..]
  {
    IncludesIgnoringCaseAt(c.name, query);
    IncludesIgnoringCaseAt(c.email, query);
    IncludesIgnoringCaseAt(c.position, query);
    IncludesIgnoringCaseAt(c.clientName, query);
  }

  /** No other field is searched: candidates that agree on the four searched
      fields match the same queries, whatever their phone, skills or location. */
  lemma SearchReadsFourFields(c: Candidate, d: Candidate, query: string)
    requires c.name == d.name && c.email == d.email
    requires c.position == d.position && c.clientName == d.clientName
    ensures MatchesSearch(c, query) == MatchesSearch(d, query)
  {
  }

  /** An empty query with the "all" status shows the whole list unchanged. */
  lemma EmptyQueryShowsAll(cs: seq<Candidate>)
    ensures FilteredCandidates(cs, "", "all") == cs
  {
    forall c | c in cs ensures Keeps("", "all")(c) {
      EmptyQueryIncluded(c.name);
    }
    FilterKeepsAll(cs, Keeps("", "all"));
  }

  /** The query is not trimmed: a single space drops every candidate that
      has no space in any searched field. */
  lemma SpaceQueryIsNotEmpty(c: Candidate)
    requires ' ' !in c.name && ' ' !in c.email && ' ' !in c.position && ' ' !in c.clientName
    ensures FilteredCandidates([c], " ", "all") == []
  {
    SpaceQueryNeedsSpace(c.name);
    SpaceQueryNeedsSpace(c.email);
    SpaceQueryNeedsSpace(c.position);
    SpaceQueryNeedsSpace(c.clientName);
    FilterCons(c, [], Keeps(" ", "all"));
  }

  /** Typing the query in capitals, or in small letters, gives the same list. */
  lemma QueryCaseInsensitive(cs: seq<Candidate>, query: string, statusFilter: string)
    ensures FilteredCandidates(cs, Upper(query), statusFilter) == FilteredCandidates(cs, query, statusFilter)
    ensures FilteredCandidates(cs, Lower(query), statusFilter) == FilteredCandidates(cs, query, statusFilter)
  {
    forall c | c in cs
      ensures Keeps(Upper(query), statusFilter)(c) == Keeps(query, statusFilter)(c)
      ensures Keeps(Lower(query), statusFilter)(c) == Keeps(query, statusFilter)(c)
    {
      IncludesIgnoresCase(c.name, query);
      IncludesIgnoresCase(c.email, query);
      IncludesIgnoresCase(c.position, query);
      IncludesIgnoresCase(c.clientName, query);
    }
    FilterCongruent(cs, Keeps(Upper(query), statusFilter), Keeps(query, statusFilter));
    FilterCongruent(cs, Keeps(Lower(query), statusFilter), Keeps(query, statusFilter));
  }

  /** Choosing a stage in the dropdown keeps exactly the matching candidates
      of that stage. */
  lemma StatusFilterIsExact(cs: seq<Candidate>, query: string, s: CandidateStatus)
    ensures forall c :: c in FilteredCandidates(cs, query, CandidateStatusName(s)) <==>
      c in cs && MatchesSearch(c, query) && c.status == s
  {
    FilteredCandidatesSpec(cs, query, CandidateStatusName(s));
    forall c: Candidate ensures MatchesStatus(c, CandidateStatusName(s)) <==> c.status == s {
      CandidateStatusNameInjective(c.status, s);
      assert CandidateStatusName(s) != "all";
    }
  }

  /** The status comparison is case-sensitive: a filter value that is
      neither "all" nor a stage name exactly, such as "on hold", keeps nothing. */
  lemma UnknownStatusKeepsNothing(cs: seq<Candidate>, query: string, statusFilter: string)
    requires statusFilter != "all" && CandidateStatusFromName(statusFilter).None?
    ensures FilteredCandidates(cs, query, statusFilter) == []
  {
    CandidateStatusesClosed();
    assert forall c :: c in cs ==> !Keeps(query, statusFilter)(c);
    FilterKeepsNone(cs, Keeps(query, statusFilter));
  }

  /** Filtering the filtered list again changes nothing. */
  lemma FilterAgainChangesNothing(cs: seq<Candidate>, query: string, statusFilter: string)
    ensures FilteredCandidates(FilteredCandidates(cs, query, statusFilter), query, statusFilter)
      == FilteredCandidates(cs, query, statusFilter)
  {
    FilterIdempotent(cs, Keeps(query, statusFilter));
  }

  /** `uniqueStatuses`: the ten stage names in declaration order. */
  const UniqueStatuses: seq<string> :=
    seq(|AllCandidateStatuses|, i requires 0 <= i < |AllCandidateStatuses| =>
      CandidateStatusName(AllCandidateStatuses[i]))

  /** The dropdown's values: "all" followed by the ten stage names. */
  const StatusOptions: seq<string> := ["all"] + UniqueStatuses

  /** The dropdown offers "all" first and then every stage exactly once;
      "all" is no stage's name, so the sentinel never collides with a stage. */
  lemma StatusOptionsSpec()
    ensures |StatusOptions| == 11 && StatusOptions[0] == "all"
    ensures forall s: CandidateStatus :: CandidateStatusName(s) in StatusOptions[1..]
    ensures forall i :: 1 <= i < |StatusOptions| ==>
      CandidateStatusFromName(StatusOptions[i]).Some? && StatusOptions[i] != "all"
    ensures forall i, j :: 0 <= i < j < |StatusOptions| ==> StatusOptions[i] != StatusOptions[j]
  {
    CandidateStatusesClosed();
    assert StatusOptions[1..] == UniqueStatuses;
    forall s: CandidateStatus ensures CandidateStatusName(s) in UniqueStatuses {
      assert s in AllCandidateStatuses;
      var k :| 0 <= k < |AllCandidateStatuses| && AllCandidateStatuses[k] == s;
      assert UniqueStatuses[k] == CandidateStatusName(s);
    }
    forall i | 1 <= i < |StatusOptions|
      ensures CandidateStatusFromName(StatusOptions[i]).Some? && StatusOptions[i] != "all"
    {
      assert StatusOptions[i] == CandidateStatusName(AllCandidateStatuses[i - 1]);
    }
    forall i, j | 0 <= i < j < |StatusOptions| ensures StatusOptions[i] != StatusOptions[j] {
      if i > 0 {
        CandidateStatusNameInjective(AllCandidateStatuses[i - 1], AllCandidateStatuses[j - 1]);
      }
    }
  }

  /** `new Set(candidates.map(c => c.id))`. */
  function IdsOf(cs: seq<Candidate>): (ids: set<string>)
    ensures forall c :: c in cs ==> c.id in ids
    ensures forall id :: id in ids ==> exists i :: 0 <= i < |cs| && cs[i].id == id
    decreases |cs|
  {
    if |cs| == 0 then {} else {cs[0].id} + IdsOf(cs[1..])
  }

  /** No two candidates of the list share an id. */
  ghost predicate DistinctIds(cs: seq<Candidate>)
  {
    forall i, j :: 0 <= i < j < |cs| ==> cs[i].id != cs[j].id
  }

  /** With distinct ids, the id set has one element per candidate. */
  lemma {:induction false} DistinctIdsCount(cs: seq<Candidate>)
    requires DistinctIds(cs)
    ensures |IdsOf(cs)| == |cs|
    decreases |cs|
  {
    if |cs| > 0 {
      var rest := cs[1..];
      assert DistinctIds(rest) by {
        forall i, j | 0 <= i < j < |rest| ensures rest[i].id != rest[j].id {
          assert rest[i] == cs[i + 1] && rest[j] == cs[j + 1];
        }
      }
      DistinctIdsCount(rest);
      assert cs[0].id !in IdsOf(rest) by {
        forall i | 0 <= i < |rest| ensures rest[i].id != cs[0].id {
          assert rest[i] == cs[i + 1];
        }
      }
    }
  }

  /** The selected candidate ids, the page's `selectedCandidates` state. */
  class Selection {
    var selected: set<string>

    /** The page starts with nothing selected. */
    constructor ()
      ensures selected == {}
    {
      selected := {};
    }

    /** `handleSelectAll`: checking selects exactly the ids of the visible
        candidates, dropping earlier selections; unchecking selects nothing. */
    method SelectAll(filtered: seq<Candidate>, checked: bool)
      modifies this
      ensures checked ==> selected == IdsOf(filtered)
      ensures !checked ==> selected == {}
    {
      if checked {
        selected := IdsOf(filtered);
      } else {
        selected := {};
      }
    }

    /** `handleSelectCandidate`: a copy of the selection gains or loses one
        id and replaces the selection; no other id changes. */
    method SelectCandidate(id: string, checked: bool)
      modifies this
      ensures checked ==> selected == old(selected) + {id}
      ensures !checked ==> selected == old(selected) - {id}
      ensures id in selected <==> checked
      ensures forall other :: other != id ==> (other in selected <==> other in old(selected))
    {
      var newSelected := selected;
      if checked {
        newSelected := newSelected + {id};
      } else {
        newSelected := newSelected - {id};
      }
      selected := newSelected;
    }
  }

  /** The row checkbox of candidate `c`. */
  predicate RowChecked(selected: set<string>, c: Candidate)
  {
    c.id in selected
  }

  /** The bulk-action bar shows while anything is selected. */
  predicate BulkBarShown(selected: set<string>)
  {
    |selected| > 0
  }

  /** The header checkbox as written: the selection has as many ids as there
      are visible rows, and there is at least one row. */
  predicate HeaderChecked(selected: set<string>, filtered: seq<Candidate>)
  {
    |selected| == |filtered| && |filtered| > 0
  }

  /** The header checkbox as evidently intended: there is at least one
      visible row and every visible row is checked. */
  predicate AllVisibleSelected(selected: set<string>, filtered: seq<Candidate>)
  {
    |filtered| > 0 && forall c :: c in filtered ==> RowChecked(selected, c)
  }

  /** A candidate with the given id and every other field empty. */
  function Placeholder(id: string, status: CandidateStatus): Candidate
  {
    Candidate(id, "", "", "", "", "", "", status, "", "", "", "", "", "", [], "", "", None, None, "", "")
  }

  /** The header compares sizes, not sets: select `c1`, then narrow the list
      to `c2` alone, and the header shows checked although the only visible
      row is not. */
  lemma HeaderCheckedWithNothingVisibleSelected()
    ensures HeaderChecked({"c1"}, [Placeholder("c2", New)])
    ensures !AllVisibleSelected({"c1"}, [Placeholder("c2", New)])
  {
    assert Placeholder("c2", New) in [Placeholder("c2", New)];
    assert "c1" != "c2" by { assert "c1"[1] != "c2"[1]; }
  }

  /** The reverse case: select `c1` and `c2`, then narrow the list to `c1`
      alone, and the header shows clear although every visible row is checked. */
  lemma HeaderClearWithEveryVisibleSelected()
    ensures !HeaderChecked({"c1", "c2"}, [Placeholder("c1", New)])
    ensures AllVisibleSelected({"c1", "c2"}, [Placeholder("c1", New)])
  {
    assert "c1" != "c2" by { assert "c1"[1] != "c2"[1]; }
    assert |{"c1", "c2"}| == 2;
  }

  /** The intended header test holds exactly when the visible ids are all
      selected; select-all then checks it and deselect-all clears it. */
  lemma AllVisibleSelectedSpec(selected: set<string>, filtered: seq<Candidate>)
    ensures AllVisibleSelected(selected, filtered) <==> |filtered| > 0 && IdsOf(filtered) <= selected
    ensures |filtered| > 0 ==> AllVisibleSelected(IdsOf(filtered), filtered)
    ensures !AllVisibleSelected({}, filtered)
  {
    if |filtered| > 0 {
      assert filtered[0] in filtered;
    }
  }

  /** A subset as large as its superset is the superset. */
  lemma SubsetOfSameSize(a: set<string>, b: set<string>)
    requires a <= b && |a| == |b|
    ensures a == b
  {
    assert b == a + (b - a) && a * (b - a) == {};
    assert |b - a| == 0;
  }

  /** Once the selection holds only visible ids and those ids are distinct,
      the written test and the intended one agree. */
  lemma HeaderTestsAgreeOnVisibleSelection(selected: set<string>, filtered: seq<Candidate>)
    requires DistinctIds(filtered) && selected <= IdsOf(filtered)
    ensures HeaderChecked(selected, filtered) <==> AllVisibleSelected(selected, filtered)
  {
    DistinctIdsCount(filtered);
    AllVisibleSelectedSpec(selected, filtered);
    if HeaderChecked(selected, filtered) {
      SubsetOfSameSize(selected, IdsOf(filtered));
    }
    if AllVisibleSelected(selected, filtered) {
      assert selected == IdsOf(filtered);
    }
  }

  /** Select-all over distinct visible ids checks the header and shows the
      bulk bar; deselect-all hides the bar and clears the header. */
  lemma SelectAllDrivesHeader(filtered: seq<Candidate>)
    requires DistinctIds(filtered) && |filtered| > 0
    ensures HeaderChecked(IdsOf(filtered), filtered) && BulkBarShown(IdsOf(filtered))
    ensures !HeaderChecked({}, filtered) && !BulkBarShown({})
  {
    DistinctIdsCount(filtered);
  }
}
