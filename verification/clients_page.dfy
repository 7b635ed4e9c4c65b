/** The client search of src/app/pages/ClientsPage.tsx and its header count. */
module ClientsPage {
  import opened Types
  import opened Text
  import opened Seqs

  /** The query, ignoring case, occurs in the name, the industry or the location. */
  predicate ClientMatches(c: Client, query: string)
  {
    || IncludesIgnoringCase(c.name, query)
    || IncludesIgnoringCase(c.industry, query)
    || IncludesIgnoringCase(c.location, query)
  }

  /** The callback handed to `filter`. */
  function Searches(query: string): Client -> bool
  {
    (c: Client) => ClientMatches(c, query)
  }

  /** `filteredClients`. */
  function FilteredClients(clients: seq<Client>, query: string): seq<Client>
  {
    Filter(clients, Searches(query))
  }

  /** The number in the header, `filteredClients.length`. */
  function HeaderCount(clients: seq<Client>, query: string): (n: nat)
    ensures n <= |clients|
  {
    |FilteredClients(clients, query)|
  }

  /** The result holds exactly the matching clients, in list order. */
  lemma FilteredClientsSpec(clients: seq<Client>, query: string)
    ensures forall c :: c in FilteredClients(clients, query) ==> c in clients && ClientMatches(c, query)
    ensures forall c :: c in clients && ClientMatches(c, query) ==> c in FilteredClients(clients, query)
    ensures forall i :: 0 <= i < |clients| ==>
      (i in KeptIndices(clients, Searches(query)) <==> ClientMatches(clients[i], query))
    ensures Embeds(FilteredClients(clients, query), clients, KeptIndices(clients, Searches(query)))
    ensures IsSubsequence(FilteredClients(clients, query), clients)
  {
    FilterMembers(clients, Searches(query));
    FilterKeepsExactly(clients, Searches(query));
  }

  /** Contact details and status are not searched: clients that agree on
      name, industry and location match the same queries. */
  lemma SearchReadsThreeFields(c: Client, d: Client, query: string)
    requires c.name == d.name && c.industry == d.industry && c.location == d.location
    ensures ClientMatches(c, query) == ClientMatches(d, query)
  {
  }

  /** An empty query lists every client. */
  lemma EmptyQueryShowsAllClients(clients: seq<Client>)
    ensures FilteredClients(clients, "") == clients
  {
    forall c | c in clients ensures Searches("")(c) {
      EmptyQueryIncluded(c.name);
    }
    FilterKeepsAll(clients, Searches(""));
  }

  /** The header count is labelled "active clients" but counts every listed
      client: with an empty query it is the length of the whole list,
      inactive clients included. */
  lemma HeaderCountsInactiveClients(clients: seq<Client>)
    ensures HeaderCount(clients, "") == |clients|
    ensures forall c :: c in clients && c.status == Inactive ==> c in FilteredClients(clients, "")
  {
    EmptyQueryShowsAllClients(clients);
  }
}
