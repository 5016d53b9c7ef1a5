/** The public listing: the latest revision of every incident, split into
    the open ones and all the others. As written, the listing neither sorts,
    nor resolves user names, nor drops invalid incidents: an incident whose
    latest revision is invalid is listed among the closed ones. */
module Incidents {
  import opened Types
  import opened Seqs
  import opened Queries

  datatype Listing = Listing(open: seq<IncidentRow>, closed: seq<IncidentRow>)

  predicate IsNotOpen(r: IncidentRow) {
    r.status != Open
  }

  /** getIncidents over the current contents of the table. The inline query
      has the same FROM and JOIN as the few-columns listing, hence the same
      rows. */
  method GetIncidents(table: seq<IncidentRow>) returns (response: Listing)
    ensures response.open == Filter(LastUpdateOfAllFewColumns(table), IsOpen)
    ensures response.closed == Filter(LastUpdateOfAllFewColumns(table), IsNotOpen)
    ensures |response.open| + |response.closed| == |LastUpdateOfAllFewColumns(table)|
    ensures multiset(response.open) + multiset(response.closed) == multiset(LastUpdateOfAllFewColumns(table))
    ensures forall r :: r in response.open ==> r.status == Open
    ensures forall r :: r in response.closed ==> r.status != Open
    ensures forall r :: r in response.open || r in response.closed ==> r in table && IsLatest(table, r)
    ensures table == [] ==> response == Listing([], [])
  {
    var rows := LastUpdateOfAllFewColumns(table);
    response := Listing([], []);
    for i := 0 to |rows|
      invariant response.open == Filter(rows[..i], IsOpen)
      invariant response.closed == Filter(rows[..i], IsNotOpen)
    {
      var incident := rows[i];
      assert rows[..i + 1] == rows[..i] + [incident];
      FilterSnoc(rows[..i], incident, IsOpen);
      FilterSnoc(rows[..i], incident, IsNotOpen);
      if incident.status == Open {
        response := response.(open := response.open + [incident]);
      } else {
        response := response.(closed := response.closed + [incident]);
      }
    }
    assert rows[..|rows|] == rows;
    FilterSplit(rows, IsOpen, IsNotOpen);
  }
}
