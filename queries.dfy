/** The `incidents` table as an append-only log of revisions, its two
    INSERT statements and its four "latest revision per id" SELECT statements.

    The table has no uniqueness constraint: two rows may share an id and an
    update number, and the "max update_number per id, then join back" query
    then returns both. A join's output order is unspecified in SQL; the
    selects here return rows in insertion order. */
module Queries {
  import opened Types
  import opened Seqs
  import opened Decimal

  /** `r` has the greatest update number among the rows of `table` that
      share its id: the `t.last = m.update_number` join condition. */
  predicate IsLatest(table: seq<IncidentRow>, r: IncidentRow) {
    forall u :: u in table && u.id == r.id ==> u.updateNumber <= r.updateNumber
  }

  function LatestIn(table: seq<IncidentRow>): IncidentRow -> bool {
    r => IsLatest(table, r)
  }

  predicate NotInvalid(r: IncidentRow) {
    r.status != Invalid
  }

  predicate IsOpen(r: IncidentRow) {
    r.status == Open
  }

  /** GET_LAST_UPDATE_OF_ALL_INCIDENTS_FEW_COLUMNS: every latest revision of
      every incident, whatever its status. */
  function LastUpdateOfAllFewColumns(table: seq<IncidentRow>): (r: seq<IncidentRow>)
    ensures forall x :: x in r <==> x in table && IsLatest(table, x)
  {
    Filter(table, LatestIn(table))
  }

  /** GET_LAST_UPDATE_OF_ALL_INCIDENTS: the latest revisions, minus those
      whose status is invalid. The filter runs after the latest revision is
      chosen, so an older valid revision never stands in for it. */
  function LastUpdateOfAll(table: seq<IncidentRow>): (r: seq<IncidentRow>)
    ensures forall x :: x in r <==> x in table && IsLatest(table, x) && x.status != Invalid
  {
    Filter(LastUpdateOfAllFewColumns(table), NotInvalid)
  }

  /** GET_LAST_UPDATE_OF_OPEN_INCIDENTS: exactly the latest revisions whose
      status is open. */
  function LastUpdateOfOpen(table: seq<IncidentRow>): (r: seq<IncidentRow>)
    ensures forall x :: x in r <==> x in table && IsLatest(table, x) && x.status == Open
  {
    Filter(LastUpdateOfAllFewColumns(table), IsOpen)
  }

  /** `SELECT * … WHERE id = X ORDER BY update_number DESC LIMIT 1` over the
      rows of `table`, for an id already read as an integer. When several
      rows tie for the greatest update number the database may return any
      of them; this picks the one inserted first. */
  function LatestOf(table: seq<IncidentRow>, id: int): (r: Option<IncidentRow>)
    ensures r.None? <==> forall u :: u in table ==> u.id != id
    ensures r.Some? ==> r.value in table && r.value.id == id && IsLatest(table, r.value)
  {
    if table == [] then None
    else
      var init, last := table[..|table| - 1], table[|table| - 1];
      assert table == init + [last];
      var best := LatestOf(init, id);
      if last.id != id then best
      else if best.None? || best.value.updateNumber < last.updateNumber then Some(last)
      else best
  }

  datatype StoreError =
    | NotNullViolation(column: string)
    | OutOfRange(column: string)
    | InvalidTextRepresentation(input: string)
    | SequenceExhausted

  /** GET_LAST_UPDATE_OF_SELECTED_INCIDENT: the id arrives as text (a menu
      option's value) and the database reads it as an integer first; text
      that is not an integer, or one beyond the INTEGER range, is an error.
      At most one row comes back. */
  function LastUpdateOfSelected(table: seq<IncidentRow>, selectedIncidentId: string): (r: Result<Option<IncidentRow>, StoreError>)
    ensures r.Ok? <==> ParseInt(selectedIncidentId).Some? && IsInteger(ParseInt(selectedIncidentId).value)
    ensures r.Ok? && r.value.None? ==> forall u :: u in table ==> u.id != ParseInt(selectedIncidentId).value
    ensures r.Ok? && r.value.Some? ==>
      var x := r.value.value;
      x in table && x.id == ParseInt(selectedIncidentId).value && IsLatest(table, x)
  {
    match ParseInt(selectedIncidentId)
    case None => Err(InvalidTextRepresentation(selectedIncidentId))
    case Some(id) =>
      if IsInteger(id) then Ok(LatestOf(table, id)) else Err(OutOfRange("id"))
  }

  /** The first violation a CREATE_INCIDENT insert meets, if any. The id's
      SERIAL default is drawn before any constraint is checked, so an
      exhausted sequence comes first; NOT NULL constraints follow in the
      table's column order (reported_at, severity, title, description). */
  function CreateViolation(
    severity: Option<Severity>, title: Option<string>, description: Option<string>,
    reportedAt: Option<Timestamp>, nextId: int): (e: Option<StoreError>)
    ensures e.None? <==> severity.Some? && title.Some? && description.Some? && reportedAt.Some? && nextId <= MaxInteger
  {
    if nextId > MaxInteger then Some(SequenceExhausted)
    else if reportedAt.None? then Some(NotNullViolation("reported_at"))
    else if severity.None? then Some(NotNullViolation("severity"))
    else if title.None? then Some(NotNullViolation("title"))
    else if description.None? then Some(NotNullViolation("description"))
    else None
  }

  /** The first violation an UPDATE_INCIDENT insert meets, if any. The
      integer parameters are read when the statement is bound, id before
      update number, so a value outside its column's type comes first; NOT
      NULL constraints follow in the table's column order (reported_at,
      status, severity, title, description). */
  function UpdateViolation(
    id: int, updateNumber: int, severity: Option<Severity>, title: Option<string>,
    description: Option<string>, reportedAt: Option<Timestamp>, status: Option<Status>): (e: Option<StoreError>)
    ensures e.None? <==>
      IsInteger(id) && IsSmallint(updateNumber) && severity.Some? && title.Some?
      && description.Some? && reportedAt.Some? && status.Some?
  {
    if !IsInteger(id) then Some(OutOfRange("id"))
    else if !IsSmallint(updateNumber) then Some(OutOfRange("update_number"))
    else if reportedAt.None? then Some(NotNullViolation("reported_at"))
    else if status.None? then Some(NotNullViolation("status"))
    else if severity.None? then Some(NotNullViolation("severity"))
    else if title.None? then Some(NotNullViolation("title"))
    else if description.None? then Some(NotNullViolation("description"))
    else None
  }

  /** The incidents table: its rows in insertion order, and the next value
      of the `id` SERIAL sequence. Rows are only ever appended. */
  class IncidentStore {
    var rows: seq<IncidentRow>
    var nextId: int

    /** Every stored row fits the column types; the sequence starts at 1. */
    ghost predicate Valid()
      reads this
    {
      && 1 <= nextId
      && forall r :: r in rows ==> IsInteger(r.id) && IsSmallint(r.updateNumber)
    }

    constructor ()
      ensures Valid()
      ensures rows == [] && nextId == 1
    {
      rows := [];
      nextId := 1;
    }

    /** CREATE_INCIDENT: appends revision 0 of a new incident, with status
        open, no closing date and no RCA link, under the id the sequence
        hands out, and returns that id. `now` is the database clock that
        fills `modified_at`. */
    method CreateIncident(
      user: string, severity: Option<Severity>, title: Option<string>, description: Option<string>,
      point: Option<string>, contact: Option<string>, reportedAt: Option<Timestamp>, now: Timestamp)
      returns (result: Result<int, StoreError>)
      requires Valid()
      modifies this
      ensures Valid()
      ensures result.Err? <==> CreateViolation(severity, title, description, reportedAt, old(nextId)).Some?
      ensures result.Err? ==> result.error == CreateViolation(severity, title, description, reportedAt, old(nextId)).value
      ensures result.Err? ==> rows == old(rows) && nextId == old(nextId)
      ensures result.Ok? ==>
        && result.value == old(nextId)
        && nextId == old(nextId) + 1
        && rows == old(rows) + [IncidentRow(
             result.value, 0, user, now, reportedAt.value, None, Open, severity.value,
             title.value, description.value, point, contact, None)]
    {
      var violation := CreateViolation(severity, title, description, reportedAt, nextId);
      if violation.Some? {
        return Err(violation.value);
      }
      var id := nextId;
      nextId := nextId + 1;
      rows := rows + [IncidentRow(
        id, 0, user, now, reportedAt.value, None, Open, severity.value,
        title.value, description.value, point, contact, None)];
      result := Ok(id);
    }

    /** UPDATE_INCIDENT: appends one revision carrying the caller's id and
        update number. Nothing checks that the id exists or that the update
        number is new; earlier rows never change. */
    method UpdateIncident(
      id: int, updateNumber: int, user: string, severity: Option<Severity>, title: Option<string>,
      description: Option<string>, point: Option<string>, contact: Option<string>,
      reportedAt: Option<Timestamp>, status: Option<Status>, closedAt: Option<Timestamp>,
      rcaLink: Option<string>, now: Timestamp)
      returns (error: Option<StoreError>)
      requires Valid()
      modifies this
      ensures Valid()
      ensures nextId == old(nextId)
      ensures error == UpdateViolation(id, updateNumber, severity, title, description, reportedAt, status)
      ensures error.Some? ==> rows == old(rows)
      ensures error.None? ==>
        rows == old(rows) + [IncidentRow(
          id, updateNumber, user, now, reportedAt.value, closedAt, status.value, severity.value,
          title.value, description.value, point, contact, rcaLink)]
    {
      error := UpdateViolation(id, updateNumber, severity, title, description, reportedAt, status);
      if error.None? {
        rows := rows + [IncidentRow(
          id, updateNumber, user, now, reportedAt.value, closedAt, status.value, severity.value,
          title.value, description.value, point, contact, rcaLink)];
      }
    }
  }

  /** Every incident present in the table contributes at least one row to
      the few-columns listing. */
  lemma EveryIncidentListed(table: seq<IncidentRow>, r: IncidentRow)
    requires r in table
    ensures exists x :: x in LastUpdateOfAllFewColumns(table) && x.id == r.id
  {
    var latest := LatestOf(table, r.id);
    assert latest.value in LastUpdateOfAllFewColumns(table);
  }

  /** Without a uniqueness constraint, a revision sharing its id and update
      number with a listed revision is listed too. */
  lemma SiblingOfListedIsListed(table: seq<IncidentRow>, a: IncidentRow, b: IncidentRow)
    requires a in LastUpdateOfAllFewColumns(table)
    requires b in table && b.id == a.id && b.updateNumber == a.updateNumber
    ensures b in LastUpdateOfAllFewColumns(table)
  {
  }

  /** In a table holding just two revisions that share an id and an update
      number, both are listed. */
  lemma SiblingRevisionsBothListed(a: IncidentRow, b: IncidentRow)
    requires a != b && a.id == b.id && a.updateNumber == b.updateNumber
    ensures LastUpdateOfAllFewColumns([a, b]) == [a, b]
  {
    var t := [a, b];
    assert IsLatest(t, a) && IsLatest(t, b);
    assert t[..1] == [a];
    FilterSnoc([a], b, LatestIn(t));
    FilterSnoc([], a, LatestIn(t));
  }

  /** An incident whose latest revision is invalid vanishes from the
      listing, even when older revisions of it are open. */
  lemma InvalidLatestHidesIncident(table: seq<IncidentRow>, id: int)
    requires forall u :: u in table && u.id == id && IsLatest(table, u) ==> u.status == Invalid
    ensures forall x :: x in LastUpdateOfAll(table) ==> x.id != id
  {
  }

  predicate IsLatestOther(table: seq<IncidentRow>, id: int, r: IncidentRow) {
    IsLatest(table, r) && r.id != id
  }

  function LatestOtherIn(table: seq<IncidentRow>, id: int): IncidentRow -> bool {
    r => IsLatestOther(table, id, r)
  }

  function HasOtherId(id: int): IncidentRow -> bool {
    (r: IncidentRow) => r.id != id
  }

  /** Appending a revision numbered above every earlier revision of its
      incident makes it that incident's current state and leaves every other
      incident's current state as it was. */
  lemma AppendSupersedes(table: seq<IncidentRow>, r: IncidentRow)
    requires forall u :: u in table && u.id == r.id ==> u.updateNumber < r.updateNumber
    ensures LatestOf(table + [r], r.id) == Some(r)
    ensures forall id :: id != r.id ==> LatestOf(table + [r], id) == LatestOf(table, id)
    ensures LastUpdateOfAllFewColumns(table + [r])
         == Filter(LastUpdateOfAllFewColumns(table), HasOtherId(r.id)) + [r]
  {
    var t' := table + [r];
    assert t'[..|t'| - 1] == table;
    FilterSnoc(table, r, LatestIn(t'));
    forall x | x in table
      ensures LatestIn(t')(x) == LatestOtherIn(table, r.id)(x)
    {
      if x.id == r.id {
        assert !IsLatest(t', x) by { assert r in t'; }
      }
    }
    FilterCongruent(table, LatestIn(t'), LatestOtherIn(table, r.id));
    FilterFilter(table, LatestIn(table), HasOtherId(r.id), LatestOtherIn(table, r.id));
  }
}
