/** The entities of the incident revision log: the enumerated column
    types, one revision row, and the integer widths of the table's columns. */
module Types {

  datatype Option<+T> = None | Some(value: T)

  datatype Result<+T, +E> = Ok(value: T) | Err(error: E)

  /** The `severity` enum of the incidents table, sev-1 the most severe. */
  datatype Severity = Sev1 | Sev2 | Sev3 | Sev4 | Sev5

  /** The `status` enum of the incidents table. */
  datatype Status = Open | Closed | Invalid

  /** A point in time, as milliseconds since the epoch. Dates are only
      stored, compared and shown; their calendar meaning is not modelled. */
  type Timestamp = int

  /** One revision of an incident: a row of the `incidents` table.
      `closedAt`, `point`, `contact` and `rcaLink` are the nullable columns. */
  datatype IncidentRow = IncidentRow(
    id: int,
    updateNumber: int,
    modifiedBy: string,
    modifiedAt: Timestamp,
    reportedAt: Timestamp,
    closedAt: Option<Timestamp>,
    status: Status,
    severity: Severity,
    title: string,
    description: string,
    point: Option<string>,
    contact: Option<string>,
    rcaLink: Option<string>)

  /** Bounds of Postgres SMALLINT (the `update_number` column). */
  const MinSmallint: int := -0x8000
  const MaxSmallint: int := 0x7FFF

  /** Bounds of Postgres INTEGER (the type behind the `id` SERIAL). */
  const MinInteger: int := -0x8000_0000
  const MaxInteger: int := 0x7FFF_FFFF

  predicate IsSmallint(n: int) {
    MinSmallint <= n <= MaxSmallint
  }

  predicate IsInteger(n: int) {
    MinInteger <= n <= MaxInteger
  }

  /** JavaScript truthiness of a possibly null or undefined string:
      only a present, non-empty string is truthy. */
  predicate Truthy(s: Option<string>) {
    s.Some? && s.value != ""
  }
}
