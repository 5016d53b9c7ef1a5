# Crashbot incident revision log, in Dafny

Crashbot is a Slack bot that tracks incidents. The bot's state is one
Postgres table, `incidents`. The table is an append-only log of revisions:
- creating an incident inserts revision 0 under a fresh serial id;
- every update inserts a new row with the same id and the next
  `update_number`;
- the current state of an incident is the revision of its id with the
  highest `update_number`.

This project models:
- the table and the SQL statements the bot runs against it;
- `getIncidents`, the listing behind the HTTP `/list` endpoint;
- the update command, which builds a menu of the current incidents;
- the update submission, which appends the next revision and builds the
  confirmation message;
- the two Slack user-name helpers;
- the API-key check in front of `/list`.

Files, one module each:

- `types.dfy` (`Types`) holds:
  - the revision row and the `severity` and `status` enums;
  - the integer widths of the columns;
  - JavaScript truthiness of an optional string.
- `seqs.dfy` (`Seqs`) holds:
  - order-preserving filtering;
  - a stable insertion sort standing for `Array.prototype.sort`;
  - concatenation of a list of strings.
- `decimal.dfy` (`Decimal`) models two readings of an integer:
  - `Number.prototype.toString()` on an integer id;
  - Postgres reading an integer parameter sent as text.
- `queries.dfy` (`Queries`) holds:
  - the select statements of `src/logic/queries.ts`, as functions over the
    table's rows;
  - the `IncidentStore` class, a table whose two insert statements append
    rows in place. A statement that violates a column constraint leaves
    the table unchanged.
- `incidents.dfy` (`Incidents`) holds `getIncidents`, as a loop that splits
  the current revisions in two.
- `slack.dfy` (`Slack`) holds `getusername` and `getRealNameFromAPI`.
- `validation.dfy` (`Validation`) holds `validateAPIKey`.
- `bolt.dfy` (`Bolt`) holds the update command's menu and the update
  submission of `src/ports/bolt.ts`.

Points where the code behaves in a way a reader may not expect:

- `getIncidents` as written does not drop `invalid` incidents: everything
  that is not `open` goes to `closed`. It sorts nothing and resolves no
  user names, although its unit tests expect sorting and name
  resolution. The model follows the code.
- `getRealNameFromAPI` has no `try`/`catch`. A rejected profile lookup
  reaches its caller as an error and does not become "Not assigned". The
  model returns that error.
- The table has no uniqueness constraint on `(id, update_number)`. Two
  revisions of one id can share the highest number, and both are then
  "latest" (`Queries.SiblingOfListedIsListed`).
- `update_number` is a `SMALLINT` and revisions are numbered from 0.
  Revision number 32768, the 32769th revision of one incident, is refused
  by the database; the model has this as an error path.
- The confirmation message keeps the source's spelling "succesfully".
- The confirmation template would render an absent title or description
  as `null` and an absent severity or status as `undefined`. No such
  message is ever sent: the insert before it refuses these nulls, and the
  message is built only after a successful insert.

## Model

| member | source | states |
|---|---|---|
| Queries.LastUpdateOfAllFewColumns | src/logic/queries.ts:36-48 | a row is listed exactly when it is in the table and no revision of its id has a higher update number |
| Queries.LastUpdateOfAll | src/logic/queries.ts:50-69 | a row is listed exactly when it is a latest revision whose status is not invalid |
| Queries.LastUpdateOfOpen | src/logic/queries.ts:75-88 | a row is listed exactly when it is a latest revision whose status is open |
| Queries.LatestOf | src/logic/queries.ts:71-73 | the ordered, limited select of one id: no row exactly when the id is absent; otherwise a row of that id with the highest update number |
| Queries.LastUpdateOfSelected | src/logic/queries.ts:71-73 | the id text is accepted exactly when it is decimal and fits INTEGER; an accepted id yields none of its rows only if it has none, otherwise its latest revision |
| Queries.CreateViolation | src/logic/queries.ts:3-34 | the insert is accepted exactly when severity, title, description and report date are present and the id sequence is not exhausted; an exhausted sequence is reported before any missing column, and missing columns in table column order |
| Queries.UpdateViolation | src/logic/queries.ts:90-131 | the insert is accepted exactly when id fits INTEGER, update number fits SMALLINT, and severity, title, description, report date and status are present; range errors are reported first, then missing columns in table column order |
| Queries.IncidentStore.constructor | src/migrations/1663962370383_create-incidents.ts:11-29 | the new table is empty, consistent with its column types, and its serial starts at 1 |
| Queries.IncidentStore.CreateIncident | src/logic/queries.ts:3-34 | on a violation the table and sequence are unchanged and the violation is returned; otherwise exactly one revision 0 (open, no closing date, no RCA link) is appended under the returned id, and the sequence advances by one |
| Queries.IncidentStore.UpdateIncident | src/logic/queries.ts:90-131 | returns the violation if any and then changes nothing; otherwise appends exactly the given revision; the sequence never moves |
| Queries.EveryIncidentListed | src/logic/queries.ts:36-48 | every id present in the table has a listed latest revision |
| Queries.SiblingOfListedIsListed | src/logic/queries.ts:36-48 | in any table, a row sharing its id and update number with a listed row is listed too |
| Queries.SiblingRevisionsBothListed | src/logic/queries.ts:36-48 | in a table of just two distinct rows with the same id and update number, both are listed |
| Queries.InvalidLatestHidesIncident | src/logic/queries.ts:50-69 | an incident whose latest revisions are all invalid is absent from the listing |
| Queries.AppendSupersedes | src/logic/queries.ts:90-131 | appending a revision numbered above every earlier revision of its id makes it that id's latest; every other id's latest is unchanged, and so is its set of listed rows |
| Seqs.SortBy | src/ports/bolt.ts:137-139 | the sorted list is a permutation of its input |
| Seqs.SortBySorted | src/ports/bolt.ts:137-139 | for a comparator that is a total preorder, the result is sorted |
| Seqs.SortByStable | src/ports/bolt.ts:137-139 | for a total preorder, elements that compare equal keep their relative order, as in the stable `Array.prototype.sort` |
| Decimal.IntToDecimal | src/ports/bolt.ts:150 | the text of an id is a minus sign exactly for negatives, followed by digits without a leading zero |
| Decimal.ParseInt | src/logic/queries.ts:71-73 | the id text is read exactly when it is digits, optionally after a minus sign; the sign of the value follows the text |
| Decimal.NatToDecimalDigits | src/ports/bolt.ts:147-150 | the decimal text of a natural number is non-empty digits without a leading zero |
| Decimal.IntToDecimalRoundTrip | src/ports/bolt.ts:150 | reading back the decimal text of an id gives that id |
| Decimal.IntToDecimalInjective | src/ports/bolt.ts:150 | distinct ids give distinct option values |
| Incidents.GetIncidents | src/logic/incidents.ts:4-43 | `open` is the open latest revisions and `closed` all other latest revisions, both in query order; together they are a permutation of the latest revisions; an empty table gives two empty lists |
| Slack.GetUsername | src/logic/slack.ts:19-24 | the sentinel exactly for a missing or empty id; otherwise a mention token carrying the id |
| Slack.GetRealNameFromAPI | src/logic/slack.ts:4-17 | the sentinel without a truthy id; otherwise the looked-up real name when it is truthy, the sentinel when it is not, and the lookup's error when the lookup fails |
| Validation.ValidateAPIKey | src/logic/validation.ts:5-22 | the request is forwarded exactly when the header key is non-empty and equals the configured key; otherwise the 403 answer; never forwarded without a configured key |
| Bolt.GetEmoji | test/unit/incidents.spec.ts:8-63 | the glyph the unit tests expect per status: 🚨 open, ✅ closed, 🚫 invalid |
| Bolt.EmojiDistinguishesStatus | test/unit/incidents.spec.ts:7-64 | two incidents get the same status glyph exactly when they have the same status |
| Bolt.BuildUpdateMenu | src/ports/bolt.ts:115-189 | the modal is requested exactly when the table is non-empty, else the no-incidents message; the modal has one option per latest revision, in the menu order |
| Bolt.OptionFor | src/ports/bolt.ts:144-151 | the option's value reads back as the incident's id; its text is the glyph, ` DCL-`, that value, a space and the title |
| Bolt.MenuOrder | src/ports/bolt.ts:124-143 | the menu order has as many entries as there are rows and holds exactly the rows |
| Bolt.BuildOptions | src/ports/bolt.ts:141-152 | one option per incident, in order, each carrying the glyph, `DCL-<id>`, the title and the id as value |
| Bolt.BucketSizes | src/ports/bolt.ts:127-134 | the open, closed and other buckets hold as many rows together as the input |
| Bolt.MenuOrderContents | src/ports/bolt.ts:127-142 | the menu order is a permutation of the latest revisions |
| Bolt.MenuOrderArrangement | src/ports/bolt.ts:127-142 | all open incidents come first, sorted by the severity comparator; then all closed ones; then all invalid ones; the last two are each sorted by the date comparator |
| Bolt.OptionSelectsItsIncident | src/ports/bolt.ts:196-207 | selecting an option finds the latest revision of the incident it was built from |
| Bolt.PickerMillis | src/ports/bolt.ts:253-256 | picker seconds as milliseconds: a whole number of seconds that reads back as the picked value; zero exactly when nothing or zero was picked |
| Bolt.DateAndTime | src/ports/bolt.ts:680-692 | a falsy timestamp gives null; any other timestamp gives a date |
| Bolt.ClosingDate | src/ports/bolt.ts:273-278 | there is a closing date exactly when a resolution time was picked, or the incident is being closed (at a non-zero current time); without a picked time it is the current time |
| Bolt.ClosedDate | src/ports/bolt.ts:273-278 | the reassigned resolution timestamp gives the closing date above: a picked time is kept; closing without one uses the current time; otherwise there is none |
| Bolt.UpdateFieldsCaptions | src/ports/bolt.ts:298-314 | the confirmation has a resolution line exactly when there is a closing date, and an RCA line exactly when the link is non-empty; the other eight lines are always there |
| Bolt.UpdateFieldsEndings | src/ports/bolt.ts:298-314 | every line except the last ends with a newline; the last one does exactly when there is no RCA line |
| Bolt.BuildUpdateMessage | src/ports/bolt.ts:298-314 | the text appended line by line equals the header followed by the rendered confirmation lines |
| Bolt.SubmitUpdate | src/ports/bolt.ts:245-335 | the id sequence never moves; when the insert fails, the table is unchanged and no message is built; otherwise the table gains exactly one row: the selected id, the next update number, the user, the database time, the form's report date, severity, status, title, description, point, contact and RCA link, and the closing date of `ClosingDate`; the message renders that row. If the selected row was the current revision, the new row becomes it |

## Left out

- Slack's view limits: a static select holds at most 100 options and an
  option's text at most 75 characters. The menu lists every incident ever
  created, closed and invalid ones included. Past 100 incidents Slack
  refuses to open the view. The error is only logged, so the user sees
  neither the modal nor the no-incidents message. The model stops at the
  request to open the view.
- Slack plumbing:
  - acknowledging requests;
  - opening and updating views;
  - building the modal view (`getIncidentView`);
  - the `loaded_incidents` action that fills the form;
  - the JSON round trip of the selected incident through private
    metadata.
- The calendar text `buildDateAndTime` builds (`YYYY-MM-DD HH:MM:00`).
  Dates are opaque millisecond counts in the model. A rendering function
  is a parameter of the message builders.
- Posting the confirmation to `#crash` and to the user, and
  `updateChannelTopic` (src/ports/bolt.ts:317-329). These calls come after
  the insert and do not affect the table.
- The create command's handler and its message. The insert it runs is
  modelled (`Queries.IncidentStore.CreateIncident`).
- src/ports/bolt.ts:3 imports `compareBySeverity`, `compareByDate` and
  `getEmoji` from src/logic/incidents.ts, but that file does not define
  them.
  - The comparators are parameters. Ordering facts assume only that they
    are total preorders.
  - `getEmoji` follows its unit tests.
- Column projections of the select statements: every query returns whole
  rows. Callers read only the columns they select.
- SQL result order. The joins have no `ORDER BY`; the model returns rows in
  insertion order.
- Queries.LatestOf: when two revisions tie for the highest number, the
  model picks the earlier-inserted one. Postgres leaves the choice open.
- Queries.LastUpdateOfSelected: Postgres also accepts other integer
  text: surrounding whitespace, a leading `+`, underscores between digits
  and `0x`/`0o`/`0b` prefixes. The model accepts only an optional `-`
  followed by digits, which is all an option value holds.
- Queries.IncidentStore.CreateIncident: a failed insert may consume a
  serial value in Postgres; in the model the sequence does not move.
- Concurrency between handlers, logging, metrics, the `/list` handler and
  router, and configuration loading.
- The clocks are parameters: the adapter's current time and the
  database's `NOW()`.
- The router imports `validate` from src/logic/validation.ts, which exports
  `validateAPIKey`; the model follows the exported function.
