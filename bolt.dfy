/** The chat adapter's two pieces of incident logic: building the
    "update an incident" menu from the latest revisions, and turning an
    update form into the next revision plus a confirmation message. */
module Bolt {
  import opened Types
  import opened Seqs
  import opened Decimal
  import opened Queries
  import Slack

  // ---------------------------------------------------------------------------
  // The update menu

  /** getEmoji: one glyph per status (🚨 open, ✅ closed, 🚫 invalid). */
  function GetEmoji(incident: IncidentRow): (e: string)
    ensures incident.status == Open ==> e == "\U{1F6A8}"
    ensures incident.status == Closed ==> e == "\U{2705}"
    ensures incident.status == Invalid ==> e == "\U{1F6AB}"
  {
    match incident.status
    case Open => "\U{1F6A8}"
    case Closed => "\U{2705}"
    case Invalid => "\U{1F6AB}"
  }

  /** The glyph tells the three statuses apart. */
  lemma EmojiDistinguishesStatus(a: IncidentRow, b: IncidentRow)
    ensures GetEmoji(a) == GetEmoji(b) <==> a.status == b.status
  {
  }

  /** A plain-text option of the incidents menu. */
  datatype MenuOption = MenuOption(text: string, value: string)

  /** The option for one incident: its status glyph, `DCL-<id>` and title
      as the text, the decimal id as the value. */
  function OptionFor(incident: IncidentRow): (o: MenuOption)
    ensures ParseInt(o.value) == Some(incident.id)
    ensures o.text == GetEmoji(incident) + " DCL-" + o.value + " " + incident.title
  {
    var id := IntToDecimal(incident.id);
    IntToDecimalRoundTrip(incident.id);
    MenuOption(GetEmoji(incident) + " DCL-" + id + " " + incident.title, id)
  }

  predicate IsClosed(r: IncidentRow) {
    r.status == Closed
  }

  /** Neither open nor closed: the menu's "invalid" bucket. */
  predicate IsOtherStatus(r: IncidentRow) {
    r.status != Open && r.status != Closed
  }

  /** The order of the menu: open incidents by the severity comparator, then
      closed ones and then the rest, each by the date comparator. */
  function MenuOrder(
    rows: seq<IncidentRow>, bySeverity: (IncidentRow, IncidentRow) -> bool,
    byDate: (IncidentRow, IncidentRow) -> bool): (order: seq<IncidentRow>)
    ensures |order| == |rows|
    ensures forall x :: x in order <==> x in rows
  {
    BucketSizes(rows);
    BucketContents(rows);
    var order := SortBy(Filter(rows, IsOpen), bySeverity)
      + SortBy(Filter(rows, IsClosed), byDate)
      + SortBy(Filter(rows, IsOtherStatus), byDate);
    assert multiset(order) == multiset(rows);
    assert forall x :: x in order <==> x in multiset(rows);
    order
  }

  const NoIncidentsText: string := "There are no incidents! Create one using `/create`"

  /** What the update command answers: the modal with its menu, or a
      message to the user. */
  datatype UpdateCommandReply =
    | UpdateModal(options: seq<MenuOption>)
    | NoIncidentsMessage(text: string)

  /** The update command over the current table. `bySeverity` and `byDate`
      stand for `compareBySeverity(a, b) <= 0` and `compareByDate(a, b) <= 0`. */
  method BuildUpdateMenu(
    table: seq<IncidentRow>, bySeverity: (IncidentRow, IncidentRow) -> bool,
    byDate: (IncidentRow, IncidentRow) -> bool)
    returns (reply: UpdateCommandReply)
    ensures reply.UpdateModal? <==> table != []
    ensures reply.NoIncidentsMessage? ==> reply.text == NoIncidentsText
    ensures reply.UpdateModal? ==>
      var order := MenuOrder(LastUpdateOfAllFewColumns(table), bySeverity, byDate);
      && |reply.options| == |LastUpdateOfAllFewColumns(table)| == |order|
      && forall i :: 0 <= i < |order| ==> reply.options[i] == OptionFor(order[i])
  {
    var rows := LastUpdateOfAllFewColumns(table);
    var open, closed, invalid := [], [], [];
    for i := 0 to |rows|
      invariant open == Filter(rows[..i], IsOpen)
      invariant closed == Filter(rows[..i], IsClosed)
      invariant invalid == Filter(rows[..i], IsOtherStatus)
    {
      var incident := rows[i];
      assert rows[..i + 1] == rows[..i] + [incident];
      FilterSnoc(rows[..i], incident, IsOpen);
      FilterSnoc(rows[..i], incident, IsClosed);
      FilterSnoc(rows[..i], incident, IsOtherStatus);
      if incident.status == Open {
        open := open + [incident];
      } else if incident.status == Closed {
        closed := closed + [incident];
      } else {
        invalid := invalid + [incident];
      }
    }
    assert rows[..|rows|] == rows;

    open := SortBy(open, bySeverity);
    closed := SortBy(closed, byDate);
    invalid := SortBy(invalid, byDate);

    var options := BuildOptions(open + closed + invalid);

    BucketSizes(rows);
    if table != [] {
      EveryIncidentListed(table, table[0]);
    }
    if |rows| > 0 {
      reply := UpdateModal(options);
    } else {
      reply := NoIncidentsMessage(NoIncidentsText);
    }
  }

  /** The menu options, one per incident, in the given order. */
  method BuildOptions(incidents: seq<IncidentRow>) returns (options: seq<MenuOption>)
    ensures |options| == |incidents|
    ensures forall k :: 0 <= k < |incidents| ==> options[k] == OptionFor(incidents[k])
  {
    options := [];
    for i := 0 to |incidents|
      invariant |options| == i
      invariant forall k :: 0 <= k < i ==> options[k] == OptionFor(incidents[k])
    {
      options := options + [OptionFor(incidents[i])];
    }
  }

  /** Every row falls in exactly one of the three buckets: their sizes add
      up to the number of rows. */
  lemma {:induction false} BucketSizes(rows: seq<IncidentRow>)
    ensures |Filter(rows, IsOpen)| + |Filter(rows, IsClosed)| + |Filter(rows, IsOtherStatus)| == |rows|
  {
    if rows != [] {
      var init, last := rows[..|rows| - 1], rows[|rows| - 1];
      BucketSizes(init);
      assert rows == init + [last];
      FilterSnoc(init, last, IsOpen);
      FilterSnoc(init, last, IsClosed);
      FilterSnoc(init, last, IsOtherStatus);
    }
  }

  /** The three buckets together hold exactly the rows. */
  lemma {:induction false} BucketContents(rows: seq<IncidentRow>)
    ensures multiset(Filter(rows, IsOpen)) + multiset(Filter(rows, IsClosed))
            + multiset(Filter(rows, IsOtherStatus)) == multiset(rows)
  {
    if rows != [] {
      var init, last := rows[..|rows| - 1], rows[|rows| - 1];
      BucketContents(init);
      assert rows == init + [last];
      FilterSnoc(init, last, IsOpen);
      FilterSnoc(init, last, IsClosed);
      FilterSnoc(init, last, IsOtherStatus);
    }
  }

  /** Sorting a bucket whose rows all have one status keeps that status at
      every position. */
  lemma SortedStatus(s: seq<IncidentRow>, leq: (IncidentRow, IncidentRow) -> bool, status: Status)
    requires forall x :: x in s ==> x.status == status
    ensures forall i :: 0 <= i < |SortBy(s, leq)| ==> SortBy(s, leq)[i].status == status
  {
    var r := SortBy(s, leq);
    forall i | 0 <= i < |r| ensures r[i].status == status {
      assert r[i] in multiset(r);
    }
  }

  /** The menu holds exactly the rows. */
  lemma MenuOrderContents(
    rows: seq<IncidentRow>, bySeverity: (IncidentRow, IncidentRow) -> bool,
    byDate: (IncidentRow, IncidentRow) -> bool)
    ensures multiset(MenuOrder(rows, bySeverity, byDate)) == multiset(rows)
  {
    BucketContents(rows);
  }

  /** The three parts of `a + b + c`, read back by position. */
  lemma ThreeParts<T>(a: seq<T>, b: seq<T>, c: seq<T>)
    ensures (a + b + c)[..|a|] == a
    ensures (a + b + c)[|a|..|a| + |b|] == b
    ensures (a + b + c)[|a| + |b|..] == c
  {
  }

  /** The menu lists every row once: all open incidents first, sorted by
      severity, then all closed ones, then all the others, each sorted by
      date. */
  lemma MenuOrderArrangement(
    rows: seq<IncidentRow>, bySeverity: (IncidentRow, IncidentRow) -> bool,
    byDate: (IncidentRow, IncidentRow) -> bool)
    requires TotalPreorder(bySeverity) && TotalPreorder(byDate)
    ensures
      var order := MenuOrder(rows, bySeverity, byDate);
      var nOpen := |Filter(rows, IsOpen)|;
      var nClosed := |Filter(rows, IsClosed)|;
      && multiset(order) == multiset(rows)
      && nOpen + nClosed <= |order|
      && (forall i :: 0 <= i < nOpen ==> order[i].status == Open)
      && (forall i :: nOpen <= i < nOpen + nClosed ==> order[i].status == Closed)
      && (forall i :: nOpen + nClosed <= i < |order| ==> order[i].status == Invalid)
      && SortedBy(order[..nOpen], bySeverity)
      && SortedBy(order[nOpen..nOpen + nClosed], byDate)
      && SortedBy(order[nOpen + nClosed..], byDate)
  {
    var fo, fc, fv := Filter(rows, IsOpen), Filter(rows, IsClosed), Filter(rows, IsOtherStatus);
    var o, c, v := SortBy(fo, bySeverity), SortBy(fc, byDate), SortBy(fv, byDate);
    MenuOrderContents(rows, bySeverity, byDate);
    SortBySorted(fo, bySeverity);
    SortBySorted(fc, byDate);
    SortBySorted(fv, byDate);
    SortedStatus(fo, bySeverity, Open);
    SortedStatus(fc, byDate, Closed);
    SortedStatus(fv, byDate, Invalid);
    ThreeParts(o, c, v);
  }

  /** An option's value, read back as the selected incident id, finds the
      current revision of the incident it was built from. */
  lemma OptionSelectsItsIncident(table: seq<IncidentRow>, incident: IncidentRow)
    requires incident in LastUpdateOfAllFewColumns(table)
    requires IsInteger(incident.id)
    ensures
      var selected := LastUpdateOfSelected(table, OptionFor(incident).value);
      && selected.Ok? && selected.value.Some?
      && selected.value.value.id == incident.id
      && selected.value.value.updateNumber == incident.updateNumber
  {
  }

  // ---------------------------------------------------------------------------
  // The update submission

  /** The values read from the update modal. Date-time pickers give epoch
      seconds; an empty picker gives nothing. */
  datatype UpdateForm = UpdateForm(
    severity: Option<Severity>,
    reportSeconds: Option<int>,
    resolutionSeconds: Option<int>,
    point: Option<string>,
    contact: Option<string>,
    title: Option<string>,
    description: Option<string>,
    status: Option<Status>,
    rcaLink: Option<string>)

  /** `selected_date_time * 1000`; an empty picker yields a falsy value,
      modelled as 0. */
  function PickerMillis(seconds: Option<int>): (millis: int)
    ensures millis == 0 <==> seconds == None || seconds == Some(0)
    ensures millis % 1000 == 0
    ensures seconds.Some? ==> millis / 1000 == seconds.value
  {
    match seconds
    case Some(s) => s * 1000
    case None => 0
  }

  /** buildDateAndTime's guard: a falsy timestamp gives null. The calendar
      text it builds for a truthy one is not modelled: the timestamp stands
      for it. */
  function DateAndTime(timestamp: int): (d: Option<Timestamp>)
    ensures d.None? <==> timestamp == 0
    ensures d.Some? ==> d.value == timestamp
  {
    if timestamp != 0 then Some(timestamp) else None
  }

  /** The closing date an update stores: the picked resolution time when
      there is one; else the current time when the incident is being closed;
      else none. */
  function ClosingDate(status: Option<Status>, resolutionSeconds: Option<int>, nowMillis: int): (d: Option<Timestamp>)
    ensures d.Some? <==> PickerMillis(resolutionSeconds) != 0 || (status == Some(Closed) && nowMillis != 0)
    ensures d.Some? && PickerMillis(resolutionSeconds) == 0 ==> d.value == nowMillis
  {
    if PickerMillis(resolutionSeconds) != 0 then Some(PickerMillis(resolutionSeconds))
    else if status == Some(Closed) then DateAndTime(nowMillis)
    else None
  }

  /** The closing date stored by an update, computed as the source does by
      reassigning the resolution timestamp. */
  method ClosedDate(status: Option<Status>, resolutionSeconds: Option<int>, nowMillis: int)
    returns (closedAt: Option<Timestamp>)
    ensures closedAt == ClosingDate(status, resolutionSeconds, nowMillis)
    ensures PickerMillis(resolutionSeconds) != 0 ==> closedAt == Some(PickerMillis(resolutionSeconds))
    ensures PickerMillis(resolutionSeconds) == 0 && status == Some(Closed) ==> closedAt == DateAndTime(nowMillis)
    ensures PickerMillis(resolutionSeconds) == 0 && status != Some(Closed) ==> closedAt == None
    ensures status == Some(Closed) && nowMillis != 0 ==> closedAt.Some?
  {
    var resolutionTimestamp := PickerMillis(resolutionSeconds);
    if status == Some(Closed) && resolutionTimestamp == 0 {
      resolutionTimestamp := nowMillis;
    }
    closedAt := DateAndTime(resolutionTimestamp);
  }

  /** `severity?.text.text`: the option's label, or "undefined". */
  function SeverityText(severity: Option<Severity>): string {
    match severity
    case None => "undefined"
    case Some(Sev1) => "SEV-1"
    case Some(Sev2) => "SEV-2"
    case Some(Sev3) => "SEV-3"
    case Some(Sev4) => "SEV-4"
    case Some(Sev5) => "SEV-5"
  }

  /** `status?.text.text`: the option's label, or "undefined". */
  function StatusText(status: Option<Status>): string {
    match status
    case None => "undefined"
    case Some(Open) => "\U{1F6A8} Open"
    case Some(Closed) => "\U{2705} Closed"
    case Some(Invalid) => "\U{1F6AB} Invalid"
  }

  /** A string or null inside a template literal. */
  function Interpolated(s: Option<string>): string {
    match s
    case Some(v) => v
    case None => "null"
  }

  /** A date built by buildDateAndTime inside a template literal;
      `renderDate` stands for the text it builds. */
  function DateText(renderDate: Timestamp -> string, d: Option<Timestamp>): string {
    match d
    case Some(t) => renderDate(t)
    case None => "null"
  }

  /** One `*label:* value` line of the confirmation; only the RCA line has
      no newline after it. */
  datatype Field = Field(caption: Caption, value: string, terminated: bool)

  /** The captions of the confirmation's lines. */
  datatype Caption =
    | IdCaption | SeverityCaption | ReportCaption | ResolutionCaption | PointCaption
    | ContactCaption | TitleCaption | DescriptionCaption | StatusCaption | RcaCaption

  function CaptionText(c: Caption): string {
    match c
    case IdCaption => "Id"
    case SeverityCaption => "Severity"
    case ReportCaption => "Report date and time"
    case ResolutionCaption => "Resolution date and time"
    case PointCaption => "Point"
    case ContactCaption => "Contact"
    case TitleCaption => "Title"
    case DescriptionCaption => "Description"
    case StatusCaption => "Status"
    case RcaCaption => "RCA link"
  }

  const UpdateHeader: string := "Incident updated succesfully with the following data:\n\n"

  function FieldText(f: Field): string {
    "*" + CaptionText(f.caption) + ":* " + f.value + (if f.terminated then "\n" else "")
  }

  /** The text of each line, in order. */
  function Lines(fields: seq<Field>): (lines: seq<string>)
    ensures |lines| == |fields|
    ensures forall i :: 0 <= i < |fields| ==> lines[i] == FieldText(fields[i])
  {
    seq(|fields|, i requires 0 <= i < |fields| => FieldText(fields[i]))
  }

  function RenderFields(fields: seq<Field>): string {
    Concat(Lines(fields))
  }

  /** The lines of the update confirmation, in order. */
  function UpdateFields(
    id: int, form: UpdateForm, reportedAt: Option<Timestamp>, closedAt: Option<Timestamp>,
    renderDate: Timestamp -> string): seq<Field>
  {
    LeadingFields(id, form, reportedAt, renderDate) + ResolutionFields(closedAt, renderDate)
      + DetailFields(form) + RcaFields(form)
  }

  function LeadingFields(
    id: int, form: UpdateForm, reportedAt: Option<Timestamp>, renderDate: Timestamp -> string): seq<Field>
  {
    [ Field(IdCaption, "DCL-" + IntToDecimal(id), true),
      Field(SeverityCaption, SeverityText(form.severity), true),
      Field(ReportCaption, DateText(renderDate, reportedAt) + "hs", true) ]
  }

  /** The resolution line, present only with a closing date. */
  function ResolutionFields(closedAt: Option<Timestamp>, renderDate: Timestamp -> string): seq<Field> {
    if closedAt.Some? then [Field(ResolutionCaption, renderDate(closedAt.value) + "hs", true)] else []
  }

  function DetailFields(form: UpdateForm): seq<Field> {
    [ Field(PointCaption, Slack.GetUsername(form.point), true),
      Field(ContactCaption, Slack.GetUsername(form.contact), true),
      Field(TitleCaption, Interpolated(form.title), true),
      Field(DescriptionCaption, Interpolated(form.description), true),
      Field(StatusCaption, StatusText(form.status), true) ]
  }

  /** The RCA line, present only with a non-empty link, and unterminated. */
  function RcaFields(form: UpdateForm): seq<Field> {
    if Truthy(form.rcaLink) then [Field(RcaCaption, form.rcaLink.value, false)] else []
  }

  function Captions(fields: seq<Field>): (cs: seq<Caption>)
    ensures |cs| == |fields|
    ensures forall i :: 0 <= i < |fields| ==> cs[i] == fields[i].caption
  {
    seq(|fields|, i requires 0 <= i < |fields| => fields[i].caption)
  }

  /** The confirmation has a resolution line exactly when there is a closing
      date and an RCA line exactly when the link is non-empty. */
  lemma UpdateFieldsCaptions(
    id: int, form: UpdateForm, reportedAt: Option<Timestamp>, closedAt: Option<Timestamp>,
    renderDate: Timestamp -> string)
    ensures
      var captions := Captions(UpdateFields(id, form, reportedAt, closedAt, renderDate));
      && (ResolutionCaption in captions <==> closedAt.Some?)
      && (RcaCaption in captions <==> Truthy(form.rcaLink))
      && |captions| == 8 + (if closedAt.Some? then 1 else 0) + (if Truthy(form.rcaLink) then 1 else 0)
  {
    var lead := LeadingFields(id, form, reportedAt, renderDate);
    var res := ResolutionFields(closedAt, renderDate);
    var detail := DetailFields(form);
    var rca := RcaFields(form);
    CaptionsAppend(lead, res);
    CaptionsAppend(lead + res, detail);
    CaptionsAppend(lead + res + detail, rca);
    LeadingCaptions(id, form, reportedAt, renderDate);
    DetailCaptions(form);
    assert Captions(res) == if closedAt.Some? then [ResolutionCaption] else [];
    assert Captions(rca) == if Truthy(form.rcaLink) then [RcaCaption] else [];
    CaptionLayout(Captions(res), Captions(rca));
  }

  lemma LeadingCaptions(id: int, form: UpdateForm, reportedAt: Option<Timestamp>, renderDate: Timestamp -> string)
    ensures Captions(LeadingFields(id, form, reportedAt, renderDate)) == [IdCaption, SeverityCaption, ReportCaption]
  {
  }

  lemma DetailCaptions(form: UpdateForm)
    ensures Captions(DetailFields(form))
         == [PointCaption, ContactCaption, TitleCaption, DescriptionCaption, StatusCaption]
  {
  }

  /** Where the two optional captions sit among the eight fixed ones. */
  lemma CaptionLayout(res: seq<Caption>, rca: seq<Caption>)
    requires res == [] || res == [ResolutionCaption]
    requires rca == [] || rca == [RcaCaption]
    ensures
      var captions := [IdCaption, SeverityCaption, ReportCaption] + res
        + [PointCaption, ContactCaption, TitleCaption, DescriptionCaption, StatusCaption] + rca;
      && (ResolutionCaption in captions <==> res != [])
      && (RcaCaption in captions <==> rca != [])
      && |captions| == 8 + |res| + |rca|
  {
  }

  /** Every line of the confirmation ends with a newline except an RCA line,
      which is the last one when present. */
  lemma UpdateFieldsEndings(
    id: int, form: UpdateForm, reportedAt: Option<Timestamp>, closedAt: Option<Timestamp>,
    renderDate: Timestamp -> string)
    ensures
      var fields := UpdateFields(id, form, reportedAt, closedAt, renderDate);
      && (forall i :: 0 <= i < |fields| - 1 ==> fields[i].terminated)
      && |fields| > 0
      && (fields[|fields| - 1].terminated <==> !Truthy(form.rcaLink))
  {
    var front := LeadingFields(id, form, reportedAt, renderDate) + ResolutionFields(closedAt, renderDate)
      + DetailFields(form);
    assert forall i :: 0 <= i < |front| ==> front[i].terminated;
    EndingsLayout(front, RcaFields(form));
  }

  /** Terminated lines followed by at most one unterminated line. */
  lemma EndingsLayout(front: seq<Field>, rest: seq<Field>)
    requires front != [] && forall i :: 0 <= i < |front| ==> front[i].terminated
    requires rest == [] || (|rest| == 1 && !rest[0].terminated)
    ensures
      var fields := front + rest;
      && (forall i :: 0 <= i < |fields| - 1 ==> fields[i].terminated)
      && (fields[|fields| - 1].terminated <==> rest == [])
  {
  }

  lemma CaptionsAppend(a: seq<Field>, b: seq<Field>)
    ensures Captions(a + b) == Captions(a) + Captions(b)
  {
  }

  /** Rendering distributes over concatenation of line lists. */
  lemma RenderAppend(a: seq<Field>, b: seq<Field>)
    ensures RenderFields(a + b) == RenderFields(a) + RenderFields(b)
  {
    assert Lines(a + b) == Lines(a) + Lines(b);
    ConcatAppend(Lines(a), Lines(b));
  }

  /** Concatenation regrouped from the right to the left. */
  lemma Regroup<T>(h: seq<T>, a: seq<T>, b: seq<T>, c: seq<T>, d: seq<T>)
    ensures h + (((a + b) + c) + d) == (((h + a) + b) + c) + d
  {
  }

  /** The texts of the leading lines, appended one by one. */
  lemma LeadingText(h: string, id: int, form: UpdateForm, reportedAt: Option<Timestamp>, renderDate: Timestamp -> string)
    ensures h + FieldText(Field(IdCaption, "DCL-" + IntToDecimal(id), true))
              + FieldText(Field(SeverityCaption, SeverityText(form.severity), true))
              + FieldText(Field(ReportCaption, DateText(renderDate, reportedAt) + "hs", true))
            == h + RenderFields(LeadingFields(id, form, reportedAt, renderDate))
  {
    var a := FieldText(Field(IdCaption, "DCL-" + IntToDecimal(id), true));
    var b := FieldText(Field(SeverityCaption, SeverityText(form.severity), true));
    var c := FieldText(Field(ReportCaption, DateText(renderDate, reportedAt) + "hs", true));
    assert Lines(LeadingFields(id, form, reportedAt, renderDate)) == [a, b, c];
    ConcatOfThree(h, a, b, c);
  }

  /** The texts of the detail lines, appended one by one. */
  lemma DetailText(h: string, form: UpdateForm)
    ensures h + FieldText(Field(PointCaption, Slack.GetUsername(form.point), true))
              + FieldText(Field(ContactCaption, Slack.GetUsername(form.contact), true))
              + FieldText(Field(TitleCaption, Interpolated(form.title), true))
              + FieldText(Field(DescriptionCaption, Interpolated(form.description), true))
              + FieldText(Field(StatusCaption, StatusText(form.status), true))
            == h + RenderFields(DetailFields(form))
  {
    var a := FieldText(Field(PointCaption, Slack.GetUsername(form.point), true));
    var b := FieldText(Field(ContactCaption, Slack.GetUsername(form.contact), true));
    var c := FieldText(Field(TitleCaption, Interpolated(form.title), true));
    var d := FieldText(Field(DescriptionCaption, Interpolated(form.description), true));
    var e := FieldText(Field(StatusCaption, StatusText(form.status), true));
    assert Lines(DetailFields(form)) == [a, b, c, d, e];
    ConcatOfFive(h, a, b, c, d, e);
  }

  /** A single optional line, or none. */
  lemma OptionalText(h: string, fs: seq<Field>)
    requires |fs| <= 1
    ensures fs == [] ==> h == h + RenderFields(fs)
    ensures fs != [] ==> h + FieldText(fs[0]) == h + RenderFields(fs)
  {
    if fs == [] {
      assert Lines(fs) == [];
    } else {
      assert Lines(fs) == [FieldText(fs[0])];
      assert Concat([FieldText(fs[0])]) == FieldText(fs[0]) + Concat([]);
    }
  }

  /** The confirmation message, built line by line as the source appends
      to it. */
  method BuildUpdateMessage(
    id: int, form: UpdateForm, reportedAt: Option<Timestamp>, closedAt: Option<Timestamp>,
    renderDate: Timestamp -> string)
    returns (msg: string)
    ensures msg == UpdateHeader + RenderFields(UpdateFields(id, form, reportedAt, closedAt, renderDate))
  {
    ghost var lead := LeadingFields(id, form, reportedAt, renderDate);
    ghost var resolution := ResolutionFields(closedAt, renderDate);
    ghost var detail := DetailFields(form);
    ghost var rca := RcaFields(form);

    msg := UpdateHeader;
    msg := msg + FieldText(Field(IdCaption, "DCL-" + IntToDecimal(id), true));
    msg := msg + FieldText(Field(SeverityCaption, SeverityText(form.severity), true));
    msg := msg + FieldText(Field(ReportCaption, DateText(renderDate, reportedAt) + "hs", true));
    LeadingText(UpdateHeader, id, form, reportedAt, renderDate);

    OptionalText(msg, resolution);
    if closedAt.Some? {
      msg := msg + FieldText(Field(ResolutionCaption, renderDate(closedAt.value) + "hs", true));
    }
    ghost var afterResolution := msg;

    msg := msg + FieldText(Field(PointCaption, Slack.GetUsername(form.point), true));
    msg := msg + FieldText(Field(ContactCaption, Slack.GetUsername(form.contact), true));
    msg := msg + FieldText(Field(TitleCaption, Interpolated(form.title), true));
    msg := msg + FieldText(Field(DescriptionCaption, Interpolated(form.description), true));
    msg := msg + FieldText(Field(StatusCaption, StatusText(form.status), true));
    DetailText(afterResolution, form);

    OptionalText(msg, rca);
    if Truthy(form.rcaLink) {
      msg := msg + FieldText(Field(RcaCaption, form.rcaLink.value, false));
    }

    RenderAppend(lead, resolution);
    RenderAppend(lead + resolution, detail);
    RenderAppend(lead + resolution + detail, rca);
    Regroup(UpdateHeader, RenderFields(lead), RenderFields(resolution), RenderFields(detail), RenderFields(rca));
  }

  /** The update submission: append the next revision of the selected
      incident and, when the insert succeeds, build the confirmation. A
      failed insert is only logged, so no message is built. `nowMillis` is
      the adapter's clock, `dbNow` the database's. */
  method SubmitUpdate(
    store: IncidentStore, selected: IncidentRow, form: UpdateForm, user: string,
    nowMillis: int, dbNow: Timestamp, renderDate: Timestamp -> string)
    returns (message: Option<string>)
    requires store.Valid()
    modifies store
    ensures store.Valid()
    ensures message.None? <==>
      UpdateViolation(selected.id, selected.updateNumber + 1, form.severity, form.title,
                      form.description, DateAndTime(PickerMillis(form.reportSeconds)), form.status).Some?
    ensures store.nextId == old(store.nextId)
    ensures message.None? ==> store.rows == old(store.rows)
    ensures message.Some? ==>
      && var closedAt := ClosingDate(form.status, form.resolutionSeconds, nowMillis);
      && var reportedAt := DateAndTime(PickerMillis(form.reportSeconds));
      && store.rows == old(store.rows) + [IncidentRow(
           selected.id, selected.updateNumber + 1, user, dbNow, reportedAt.value, closedAt,
           form.status.value, form.severity.value, form.title.value, form.description.value,
           form.point, form.contact, form.rcaLink)]
      && message.value == UpdateHeader + RenderFields(UpdateFields(selected.id, form, reportedAt, closedAt, renderDate))
    ensures message.Some? && selected in old(store.rows) && IsLatest(old(store.rows), selected) ==>
      LatestOf(store.rows, selected.id) == Some(store.rows[|store.rows| - 1])
  {
    var reportedAt := DateAndTime(PickerMillis(form.reportSeconds));
    var closedAt := ClosedDate(form.status, form.resolutionSeconds, nowMillis);
    ghost var before := store.rows;
    var error := store.UpdateIncident(
      selected.id, selected.updateNumber + 1, user, form.severity, form.title, form.description,
      form.point, form.contact, reportedAt, form.status, closedAt, form.rcaLink, dbNow);
    if error.Some? {
      return None;
    }
    var msg := BuildUpdateMessage(selected.id, form, reportedAt, closedAt, renderDate);
    message := Some(msg);
    var r := store.rows[|before|];
    assert store.rows == before + [r];
    if selected in before && IsLatest(before, selected) {
      AppendSupersedes(before, r);
    }
  }
}
