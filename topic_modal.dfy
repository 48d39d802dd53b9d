/**
 * The topic editor dialog: five form fields, filled from the topic being
 * edited (or blanked) whenever the dialog opens, and a submit handler that
 * validates the title, derives the lifecycle status and assembles the topic
 * handed to the page. The fresh id and the clock arrive as parameters.
 */
module TopicModal {
  import opened Wrappers
  import opened Text
  import opened Types

  /** The values of the five form fields. */
  datatype Form = Form(title: string, note: string, series: Series, isUrgent: bool, targetDate: string)

  /** `(initialTopic?.series) || defaultSeries || 'knowledge'`. */
  function StartSeries(given: Slot<Series>, defaultSeries: Option<Series>): (r: Series)
    ensures given.Present? ==> r == given.value
    ensures given.Absent? && defaultSeries.Some? ==> r == defaultSeries.value
    ensures given.Absent? && defaultSeries.None? ==> r == Knowledge
  {
    if given.Present? then given.value else defaultSeries.GetOr(Knowledge)
  }

  /** `x || ''` for an optional text key. */
  function TextOrBlank(given: Slot<Option<string>>): string {
    if given.Present? && given.value.Some? then given.value.value else ""
  }

  /**
   * What the form holds right after the dialog opens: the fields of the topic
   * being edited, blank where it has none, or a blank form in the default
   * series.
   */
  function Reset(initial: Option<TopicPatch>, defaultSeries: Option<Series>): (r: Form)
    ensures initial.None? ==> r == Form("", "", defaultSeries.GetOr(Knowledge), false, "")
    ensures initial.Some? ==> r.title == initial.value.title.Or("")
    ensures initial.Some? ==> r.series == StartSeries(initial.value.series, defaultSeries)
    ensures initial.Some? ==> (r.isUrgent <==> initial.value.isUrgent == Present(Some(true)))
    ensures initial.Some? && initial.value.note.Present? && initial.value.note.value.Some? ==>
              r.note == initial.value.note.value.value
    ensures initial.Some? && (initial.value.note.Absent? || initial.value.note.value.None?) ==> r.note == ""
    ensures initial.Some? && initial.value.targetDate.Present? && initial.value.targetDate.value.Some? ==>
              r.targetDate == initial.value.targetDate.value.value
    ensures initial.Some? && (initial.value.targetDate.Absent? || initial.value.targetDate.value.None?) ==>
              r.targetDate == ""
  {
    match initial
    case None => Form("", "", defaultSeries.GetOr(Knowledge), false, "")
    case Some(p) =>
      Form(
        p.title.Or(""),
        TextOrBlank(p.note),
        StartSeries(p.series, defaultSeries),
        p.isUrgent == Present(Some(true)),
        TextOrBlank(p.targetDate))
  }

  /** `!initialTopic?.id`: no topic, no id key, or an empty id. */
  predicate IsNew(initial: Option<TopicPatch>) {
    initial.None? || initial.value.id.Absent? || initial.value.id.value == ""
  }

  /** `initialTopic?.status || 'idea'`. */
  function PriorStatus(initial: Option<TopicPatch>): Status {
    if initial.Some? then initial.value.status.Or(Idea) else Idea
  }

  /**
   * The status a submitted topic gets: a new topic with a date, or an idea
   * that is being given a date, moves to scripting; otherwise the status is
   * kept.
   */
  function DeriveStatus(prior: Status, isNew: bool, hasDate: bool): (r: Status)
    ensures r == prior || r == Scripting
    ensures !hasDate ==> r == prior
  {
    if isNew && hasDate then Scripting
    else if !isNew && prior == Idea && hasDate then Scripting
    else prior
  }

  /** The status only moves forward through the lifecycle, except that a new topic with a date is put into scripting. */
  lemma DeriveStatusMonotone(prior: Status, isNew: bool, hasDate: bool)
    ensures !isNew ==> StatusRank(DeriveStatus(prior, isNew, hasDate)) >= StatusRank(prior)
    ensures DeriveStatus(prior, isNew, hasDate) == Scripting <==> prior == Scripting || (hasDate && (isNew || prior == Idea))
    ensures isNew && hasDate ==> DeriveStatus(prior, isNew, hasDate) == Scripting
  {
  }

  /** `targetDate || undefined`. */
  function DateOrNone(d: string): (r: Option<string>)
    ensures r.None? <==> d == ""
    ensures r.Some? ==> r.value == d
  {
    if d == "" then None else Some(d)
  }

  /**
   * `handleSubmit`: `None` (an alert, nothing saved) when the title is blank;
   * otherwise the topic handed to `onSave`.
   */
  function Submit(f: Form, initial: Option<TopicPatch>, freshId: string, now: string): (r: Option<Topic>)
    ensures r.None? <==> AllSpace(f.title)
    ensures r.Some? ==> r.value.title == Trim(f.title) && r.value.title != [] && Trimmed(r.value.title)
    ensures r.Some? ==> r.value.note == Some(Trim(f.note))
    ensures r.Some? ==> r.value.series == f.series && r.value.isUrgent == Some(f.isUrgent)
    ensures r.Some? ==> r.value.updatedAt == now
    ensures r.Some? ==> r.value.targetDate == DateOrNone(f.targetDate)
    ensures r.Some? ==> r.value.status == DeriveStatus(PriorStatus(initial), IsNew(initial), f.targetDate != "")
    ensures r.Some? && IsNew(initial) ==> r.value.id == freshId
    ensures r.Some? && !IsNew(initial) ==> r.value.id == initial.value.id.value
    ensures r.Some? ==> r.value.createdAt == CreatedAt(initial, now)
  {
    if Trim(f.title) == [] then None
    else
      var id := if IsNew(initial) then freshId else initial.value.id.value;
      Some(Topic(
        id, Trim(f.title), Some(Trim(f.note)), f.series,
        DeriveStatus(PriorStatus(initial), IsNew(initial), f.targetDate != ""),
        CreatedAt(initial, now), now, Some(f.isUrgent), DateOrNone(f.targetDate)))
  }

  /** `initialTopic?.created_at || now`. */
  function CreatedAt(initial: Option<TopicPatch>, now: string): string {
    if initial.Some? && initial.value.createdAt.Present? && initial.value.createdAt.value != ""
    then initial.value.createdAt.value else now
  }

  /** Editing a topic never moves its status backwards. */
  lemma EditNeverRegresses(f: Form, t: Topic, freshId: string, now: string)
    requires t.id != ""
    requires Submit(f, Some(PatchOf(t)), freshId, now).Some?
    ensures StatusRank(Submit(f, Some(PatchOf(t)), freshId, now).value.status) >= StatusRank(t.status)
  {
    DeriveStatusMonotone(t.status, false, f.targetDate != "");
  }

  /** Editing keeps the topic's id and creation time. */
  lemma EditKeepsIdentity(f: Form, t: Topic, freshId: string, now: string)
    requires t.id != "" && t.createdAt != ""
    requires !AllSpace(f.title)
    ensures Submit(f, Some(PatchOf(t)), freshId, now).value.id == t.id
    ensures Submit(f, Some(PatchOf(t)), freshId, now).value.createdAt == t.createdAt
  {
  }

  /** A dialog opened blank cannot be submitted until a title is typed. */
  lemma BlankFormRejected(defaultSeries: Option<Series>, initial: Option<TopicPatch>, freshId: string, now: string)
    ensures Submit(Reset(None, defaultSeries), initial, freshId, now) == None
  {
  }

  /**
   * Clicking an empty calendar day opens the dialog with only that day and the
   * default series; whatever title is typed, the saved topic is a new one in
   * scripting, planned for that day.
   */
  lemma CalendarClickSchedules(dayKey: string, title: string, freshId: string, now: string)
    requires dayKey != "" && !AllSpace(title)
    ensures Submit(Reset(Some(CalendarPatch(dayKey)), None).(title := title), Some(CalendarPatch(dayKey)), freshId, now)
              == Some(Topic(freshId, Trim(title), Some(""), Knowledge, Scripting, now, now, Some(false), Some(dayKey)))
  {
    var initial := Some(CalendarPatch(dayKey));
    var f := Reset(initial, None).(title := title);
    assert f == Form(title, "", Knowledge, false, dayKey);
    assert Trim("") == "" by {
      assert AllSpace("");
    }
    var r := Submit(f, initial, freshId, now);
    assert r.Some?;
    assert r.value.status == Scripting && r.value.id == freshId && r.value.createdAt == now;
  }

  /** The partial topic a click on an empty calendar day opens the dialog with. */
  function CalendarPatch(dayKey: string): (p: TopicPatch)
    ensures p.targetDate == Present(Some(dayKey)) && p.series == Present(Knowledge)
    ensures p.id.Absent? && p.status.Absent? && p.title.Absent?
  {
    EmptyPatch.(targetDate := Present(Some(dayKey)), series := Present(Knowledge))
  }

  /** A topic the dialog could have produced: its text fields are trimmed and every optional key is set. */
  predicate Submittable(t: Topic) {
    && t.title != [] && Trimmed(t.title)
    && t.note.Some? && Trimmed(t.note.value)
    && t.isUrgent.Some?
    && (t.targetDate.None? || t.targetDate.value != "")
    && t.id != "" && t.createdAt != ""
    && !(t.status == Idea && t.targetDate.Some?)
  }

  /**
   * Reopening such a topic and submitting without touching the form saves the
   * same topic with only a new update time.
   */
  lemma ReopenRoundTrip(t: Topic, defaultSeries: Option<Series>, freshId: string, now: string)
    requires Submittable(t)
    ensures Submit(Reset(Some(PatchOf(t)), defaultSeries), Some(PatchOf(t)), freshId, now) == Some(t.(updatedAt := now))
  {
    var p := PatchOf(t);
    var f := Reset(Some(p), defaultSeries);
    assert f == Form(t.title, t.note.value, t.series, t.isUrgent.value, TextOrBlank(Present(t.targetDate)));
    assert DateOrNone(f.targetDate) == t.targetDate;
    TrimmedIsFixpoint(t.title);
    TrimmedIsFixpoint(t.note.value);
    var r := Submit(f, Some(p), freshId, now);
    assert r.Some?;
    assert r.value.id == t.id && r.value.createdAt == t.createdAt && r.value.status == t.status;
  }

  /** The dialog's React state: the five form fields. */
  class TopicModalState {
    var title: string
    var note: string
    var series: Series
    var isUrgent: bool
    var targetDate: string

    /** The initial `useState` values. */
    constructor()
      ensures Fields() == Form("", "", Knowledge, false, "")
    {
      title, note, series, isUrgent, targetDate := "", "", Knowledge, false, "";
    }

    function Fields(): Form
      reads this
    {
      Form(title, note, series, isUrgent, targetDate)
    }

    /** The effect run when the dialog's inputs change: when open, the form is reset; when closed, nothing happens. */
    method Sync(isOpen: bool, initial: Option<TopicPatch>, defaultSeries: Option<Series>)
      modifies this
      ensures isOpen ==> Fields() == Reset(initial, defaultSeries)
      ensures !isOpen ==> Fields() == old(Fields())
    {
      if isOpen {
        if initial.Some? {
          var p := initial.value;
          title := p.title.Or("");
          note := TextOrBlank(p.note);
          series := StartSeries(p.series, defaultSeries);
          isUrgent := p.isUrgent == Present(Some(true));
          targetDate := TextOrBlank(p.targetDate);
        } else {
          title := "";
          note := "";
          series := defaultSeries.GetOr(Knowledge);
          isUrgent := false;
          targetDate := "";
        }
      }
    }

    /** Typing into the title box. */
    method SetTitle(s: string)
      modifies this
      ensures Fields() == old(Fields()).(title := s)
    {
      title := s;
    }

    /** Picking a date (or clearing it to `''`). */
    method SetTargetDate(d: string)
      modifies this
      ensures Fields() == old(Fields()).(targetDate := d)
    {
      targetDate := d;
    }

    /**
     * `handleSubmit`, step by step: reject a blank title, derive the status,
     * then assemble the topic. The form itself is left as it is.
     */
    method HandleSubmit(initial: Option<TopicPatch>, freshId: string, now: string) returns (saved: Option<Topic>)
      ensures saved == Submit(Fields(), initial, freshId, now)
    {
      if Trim(title) == [] {
        return None;
      }
      var status := PriorStatus(initial);
      var isNew := IsNew(initial);
      if isNew && targetDate != "" {
        status := Scripting;
      } else if !isNew && status == Idea && targetDate != "" {
        status := Scripting;
      }
      var id := if isNew then freshId else initial.value.id.value;
      var createdAt := now;
      if initial.Some? && initial.value.createdAt.Present? && initial.value.createdAt.value != "" {
        createdAt := initial.value.createdAt.value;
      }
      var date := if targetDate == "" then None else Some(targetDate);
      saved := Some(Topic(id, Trim(title), Some(Trim(note)), series, status, createdAt, now, Some(isUrgent), date));
    }
  }
}
