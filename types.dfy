/**
 * The shared vocabulary of the planner: the three content series, the three
 * lifecycle states, the `Topic` record, the imported `ReferenceNote` record
 * and the constant label tables.
 */
module Types {
  import opened Wrappers

  /** The three content series a topic belongs to. */
  datatype Series = Knowledge | Hotspot | Diagram

  /** The lifecycle of a topic: idea, then scripting, then published. */
  datatype Status = Idea | Scripting | Published

  /**
   * A content idea. `note`, `isUrgent` and `targetDate` are optional;
   * `targetDate`, when the calendar sets it, is a `YYYY-MM-DD` key.
   */
  datatype Topic = Topic(
    id: string,
    title: string,
    note: Option<string>,
    series: Series,
    status: Status,
    createdAt: string,
    updatedAt: string,
    isUrgent: Option<bool>,
    targetDate: Option<string>)

  /**
   * One key of a `Partial<Topic>`: either absent from the object, or present
   * with a value. An optional field's value may itself be `undefined`, which
   * an object spread still copies over.
   */
  datatype Slot<T> = Absent | Present(value: T) {
    function Or(fallback: T): T {
      if Present? then value else fallback
    }
  }

  /** `Partial<Topic>`: any subset of a topic's keys. */
  datatype TopicPatch = TopicPatch(
    id: Slot<string>,
    title: Slot<string>,
    note: Slot<Option<string>>,
    series: Slot<Series>,
    status: Slot<Status>,
    createdAt: Slot<string>,
    updatedAt: Slot<string>,
    isUrgent: Slot<Option<bool>>,
    targetDate: Slot<Option<string>>)

  /** The patch with no keys at all, `{}`. */
  const EmptyPatch := TopicPatch(Absent, Absent, Absent, Absent, Absent, Absent, Absent, Absent, Absent)

  /** A whole topic used where a `Partial<Topic>` is expected: every key is present. */
  function PatchOf(t: Topic): (p: TopicPatch)
    ensures p.id == Present(t.id) && p.title == Present(t.title) && p.note == Present(t.note)
    ensures p.series == Present(t.series) && p.status == Present(t.status)
    ensures p.createdAt == Present(t.createdAt) && p.updatedAt == Present(t.updatedAt)
    ensures p.isUrgent == Present(t.isUrgent) && p.targetDate == Present(t.targetDate)
    ensures forall u: Topic :: Overlay(u, p) == t
  {
    TopicPatch(Present(t.id), Present(t.title), Present(t.note), Present(t.series), Present(t.status),
      Present(t.createdAt), Present(t.updatedAt), Present(t.isUrgent), Present(t.targetDate))
  }

  /** `{ ...t, ...p }`: every key present in `p` replaces the topic's field. */
  function Overlay(t: Topic, p: TopicPatch): Topic {
    Topic(
      p.id.Or(t.id), p.title.Or(t.title), p.note.Or(t.note), p.series.Or(t.series), p.status.Or(t.status),
      p.createdAt.Or(t.createdAt), p.updatedAt.Or(t.updatedAt), p.isUrgent.Or(t.isUrgent),
      p.targetDate.Or(t.targetDate))
  }

  /** Spreading an empty patch copies the topic unchanged. */
  lemma OverlayEmpty(t: Topic)
    ensures Overlay(t, EmptyPatch) == t
  {
  }

  /**
   * Spreading a whole topic over any topic yields that topic, including an
   * absent `target_date`: a present-but-undefined key clears the field.
   */
  lemma OverlayWhole(t: Topic, u: Topic)
    ensures Overlay(t, PatchOf(u)) == u
  {
  }

  /** Spreading the same patch twice is spreading it once. */
  lemma OverlayIdempotent(t: Topic, p: TopicPatch)
    ensures Overlay(Overlay(t, p), p) == Overlay(t, p)
  {
  }

  /**
   * An imported benchmark note. `id` is the planner's own record id and
   * `noteId` the source platform's identifier. The fields the library view
   * reads through `?.` or `|| 0` / `|| ''` are optional.
   */
  datatype ReferenceNote = ReferenceNote(
    id: string,
    noteId: string,
    noteLink: string,
    noteType: string,
    title: Option<string>,
    content: Option<string>,
    likes: Option<int>,
    favorites: Option<int>,
    comments: Option<int>,
    shares: int,
    publishedAt: Option<string>,
    authorId: Option<string>,
    authorLink: string,
    authorName: Option<string>,
    imageCount: int,
    coverUrl: string,
    createdAt: string)

  /** Every series, in the order the label table lists them (the order of the series buttons). */
  function AllSeries(): (r: seq<Series>)
    ensures |r| == 3
    ensures forall i, j :: 0 <= i < j < |r| ==> r[i] != r[j]
  {
    [Knowledge, Hotspot, Diagram]
  }

  /** No series is missing from `AllSeries`. */
  lemma AllSeriesComplete(s: Series)
    ensures s in AllSeries()
  {
    match s
    case Knowledge => assert AllSeries()[0] == s;
    case Hotspot => assert AllSeries()[1] == s;
    case Diagram => assert AllSeries()[2] == s;
  }

  /** Every status, in lifecycle order. */
  function AllStatuses(): (r: seq<Status>)
    ensures |r| == 3
    ensures forall s: Status :: r[StatusRank(s)] == s
    ensures forall i :: 0 <= i < |r| ==> StatusRank(r[i]) == i
  {
    [Idea, Scripting, Published]
  }

  /** Position of a status in the lifecycle. */
  function StatusRank(s: Status): nat {
    match s
    case Idea => 0
    case Scripting => 1
    case Published => 2
  }

  /** `SERIES_LABELS`: a display name for every series, no two alike. */
  function SeriesLabel(s: Series): (r: string)
    ensures r != []
  {
    match s
    case Knowledge => "秒懂金融小知识"
    case Hotspot => "每天秒懂一个财经热点"
    case Diagram => "一图学金融"
  }

  /** No two series share a display name. */
  lemma SeriesLabelsDistinct(s: Series, t: Series)
    requires s != t
    ensures SeriesLabel(s) != SeriesLabel(t)
  {
  }

  /** `SERIES_ICONS`: the icon name of every series. */
  function SeriesIcon(s: Series): (r: string)
    ensures r != []
  {
    match s
    case Knowledge => "BookOpen"
    case Hotspot => "Zap"
    case Diagram => "PieChart"
  }

  /** `SERIES_COLORS`: the badge classes of every series. */
  function SeriesColor(s: Series): (r: string)
    ensures r != []
  {
    match s
    case Knowledge => "bg-blue-100 text-blue-700 border-blue-200"
    case Hotspot => "bg-orange-100 text-orange-700 border-orange-200"
    case Diagram => "bg-purple-100 text-purple-700 border-purple-200"
  }

  /** `STATUS_LABELS`: a display name for every status, no two alike. */
  function StatusLabel(s: Status): (r: string)
    ensures r != []
  {
    match s
    case Idea => "灵感 / 待选"
    case Scripting => "正在创作"
    case Published => "已发布"
  }

  /** No two statuses share a display name. */
  lemma StatusLabelsDistinct(s: Status, t: Status)
    requires s != t
    ensures StatusLabel(s) != StatusLabel(t)
  {
  }
}
