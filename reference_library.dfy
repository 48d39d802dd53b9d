/**
 * The reference library page: the search over imported notes, the sort on a
 * copy by one of four fields, the summary statistics, the sort buttons and
 * the list updates after a delete or a clear. The remote note store is not
 * modelled: each of its outcomes arrives as a parameter.
 */
module ReferenceLibrary {
  import opened Wrappers
  import opened Text
  import opened Seqs
  import opened Types
  import opened Excel

  // ---------------------------------------------------------------------------
  // Search

  /** `s?.toLowerCase().includes(q)`: false when the text is missing. */
  predicate OptContains(s: Option<string>, q: string) {
    s.Some? && Contains(ToLower(s.value), q)
  }

  /** The title, the content or the author name contains `q`, ignoring case. */
  predicate NoteMatches(n: ReferenceNote, q: string) {
    OptContains(n.title, q) || OptContains(n.content, q) || OptContains(n.authorName, q)
  }

  function SearchNotes(notes: seq<ReferenceNote>, query: string): (r: seq<ReferenceNote>)
    ensures |r| <= |notes|
  {
    if query == "" then notes
    else Filter(notes, (n: ReferenceNote) => NoteMatches(n, ToLower(query)))
  }

  /** An empty query keeps every note; otherwise exactly the matching notes are kept, in order. */
  lemma SearchNotesSpec(notes: seq<ReferenceNote>, query: string)
    ensures query == "" ==> SearchNotes(notes, query) == notes
    ensures forall n :: n in SearchNotes(notes, query) <==> n in notes && (query == "" || NoteMatches(n, ToLower(query)))
    ensures query != "" ==> IsSubsequence(SearchNotes(notes, query), notes)
  {
    if query != "" {
      var p := (n: ReferenceNote) => NoteMatches(n, ToLower(query));
      forall n ensures n in SearchNotes(notes, query) <==> n in notes && NoteMatches(n, ToLower(query)) {
        FilterMembership(notes, p, n);
      }
      FilterIsSubsequence(notes, p);
    }
  }

  // ---------------------------------------------------------------------------
  // Sorting

  datatype SortField = Likes | Favorites | Comments | PublishedAt

  /** A value compared by the sort: a counter, or a publication time as text. */
  datatype SortKey = NumKey(n: int) | StrKey(s: string)

  /** `a[sortField] || 0`, or `a.published_at || ''`. */
  function KeyOf(note: ReferenceNote, field: SortField): (k: SortKey)
    ensures field == PublishedAt <==> k.StrKey?
  {
    match field
    case Likes => NumKey(note.likes.GetOr(0))
    case Favorites => NumKey(note.favorites.GetOr(0))
    case Comments => NumKey(note.comments.GetOr(0))
    case PublishedAt => StrKey(note.publishedAt.GetOr(""))
  }

  /** JavaScript's `<` on two strings: lexicographic by character. */
  predicate StrLess(a: string, b: string) {
    if a == [] then b != []
    else if b == [] then false
    else if a[0] != b[0] then a[0] < b[0]
    else StrLess(a[1..], b[1..])
  }

  /** String order is a strict total order: irreflexive, transitive, and any two different strings are ordered. */
  lemma {:induction false} StrLessTotal(a: string, b: string)
    ensures !(StrLess(a, b) && StrLess(b, a))
    ensures a != b ==> StrLess(a, b) || StrLess(b, a)
    ensures !StrLess(a, a)
  {
    if a != [] && b != [] {
      StrLessTotal(a[1..], b[1..]);
      if a[0] == b[0] && a != b {
        assert a == [a[0]] + a[1..] && b == [b[0]] + b[1..];
      }
    }
    if a != [] {
      StrLessTotal(a[1..], a[1..]);
    }
  }

  lemma {:induction false} StrLessTransitive(a: string, b: string, c: string)
    requires StrLess(a, b) && StrLess(b, c)
    ensures StrLess(a, c)
  {
    if a != [] && a[0] == b[0] && b[0] == c[0] {
      StrLessTransitive(a[1..], b[1..], c[1..]);
    }
  }

  /** `aVal < bVal` on two keys of the same field. */
  predicate KeyLess(x: SortKey, y: SortKey) {
    match (x, y)
    case (NumKey(a), NumKey(b)) => a < b
    case (StrKey(a), StrKey(b)) => StrLess(a, b)
    case _ => false
  }

  /**
   * The sort callback: 1 puts `b` before `a`, -1 keeps `a` first. Ascending
   * returns 1 when `a`'s key is larger, descending when it is smaller; equal
   * keys give -1 in both directions.
   */
  function Compare(a: ReferenceNote, b: ReferenceNote, field: SortField, asc: bool): (r: int)
    ensures r == 1 || r == -1
  {
    var x, y := KeyOf(a, field), KeyOf(b, field);
    if asc then (if KeyLess(y, x) then 1 else -1)
    else (if KeyLess(x, y) then 1 else -1)
  }

  /** `a` may come before `b`: the callback would not move `b` in front of it. */
  predicate InOrder(a: ReferenceNote, b: ReferenceNote, field: SortField, asc: bool) {
    Compare(a, b, field, asc) == -1
  }

  /**
   * For notes with different keys the callback gives opposite answers, so the
   * larger key goes first when descending and the smaller when ascending; for
   * equal keys it returns -1 in both orders.
   */
  lemma CompareSpec(a: ReferenceNote, b: ReferenceNote, field: SortField, asc: bool)
    ensures KeyOf(a, field) != KeyOf(b, field) ==> Compare(a, b, field, asc) == -Compare(b, a, field, asc)
    ensures KeyOf(a, field) == KeyOf(b, field) ==> Compare(a, b, field, asc) == -1 && Compare(b, a, field, asc) == -1
    ensures field != PublishedAt && KeyOf(a, field) != KeyOf(b, field) ==>
              (Compare(a, b, field, asc) == -1 <==> (if asc then KeyOf(a, field).n < KeyOf(b, field).n
                                                     else KeyOf(a, field).n > KeyOf(b, field).n))
  {
    var x, y := KeyOf(a, field), KeyOf(b, field);
    if x.StrKey? {
      StrLessTotal(x.s, y.s);
    }
  }

  /** The "may come before" relation is total and transitive, so it can order a whole list. */
  lemma InOrderTotal(a: ReferenceNote, b: ReferenceNote, field: SortField, asc: bool)
    ensures InOrder(a, b, field, asc) || InOrder(b, a, field, asc)
  {
    CompareSpec(a, b, field, asc);
  }

  lemma InOrderTransitive(a: ReferenceNote, b: ReferenceNote, c: ReferenceNote, field: SortField, asc: bool)
    requires InOrder(a, b, field, asc) && InOrder(b, c, field, asc)
    ensures InOrder(a, c, field, asc)
  {
    var x, y, z := KeyOf(a, field), KeyOf(b, field), KeyOf(c, field);
    if field == PublishedAt {
      if asc {
        StrLeqTransitive(x.s, y.s, z.s);
      } else {
        StrLeqTransitive(z.s, y.s, x.s);
      }
    }
  }

  /** "Not after" on strings is transitive. */
  lemma StrLeqTransitive(a: string, b: string, c: string)
    requires !StrLess(b, a) && !StrLess(c, b)
    ensures !StrLess(c, a)
  {
    StrLessTotal(a, b);
    StrLessTotal(b, c);
    StrLessTotal(a, c);
    if a != b && b != c {
      StrLessTransitive(a, b, c);
    }
  }

  /** Every earlier note may come before every later one. */
  predicate SortedBy(s: seq<ReferenceNote>, field: SortField, asc: bool) {
    forall i, j :: 0 <= i < j < |s| ==> InOrder(s[i], s[j], field, asc)
  }

  /**
   * `Array.prototype.sort` with the callback, as an insertion sort in place:
   * the array ends sorted by the callback and holds the same notes.
   */
  method SortNotes(a: array<ReferenceNote>, field: SortField, asc: bool)
    modifies a
    ensures SortedBy(a[..], field, asc)
    ensures multiset(a[..]) == multiset(old(a[..]))
  {
    for i := 0 to a.Length
      invariant SortedBy(a[..i], field, asc)
      invariant multiset(a[..]) == multiset(old(a[..]))
    {
      InsertLast(a, i, field, asc);
    }
  }

  /** Moves `a[i]` left past every note the callback puts after it. */
  method InsertLast(a: array<ReferenceNote>, i: nat, field: SortField, asc: bool)
    requires i < a.Length
    requires SortedBy(a[..i], field, asc)
    modifies a
    ensures SortedBy(a[..i + 1], field, asc)
    ensures multiset(a[..]) == multiset(old(a[..]))
  {
    var j := i;
    assert SortedExcept(a[..], j, i, field, asc);
    while j > 0 && Compare(a[j - 1], a[j], field, asc) == 1
      invariant 0 <= j <= i
      invariant SortedExcept(a[..], j, i, field, asc)
      invariant FirstOfRest(a[..], j, i, field, asc)
      invariant multiset(a[..]) == multiset(old(a[..]))
    {
      ghost var before := a[..];
      SwapStep(before, j, i, field, asc);
      a[j - 1], a[j] := a[j], a[j - 1];
      assert a[..] == Swap(before, j);
      SwapMultiset(before, j);
      j := j - 1;
    }
    InsertDone(a[..], j, i, field, asc);
  }

  /** Below `hi`, every pair not involving position `j` is in order. */
  ghost predicate SortedExcept(s: seq<ReferenceNote>, j: int, hi: int, field: SortField, asc: bool)
    requires hi < |s|
  {
    forall k, l :: 0 <= k < l <= hi && k != j && l != j ==> InOrder(s[k], s[l], field, asc)
  }

  /** The note at `j` may come before every note after it, up to `hi`. */
  ghost predicate FirstOfRest(s: seq<ReferenceNote>, j: int, hi: int, field: SortField, asc: bool)
    requires 0 <= j <= hi < |s|
  {
    forall l :: j < l <= hi ==> InOrder(s[j], s[l], field, asc)
  }

  /** Swapping the moving note with an out-of-order left neighbour keeps both facts, one place further left. */
  lemma SwapStep(s: seq<ReferenceNote>, j: int, hi: int, field: SortField, asc: bool)
    requires 0 < j <= hi < |s|
    requires SortedExcept(s, j, hi, field, asc) && FirstOfRest(s, j, hi, field, asc)
    requires !InOrder(s[j - 1], s[j], field, asc)
    ensures SortedExcept(Swap(s, j), j - 1, hi, field, asc)
    ensures FirstOfRest(Swap(s, j), j - 1, hi, field, asc)
  {
    InOrderTotal(s[j - 1], s[j], field, asc);
  }

  /** `s` with the notes at `j - 1` and `j` exchanged. */
  function Swap(s: seq<ReferenceNote>, j: int): (r: seq<ReferenceNote>)
    requires 0 < j < |s|
    ensures |r| == |s| && r[j - 1] == s[j] && r[j] == s[j - 1]
  {
    s[j - 1 := s[j]][j := s[j - 1]]
  }

  /** Exchanging two neighbours keeps the same notes. */
  lemma SwapMultiset(s: seq<ReferenceNote>, j: int)
    requires 0 < j < |s|
    ensures multiset(Swap(s, j)) == multiset(s)
  {
  }

  /** Once the moving note has stopped, the whole prefix up to `hi` is sorted. */
  lemma InsertDone(s: seq<ReferenceNote>, j: int, hi: int, field: SortField, asc: bool)
    requires 0 <= j <= hi < |s|
    requires SortedExcept(s, j, hi, field, asc) && FirstOfRest(s, j, hi, field, asc)
    requires j == 0 || InOrder(s[j - 1], s[j], field, asc)
    ensures SortedBy(s[..hi + 1], field, asc)
  {
    forall k, l | 0 <= k < l <= hi
      ensures InOrder(s[k], s[l], field, asc)
    {
      if l == j && k < j - 1 {
        InOrderTransitive(s[k], s[j - 1], s[j], field, asc);
      }
    }
  }

  // ---------------------------------------------------------------------------
  // Statistics

  /** `notes.reduce((sum, n) => sum + (n.likes || 0), 0)`. */
  function TotalLikes(notes: seq<ReferenceNote>): int {
    if notes == [] then 0 else TotalLikes(notes[..|notes| - 1]) + notes[|notes| - 1].likes.GetOr(0)
  }

  /** `notes.reduce((sum, n) => sum + (n.favorites || 0), 0)`. */
  function TotalFavorites(notes: seq<ReferenceNote>): int {
    if notes == [] then 0 else TotalFavorites(notes[..|notes| - 1]) + notes[|notes| - 1].favorites.GetOr(0)
  }

  /** The totals of two lists joined are the sums of their totals. */
  lemma {:induction false} TotalsAppend(a: seq<ReferenceNote>, b: seq<ReferenceNote>)
    ensures TotalLikes(a + b) == TotalLikes(a) + TotalLikes(b)
    ensures TotalFavorites(a + b) == TotalFavorites(a) + TotalFavorites(b)
    decreases |b|
  {
    if b != [] {
      assert (a + b)[..|a + b| - 1] == a + b[..|b| - 1];
      TotalsAppend(a, b[..|b| - 1]);
    } else {
      assert a + b == a;
    }
  }

  /** With no negative counters the totals never go below zero, and an empty list totals zero. */
  lemma {:induction false} TotalsNonNegative(notes: seq<ReferenceNote>)
    requires forall i :: 0 <= i < |notes| ==> notes[i].likes.GetOr(0) >= 0 && notes[i].favorites.GetOr(0) >= 0
    ensures TotalLikes(notes) >= 0 && TotalFavorites(notes) >= 0
  {
    if notes != [] {
      TotalsNonNegative(notes[..|notes| - 1]);
    }
  }

  /** `new Set(notes.map(n => n.author_id).filter(Boolean))`: the non-empty author ids. */
  function AuthorIds(notes: seq<ReferenceNote>): (r: set<string>)
    ensures |r| <= |notes|
  {
    if notes == [] then {}
    else
      var rest := AuthorIds(notes[1..]);
      var a := notes[0].authorId;
      if a.Some? && a.value != "" then {a.value} + rest else rest
  }

  /** An id is counted exactly when some note carries it and it is not empty. */
  lemma {:induction false} AuthorIdsSpec(notes: seq<ReferenceNote>, id: string)
    ensures id in AuthorIds(notes) <==> id != "" && exists i :: 0 <= i < |notes| && notes[i].authorId == Some(id)
  {
    if notes != [] {
      AuthorIdsSpec(notes[1..], id);
      if exists i :: 0 <= i < |notes| && notes[i].authorId == Some(id) {
        var i :| 0 <= i < |notes| && notes[i].authorId == Some(id);
        if i > 0 {
          assert notes[1..][i - 1] == notes[i];
        }
      }
      if exists i :: 0 <= i < |notes[1..]| && notes[1..][i].authorId == Some(id) {
        var i :| 0 <= i < |notes[1..]| && notes[1..][i].authorId == Some(id);
        assert notes[i + 1].authorId == Some(id);
      }
    }
  }

  datatype Stats = Stats(totalLikes: int, totalFavorites: int, authorCount: nat)

  /** `stats`: the two totals and the number of distinct authors, which is at most the number of notes. */
  function ComputeStats(notes: seq<ReferenceNote>): (r: Stats)
    ensures r.authorCount <= |notes|
    ensures r.totalLikes == TotalLikes(notes) && r.totalFavorites == TotalFavorites(notes)
    ensures r.authorCount == |AuthorIds(notes)|
  {
    Stats(TotalLikes(notes), TotalFavorites(notes), |AuthorIds(notes)|)
  }

  // ---------------------------------------------------------------------------
  // Sort buttons, upload, delete and clear

  datatype SortState = SortState(field: SortField, asc: bool)

  /** Likes, descending. */
  const InitialSort := SortState(Likes, false)

  /** A click on a sort button: the active field flips direction, another field becomes active, descending. */
  function ClickSort(st: SortState, f: SortField): (r: SortState)
    ensures r.field == f
    ensures st.field == f ==> r.asc == !st.asc
    ensures st.field != f ==> r == SortState(f, false)
  {
    if st.field == f then st.(asc := !st.asc) else SortState(f, false)
  }

  /** Two clicks on the same button restore the state, and choosing a new field starts as the initial state does. */
  lemma ClickSortSpec(st: SortState, f: SortField)
    ensures ClickSort(ClickSort(st, f), f) == (if st.field == f then st else SortState(f, true))
    ensures ClickSort(InitialSort, f).asc == (f == Likes)
    ensures st.field != f ==> ClickSort(st, f).asc == InitialSort.asc
  {
  }

  /** `handleUploadComplete` goes on only with a successful, non-empty result. */
  predicate ShouldImport(result: ParseResult) {
    result.success && |result.notes| > 0
  }

  /** A parsed sheet is imported exactly when it succeeded: success already means at least one note. */
  lemma ShouldImportParsed(file: SpreadsheetFile, ids: nat -> string, clock: nat -> string)
    ensures ShouldImport(ParseSpec(file, ids, clock)) <==> ParseSpec(file, ids, clock).success
    ensures ShouldImport(ParseSpec(file, ids, clock)) ==> ParseSpec(file, ids, clock).parsedRows > 0
  {
  }

  /** The list after deleting the note `id`. */
  function RemoveNote(notes: seq<ReferenceNote>, id: string): (r: seq<ReferenceNote>)
    ensures |r| <= |notes|
  {
    Filter(notes, (n: ReferenceNote) => n.id != id)
  }

  /** No note with the id remains; every other note stays, in order. */
  lemma RemoveNoteSpec(notes: seq<ReferenceNote>, id: string)
    ensures forall n :: n in RemoveNote(notes, id) <==> n in notes && n.id != id
    ensures IsSubsequence(RemoveNote(notes, id), notes)
    ensures (forall i :: 0 <= i < |notes| ==> notes[i].id != id) ==> RemoveNote(notes, id) == notes
    ensures forall n: ReferenceNote :: multiset(RemoveNote(notes, id))[n] == if n.id != id then multiset(notes)[n] else 0
    ensures |RemoveNote(notes, id)| + |Filter(notes, (n: ReferenceNote) => n.id == id)| == |notes|
  {
    var p := (n: ReferenceNote) => n.id != id;
    forall n: ReferenceNote ensures multiset(RemoveNote(notes, id))[n] == if n.id != id then multiset(notes)[n] else 0 {
      FilterMultiplicity(notes, p, n);
    }
    FilterSplitLength(notes, p, (n: ReferenceNote) => n.id == id);
    forall n ensures n in RemoveNote(notes, id) <==> n in notes && n.id != id {
      FilterMembership(notes, p, n);
    }
    FilterIsSubsequence(notes, p);
    if forall i :: 0 <= i < |notes| ==> notes[i].id != id {
      FilterKeepsAll(notes, p);
    }
  }

  /** The page's state: the loaded notes, the search box and the sort buttons. */
  class LibraryView {
    var notes: seq<ReferenceNote>
    var searchQuery: string
    var sortField: SortField
    var sortAsc: bool

    /** The initial `useState` values. */
    constructor()
      ensures notes == [] && searchQuery == "" && SortState(sortField, sortAsc) == InitialSort
    {
      notes := [];
      searchQuery := "";
      sortField, sortAsc := Likes, false;
    }

    /** The sort button of field `f`. */
    method ClickSortOption(f: SortField)
      modifies this
      ensures SortState(sortField, sortAsc) == ClickSort(old(SortState(sortField, sortAsc)), f)
      ensures notes == old(notes) && searchQuery == old(searchQuery)
    {
      if sortField == f {
        sortAsc := !sortAsc;
      } else {
        sortField := f;
        sortAsc := false;
      }
    }

    /**
     * `displayedNotes`: the search result, sorted on a copy. The result holds
     * exactly the found notes, ordered by the callback; `notes` keeps its order.
     */
    method DisplayedNotes() returns (shown: seq<ReferenceNote>)
      ensures multiset(shown) == multiset(SearchNotes(notes, searchQuery))
      ensures SortedBy(shown, sortField, sortAsc)
    {
      var filtered := SearchNotes(notes, searchQuery);
      var copy := new ReferenceNote[|filtered|](i requires 0 <= i < |filtered| => filtered[i]);
      assert copy[..] == filtered;
      SortNotes(copy, sortField, sortAsc);
      shown := copy[..];
    }

    /**
     * `handleDelete`: after confirmation and a successful remote delete, the
     * note leaves the list; otherwise the list is unchanged.
     */
    method HandleDelete(id: string, confirmed: bool, deleteOk: bool)
      modifies this
      ensures confirmed && deleteOk ==> notes == RemoveNote(old(notes), id)
      ensures !(confirmed && deleteOk) ==> notes == old(notes)
      ensures searchQuery == old(searchQuery) && sortField == old(sortField) && sortAsc == old(sortAsc)
    {
      if !confirmed {
        return;
      }
      if deleteOk {
        notes := RemoveNote(notes, id);
      }
    }

    /** `handleClearAll`: two confirmations, then an emptied list once the remote clear succeeds. */
    method HandleClearAll(firstConfirm: bool, secondConfirm: bool, clearOk: bool)
      modifies this
      ensures firstConfirm && secondConfirm && clearOk ==> notes == []
      ensures !(firstConfirm && secondConfirm && clearOk) ==> notes == old(notes)
      ensures searchQuery == old(searchQuery) && sortField == old(sortField) && sortAsc == old(sortAsc)
    {
      if !firstConfirm {
        return;
      }
      if !secondConfirm {
        return;
      }
      if clearOk {
        notes := [];
      }
    }
  }
}
