/** Collections whose records are never removed: a delete sets `isDeleted`,
    and reads, updates and deletes only match live records. A collection is
    a sequence whose positions are the record ids in creation order, so
    "newest first" (`sort({ createdAt: -1 })`) is descending id. */
module SoftDelete {

  import opened Wrappers

  datatype Row<T> = Row(data: T, isDeleted: bool)

  predicate IsLive<T>(rows: seq<Row<T>>, id: int) {
    0 <= id < |rows| && !rows[id].isDeleted
  }

  /** `findOne({ _id: id, isDeleted: false })`. */
  function FindLive<T>(rows: seq<Row<T>>, id: int): (r: Option<T>)
    ensures r.Some? <==> IsLive(rows, id)
    ensures r.Some? ==> r.value == rows[id].data
  {
    if IsLive(rows, id) then Some(rows[id].data) else None
  }

  /** `findOneAndUpdate({ _id: id, isDeleted: false }, update, { new: true })`
      with the update given as a function of the matched record: only a live
      record changes, and the updated record is returned; otherwise `null`. */
  function UpdateLive<T>(rows: seq<Row<T>>, id: int, update: T -> T): (r: (seq<Row<T>>, Option<T>))
    ensures |r.0| == |rows|
    ensures r.1.Some? <==> IsLive(rows, id)
    ensures r.1.Some? ==> r.0[id] == Row(update(rows[id].data), false) && r.1.value == r.0[id].data
    ensures forall k :: 0 <= k < |rows| && k != id ==> r.0[k] == rows[k]
    ensures r.1.None? ==> r.0 == rows
  {
    UpdateLiveSetting(rows, id, update, None)
  }

  /** The same, for an update that may also carry `isDeleted`: the matched
      record takes the given flag, and stays live when none is given. */
  function UpdateLiveSetting<T>(rows: seq<Row<T>>, id: int, update: T -> T, isDeleted: Option<bool>)
    : (r: (seq<Row<T>>, Option<T>))
    ensures |r.0| == |rows|
    ensures r.1.Some? <==> IsLive(rows, id)
    ensures r.1.Some? ==> r.0[id] == Row(update(rows[id].data), isDeleted.GetOr(false)) && r.1.value == r.0[id].data
    ensures forall k :: 0 <= k < |rows| && k != id ==> r.0[k] == rows[k]
    ensures r.1.None? ==> r.0 == rows
  {
    if IsLive(rows, id) then
      var updated := update(rows[id].data);
      (rows[id := Row(updated, isDeleted.GetOr(false))], Some(updated))
    else (rows, None)
  }

  /** `findOneAndUpdate({ _id: id, isDeleted: false }, { isDeleted: true }, { new: true })`. */
  function MarkDeleted<T>(rows: seq<Row<T>>, id: int): (r: (seq<Row<T>>, Option<T>))
    ensures |r.0| == |rows|
    ensures r.1.Some? <==> IsLive(rows, id)
    ensures r.1.Some? ==> r.1.value == rows[id].data
    ensures forall k :: 0 <= k < |rows| ==> r.0[k].data == rows[k].data
    ensures forall k :: 0 <= k < |rows| && k != id ==> r.0[k] == rows[k]
    ensures 0 <= id < |rows| ==> r.0[id].isDeleted
  {
    if IsLive(rows, id) then (rows[id := Row(rows[id].data, true)], Some(rows[id].data))
    else (rows, None)
  }

  /** A deleted record is no longer found. */
  lemma DeletedIsNotFound<T>(rows: seq<Row<T>>, id: int)
    ensures FindLive(MarkDeleted(rows, id).0, id).None?
  {
  }

  /** Deleting twice: the second delete returns `null` and changes nothing. */
  lemma DeleteTwice<T>(rows: seq<Row<T>>, id: int)
    ensures var once := MarkDeleted(rows, id).0;
      MarkDeleted(once, id) == (once, None)
  {
  }

  /** A deleted record cannot be updated. */
  lemma DeletedIsNotUpdated<T>(rows: seq<Row<T>>, id: int, update: T -> T)
    ensures var once := MarkDeleted(rows, id).0;
      UpdateLive(once, id, update) == (once, None)
  {
  }

  /** Ids of the live records the filter matches, newest first. */
  function LiveIds<T>(rows: seq<Row<T>>, matches: T -> bool): (ids: seq<nat>)
    ensures forall k :: 0 <= k < |ids| ==> IsLive(rows, ids[k]) && matches(rows[ids[k]].data)
    ensures forall j :: IsLive(rows, j) && matches(rows[j].data) ==> j in ids
    ensures forall k, l :: 0 <= k < l < |ids| ==> ids[k] > ids[l]
    decreases |rows|
  {
    if rows == [] then []
    else
      var n := |rows| - 1;
      var rest := LiveIds(rows[..n], matches);
      assert forall j :: IsLive(rows[..n], j) <==> j < n && IsLive(rows, j);
      if !rows[n].isDeleted && matches(rows[n].data) then [n] + rest else rest
  }

  function Abs(x: int): nat {
    if x < 0 then -x else x
  }

  /** `.skip(skip).limit(limit)` on a cursor: a limit of zero means no limit,
      and a negative limit is read as its absolute value. */
  function Window<T>(s: seq<T>, skip: nat, limit: int): (w: seq<T>)
    ensures skip >= |s| ==> w == []
    ensures skip < |s| ==> skip + |w| <= |s| && w == s[skip..skip + |w|]
    ensures limit != 0 ==> |w| <= Abs(limit)
    ensures skip < |s| && (limit == 0 || |w| < Abs(limit)) ==> skip + |w| == |s|
  {
    var start := if skip < |s| then skip else |s|;
    var n := if limit == 0 || |s| - start <= Abs(limit) then |s| - start else Abs(limit);
    s[start..start + n]
  }

  /** Stated once so that the paging proofs need no nonlinear search. */
  lemma ProductNonNegative(a: nat, b: nat)
    ensures a * b >= 0
  {
  }

  /** Pages of a positive size tile the listing: item `i` is item `i % size`
      of page `i / size + 1`. */
  lemma PageOfIndex<T>(s: seq<T>, i: nat, size: nat)
    requires i < |s| && size > 0
    ensures var w := Window(s, (i / size) * size, size);
      i % size < |w| && w[i % size] == s[i]
  {
    ProductNonNegative(i / size, size);
    var start: nat := (i / size) * size;
    assert start + i % size == i && 0 <= i % size < size;
    WindowItem(s, start, size, i % size);
  }

  /** Item `j` of a window that reaches it. */
  lemma WindowItem<T>(s: seq<T>, skip: nat, limit: nat, j: nat)
    requires j < limit && skip + j < |s|
    ensures j < |Window(s, skip, limit)| && Window(s, skip, limit)[j] == s[skip + j]
  {
  }

  /** The `search` option of the listings: no filter when it is empty;
      otherwise `matches` stands for the case-insensitive regular expression,
      which is not modelled. */
  function SearchFilter<T>(search: string, matches: T -> bool): T -> bool {
    if search == [] then (x: T) => true else matches
  }

  /** A listing answer: the page of `(id, record)` pairs, the number of all
      matching live records, and the requested page and limit. */
  datatype Page<T> = Page(data: seq<(nat, T)>, total: nat, page: int, limit: int)

  /** The paged, newest-first listing of live matching records that
      `getStudents`, `getSubjects` and `getFees` answer with: `page`
      defaults to 1 and `limit` to 10, the cursor skips `(page - 1) * limit`
      records, and the server refuses a negative skip. */
  function ListLive<T>(rows: seq<Row<T>>, matches: T -> bool, page: Option<int>, limit: Option<int>)
    : (r: Result<Page<T>, string>)
    ensures var p, l := page.GetOr(1), limit.GetOr(10);
      && (r.Err? <==> (p - 1) * l < 0)
      && (r.Ok? ==> r.value.total == |LiveIds(rows, matches)| && r.value.page == p && r.value.limit == l)
      && (r.Ok? && l != 0 ==> |r.value.data| <= Abs(l))
    ensures r.Ok? ==> forall k :: 0 <= k < |r.value.data| ==>
      var (id, record) := r.value.data[k];
      IsLive(rows, id) && matches(record) && record == rows[id].data
    ensures r.Ok? ==> forall k, l :: 0 <= k < l < |r.value.data| ==> r.value.data[k].0 > r.value.data[l].0
    ensures var p, l := page.GetOr(1), limit.GetOr(10);
      r.Ok? ==> (p - 1) * l >= 0 && r.value.data == WithRecords(rows, PageIds(rows, matches, (p - 1) * l, l))
  {
    var p, l := page.GetOr(1), limit.GetOr(10);
    var skip := (p - 1) * l;
    if skip < 0 then Err("BadValue: skip must be non-negative")
    else
      Ok(PageAt(rows, matches, skip, p, l))
  }

  /** The answer for a non-negative skip. */
  function PageAt<T>(rows: seq<Row<T>>, matches: T -> bool, skip: nat, page: int, limit: int): Page<T> {
    Page(WithRecords(rows, PageIds(rows, matches, skip, limit)), |LiveIds(rows, matches)|, page, limit)
  }

  /** The ids on one page: the window of the live matching ids. */
  function PageIds<T>(rows: seq<Row<T>>, matches: T -> bool, skip: nat, limit: int): (ids: seq<nat>)
    ensures ids == Window(LiveIds(rows, matches), skip, limit)
    ensures forall k :: 0 <= k < |ids| ==> IsLive(rows, ids[k]) && matches(rows[ids[k]].data)
    ensures forall k, l :: 0 <= k < l < |ids| ==> ids[k] > ids[l]
  {
    var all := LiveIds(rows, matches);
    var ids := Window(all, skip, limit);
    assert forall k :: 0 <= k < |ids| ==> ids[k] == all[skip + k];
    ids
  }

  /** Each id paired with its record. */
  function WithRecords<T>(rows: seq<Row<T>>, ids: seq<nat>): (r: seq<(nat, T)>)
    requires forall k :: 0 <= k < |ids| ==> ids[k] < |rows|
    ensures |r| == |ids|
    ensures forall k :: 0 <= k < |ids| ==> r[k] == (ids[k], rows[ids[k]].data)
  {
    seq(|ids|, k requires 0 <= k < |ids| => (ids[k], rows[ids[k]].data))
  }

  /** A page from 1 on is answered, with its skip. */
  lemma ListLiveAt<T>(rows: seq<Row<T>>, matches: T -> bool, page: nat, limit: nat)
    requires page >= 1
    ensures (page - 1) * limit >= 0
    ensures ListLive(rows, matches, Some(page), Some(limit)) == Ok(PageAt(rows, matches, (page - 1) * limit, page, limit))
  {
    ProductNonNegative(page - 1, limit);
  }

  /** Item `j` of the page that skips `skip` records. */
  lemma PageAtItem<T>(rows: seq<Row<T>>, matches: T -> bool, skip: nat, page: int, limit: nat, j: nat)
    requires j < limit && skip + j < |LiveIds(rows, matches)|
    ensures var id := LiveIds(rows, matches)[skip + j];
      var data := PageAt(rows, matches, skip, page, limit).data;
      j < |data| && data[j] == (id, rows[id].data)
  {
    var ids := PageIds(rows, matches, skip, limit);
    assert j < |ids| && ids[j] == LiveIds(rows, matches)[skip + j];
  }

  /** Pages tile the listing: the record at position `(page - 1) * limit + j`
      of the newest-first live matches is item `j` of page `page`. With
      `LiveIds` listing every live match, each one is on some page. */
  lemma ListedOnItsPage<T>(rows: seq<Row<T>>, matches: T -> bool, page: nat, limit: nat, j: nat)
    requires page >= 1 && j < limit && (page - 1) * limit + j < |LiveIds(rows, matches)|
    ensures var id := LiveIds(rows, matches)[(page - 1) * limit + j];
      var r := ListLive(rows, matches, Some(page), Some(limit));
      r.Ok? && j < |r.value.data| && r.value.data[j] == (id, rows[id].data)
  {
    ListLiveAt(rows, matches, page, limit);
    PageAtItem(rows, matches, (page - 1) * limit, page, limit, j);
  }

  /** The first page lists the newest matching live record first. */
  lemma FirstPageStartsWithNewest<T>(rows: seq<Row<T>>, matches: T -> bool, limit: int, id: nat)
    requires limit > 0 && IsLive(rows, id) && matches(rows[id].data)
    requires forall j :: id < j < |rows| ==> !(IsLive(rows, j) && matches(rows[j].data))
    ensures var r := ListLive(rows, matches, Some(1), Some(limit));
      r.Ok? && |r.value.data| > 0 && r.value.data[0] == (id, rows[id].data)
  {
    var all := LiveIds(rows, matches);
    assert id in all;
  }
}
