/**
 * `AIAssistant._format_reports` of `utils/ai_assistant.py`: order the daily reports
 * by their Date header, number and label them, and join the sections into the one
 * text handed to the language model; fall back to `str(daily_reports)` when the
 * ordering step raises.
 */
module Digest {
  import opened Wrappers
  import opened Text
  import opened Fetcher

  /**
   * A `datetime`: naive (no UTC offset; `datetime.now()`, or a Date header whose zone is
   * -0000, missing or unrecognised) or aware. `instant` orders values of one kind; Python raises TypeError on `<`
   * between a naive and an aware value.
   */
  datatype Timestamp = Naive(instant: int) | Aware(instant: int)

  /**
   * Library routines, None where they raise: `email.utils.parsedate_to_datetime`,
   * `strftime("%Y-%m-%d %A")`, and `str(list)` for the raw dump.
   */
  datatype DateLib = DateLib(
    parse: string -> Option<Timestamp>,
    render: Timestamp -> Option<string>,
    dump: seq<Report> -> string)

  const UnknownDate := "未知日期"
  const Separator := "\n\n"

  /** The sort key: the parsed Date header, or "now" when the header is empty or absent. */
  function SortKey(r: Report, now: int, lib: DateLib): Option<Timestamp> {
    if Truthy(r.date) then lib.parse(r.date.value) else Some(Naive(now))
  }

  predicate KeysParse(reports: seq<Report>, now: int, lib: DateLib) {
    forall i :: 0 <= i < |reports| ==> SortKey(reports[i], now, lib).Some?
  }

  function Keys(reports: seq<Report>, now: int, lib: DateLib): (keys: seq<Timestamp>)
    requires KeysParse(reports, now, lib)
    ensures |keys| == |reports|
    ensures forall i :: 0 <= i < |reports| ==> Some(keys[i]) == SortKey(reports[i], now, lib)
  {
    seq(|reports|, i requires 0 <= i < |reports| => SortKey(reports[i], now, lib).value)
  }

  /** All keys naive or all aware: only then can every pair be compared. */
  predicate OneKind(keys: seq<Timestamp>) {
    forall i, j :: 0 <= i < |keys| && 0 <= j < |keys| ==> keys[i].Naive? == keys[j].Naive?
  }

  /**
   * `sorted(..., key=...)` returns without raising exactly when every key is computed
   * and all keys are of one kind. (A comparison sort compares every two elements that
   * end up adjacent, so with both kinds present it compares a naive with an aware key.)
   */
  predicate SortSucceeds(reports: seq<Report>, now: int, lib: DateLib) {
    KeysParse(reports, now, lib) && OneKind(Keys(reports, now, lib))
  }

  // ---- the stable sort ----

  /** A report with its key and its position in the input. */
  datatype Item = Item(key: int, index: nat, report: Report)

  /** Sort order of `sorted`: by key, and by input position among equal keys (stability). */
  predicate Before(a: Item, b: Item) {
    a.key < b.key || (a.key == b.key && a.index < b.index)
  }

  predicate StrictlySorted(s: seq<Item>) {
    forall i, j :: 0 <= i < j < |s| ==> Before(s[i], s[j])
  }

  predicate IndexFree(s: seq<Item>, n: nat) {
    forall k :: 0 <= k < |s| ==> s[k].index != n
  }

  predicate DistinctIndices(s: seq<Item>) {
    forall i, j :: 0 <= i < j < |s| ==> s[i].index != s[j].index
  }

  function Insert(x: Item, s: seq<Item>): (r: seq<Item>)
    requires StrictlySorted(s) && IndexFree(s, x.index)
    ensures |r| == |s| + 1
    ensures StrictlySorted(r)
    ensures multiset(r) == multiset(s) + multiset{x}
    ensures forall e :: e in r <==> e == x || e in s
    decreases |s|
  {
    if s == [] then [x]
    else if Before(x, s[0]) then [x] + s
    else
      var t := Insert(x, s[1..]);
      assert s == [s[0]] + s[1..];
      HeadBeforeRest(x, s, t);
      [s[0]] + t
  }

  /** The head of a sorted run precedes both the rest of the run and a later-placed item. */
  lemma HeadBeforeRest(x: Item, s: seq<Item>, t: seq<Item>)
    requires |s| > 0 && StrictlySorted(s) && !Before(x, s[0]) && x.index != s[0].index
    requires forall e :: e in t <==> e == x || e in s[1..]
    ensures forall e :: e in t ==> Before(s[0], e)
  {
    forall e | e in t ensures Before(s[0], e) {
      if e != x {
        var j :| 0 <= j < |s[1..]| && s[1..][j] == e;
        assert s[1 + j] == e;
      }
    }
  }

  function Sort(s: seq<Item>): (r: seq<Item>)
    requires DistinctIndices(s)
    ensures |r| == |s|
    ensures StrictlySorted(r)
    ensures multiset(r) == multiset(s)
    decreases |s|
  {
    if s == [] then []
    else
      var t := Sort(s[1..]);
      TailIndexFree(s, t);
      assert s == [s[0]] + s[1..];
      Insert(s[0], t)
  }

  /** A rearrangement of the tail shares no index with the head. */
  lemma TailIndexFree(s: seq<Item>, t: seq<Item>)
    requires |s| > 0 && DistinctIndices(s) && multiset(t) == multiset(s[1..])
    ensures IndexFree(t, s[0].index)
  {
    forall k | 0 <= k < |t| ensures t[k].index != s[0].index {
      assert t[k] in multiset(s[1..]);
      var m :| 0 <= m < |s[1..]| && s[1..][m] == t[k];
      assert s[1 + m] == t[k];
    }
  }

  function Decorate(reports: seq<Report>, keys: seq<Timestamp>): (items: seq<Item>)
    requires |keys| == |reports|
    ensures |items| == |reports| && DistinctIndices(items)
    ensures forall i :: 0 <= i < |items| ==> items[i] == Item(keys[i].instant, i, reports[i])
  {
    seq(|reports|, i requires 0 <= i < |reports| => Item(keys[i].instant, i, reports[i]))
  }

  /** The stably sorted items of a successful sort. */
  function SortedItems(reports: seq<Report>, now: int, lib: DateLib): seq<Item>
    requires SortSucceeds(reports, now, lib)
  {
    Sort(Decorate(reports, Keys(reports, now, lib)))
  }

  function SortedReports(reports: seq<Report>, now: int, lib: DateLib): (sorted: seq<Report>)
    requires SortSucceeds(reports, now, lib)
    ensures |sorted| == |reports|
    ensures forall p :: 0 <= p < |sorted| ==> sorted[p] == SortedItems(reports, now, lib)[p].report
  {
    var items := SortedItems(reports, now, lib);
    seq(|items|, i requires 0 <= i < |items| => items[i].report)
  }

  /**
   * The sort is a stable permutation: position p of the output holds input report
   * `index` with its key, no input position is used twice, keys never decrease and
   * equal keys keep their input order.
   */
  lemma {:induction false} SortIsStablePermutation(reports: seq<Report>, now: int, lib: DateLib)
    requires SortSucceeds(reports, now, lib)
    ensures var out := SortedItems(reports, now, lib);
      var keys := Keys(reports, now, lib);
      && |out| == |reports|
      && (forall p :: 0 <= p < |out| ==>
            out[p].index < |reports| && out[p].report == reports[out[p].index] &&
            out[p].key == keys[out[p].index].instant)
      && (forall p, q :: 0 <= p < q < |out| ==> out[p].index != out[q].index)
      && (forall p, q :: 0 <= p < q < |out| ==> out[p].key <= out[q].key)
      && (forall p, q :: 0 <= p < q < |out| && out[p].key == out[q].key ==> out[p].index < out[q].index)
  {
    var keys := Keys(reports, now, lib);
    var items := Decorate(reports, keys);
    var out := Sort(items);
    forall p | 0 <= p < |out|
      ensures out[p].index < |reports| && out[p] == items[out[p].index]
    {
      assert out[p] in multiset(items);
      var i :| 0 <= i < |items| && items[i] == out[p];
    }
  }

  // ---- sections ----

  /** The date label of a report; None when parsing or formatting its date raises. */
  function Label(r: Report, lib: DateLib): Option<string> {
    if Truthy(r.date) then
      match lib.parse(r.date.value)
      case None => None
      case Some(t) => lib.render(t)
    else
      Some(UnknownDate)
  }

  /** The n-th section: header with the label (or without it when labelling failed), then the body. */
  function Section(n: nat, r: Report, lib: DateLib): string {
    match Label(r, lib)
    case Some(dateStr) => "===== 日报 " + Decimal(n) + ": " + dateStr + " =====\n" + r.body + "\n"
    case None => "===== 日报 " + Decimal(n) + " =====\n" + r.body + "\n"
  }

  function Sections(sorted: seq<Report>, lib: DateLib): (secs: seq<string>)
    ensures |secs| == |sorted|
    ensures forall i :: 0 <= i < |sorted| ==> secs[i] == Section(i + 1, sorted[i], lib)
  {
    seq(|sorted|, i requires 0 <= i < |sorted| => Section(i + 1, sorted[i], lib))
  }

  /** What `_format_reports` returns. */
  function FormattedDigest(reports: seq<Report>, now: int, lib: DateLib): string {
    if SortSucceeds(reports, now, lib) then
      Join(Sections(SortedReports(reports, now, lib), lib), Separator)
    else
      lib.dump(reports)
  }

  /**
   * Every section opens with its number and ends with the report's body; an undated
   * report is labelled "未知日期", and one whose label fails keeps its body without a date.
   */
  lemma SectionShape(n: nat, r: Report, lib: DateLib)
    ensures var s := Section(n, r, lib);
      var head := "===== 日报 " + Decimal(n);
      && head <= s
      && |r.body + "\n"| <= |s| && s[|s| - |r.body + "\n"|..] == r.body + "\n"
      && (!Truthy(r.date) ==> s == head + ": " + UnknownDate + " =====\n" + r.body + "\n")
      && (Label(r, lib).None? ==> s == head + " =====\n" + r.body + "\n")
  {
    var head := "===== 日报 " + Decimal(n);
    var mid := if Label(r, lib).Some? then ": " + Label(r, lib).value + " =====\n" else " =====\n";
    assert Section(n, r, lib) == head + mid + (r.body + "\n");
    Framed(Section(n, r, lib), head, mid, r.body + "\n");
  }

  /** A concatenation begins with its first piece and ends with its last. */
  lemma Framed(s: string, head: string, mid: string, tail: string)
    requires s == head + mid + tail
    ensures head <= s && |tail| <= |s| && s[|s| - |tail|..] == tail
  {
    assert s == head + (mid + tail);
    assert s == (head + mid) + tail;
  }

  /** One pass of the `enumerate` loop: the numbered header with its date label, then the body. */
  method FormatEntry(n: nat, r: Report, lib: DateLib) returns (section: string)
    ensures section == Section(n, r, lib)
  {
    var dateStr: Option<string>;
    if Truthy(r.date) {
      var parsed := lib.parse(r.date.value);
      dateStr := if parsed.Some? then lib.render(parsed.value) else None;
    } else {
      dateStr := Some(UnknownDate);
    }
    if dateStr.Some? {
      section := "===== 日报 " + Decimal(n) + ": " + dateStr.value + " =====\n" + r.body + "\n";
    } else {
      // labelling this entry raised: its header goes without the date
      section := "===== 日报 " + Decimal(n) + " =====\n" + r.body + "\n";
    }
  }

  /** `_format_reports`: sort, then number and label each report in an enumerate loop. */
  method FormatReports(reports: seq<Report>, now: int, lib: DateLib) returns (digest: string)
    ensures digest == FormattedDigest(reports, now, lib)
  {
    if !SortSucceeds(reports, now, lib) {
      // the sort raised: the outer handler returns the raw dump of the input
      return lib.dump(reports);
    }
    var sorted := SortedReports(reports, now, lib);
    var formatted: seq<string> := [];
    var i := 0;
    while i < |sorted|
      invariant 0 <= i <= |sorted|
      invariant |formatted| == i
      invariant forall k :: 0 <= k < i ==> formatted[k] == Section(k + 1, sorted[k], lib)
    {
      var section := FormatEntry(i + 1, sorted[i], lib);
      formatted := formatted + [section];
      i := i + 1;
    }
    assert formatted == Sections(sorted, lib);
    digest := Join(formatted, Separator);
  }

  // ---- properties of the digest ----

  /**
   * A successful digest holds one section per report, in sorted order: section k
   * (numbered k + 1) starts at Offset(k), and consecutive sections are separated by a
   * blank line.
   */
  lemma DigestLayout(reports: seq<Report>, now: int, lib: DateLib, k: nat)
    requires SortSucceeds(reports, now, lib) && k < |reports|
    ensures var sorted := SortedReports(reports, now, lib);
      var secs := Sections(sorted, lib);
      && |secs| == |reports|
      && secs[k] == Section(k + 1, sorted[k], lib)
      && LaidOut(FormattedDigest(reports, now, lib), secs, Separator, k)
  {
    var secs := Sections(SortedReports(reports, now, lib), lib);
    assert FormattedDigest(reports, now, lib) == Join(secs, Separator);
    JoinLaidOut(secs, Separator, k);
  }

  /** When the sort raises, the digest is the dump of the unsorted input. */
  lemma FallbackWhenSortRaises(reports: seq<Report>, now: int, lib: DateLib)
    requires !SortSucceeds(reports, now, lib)
    ensures FormattedDigest(reports, now, lib) == lib.dump(reports)
  {
  }

  /** An unparseable Date header makes the key computation raise. */
  lemma UnparseableDateFallsBack(reports: seq<Report>, now: int, lib: DateLib, i: nat)
    requires i < |reports| && Truthy(reports[i].date) && lib.parse(reports[i].date.value).None?
    ensures FormattedDigest(reports, now, lib) == lib.dump(reports)
  {
  }

  /**
   * A report without a date (key: naive "now") beside a report whose date parses to an
   * aware datetime makes the comparison raise, so the whole digest is the raw dump.
   */
  lemma UndatedBesideAwareFallsBack(reports: seq<Report>, now: int, lib: DateLib, i: nat, j: nat)
    requires i < |reports| && j < |reports|
    requires !Truthy(reports[i].date)
    requires Truthy(reports[j].date) && lib.parse(reports[j].date.value).Some?
    requires lib.parse(reports[j].date.value).value.Aware?
    ensures FormattedDigest(reports, now, lib) == lib.dump(reports)
  {
    if KeysParse(reports, now, lib) {
      var keys := Keys(reports, now, lib);
      assert keys[i].Naive? && keys[j].Aware?;
    }
  }

  /** When every report is undated, the order is the input order and every label is the unknown-date marker. */
  lemma AllUndatedKeepOrder(reports: seq<Report>, now: int, lib: DateLib)
    requires forall i :: 0 <= i < |reports| ==> !Truthy(reports[i].date)
    ensures SortSucceeds(reports, now, lib)
    ensures SortedReports(reports, now, lib) == reports
    ensures forall k :: 0 <= k < |reports| ==>
      Sections(SortedReports(reports, now, lib), lib)[k] ==
        "===== 日报 " + Decimal(k + 1) + ": " + UnknownDate + " =====\n" + reports[k].body + "\n"
  {
    var keys := Keys(reports, now, lib);
    assert OneKind(keys);
    SortIsStablePermutation(reports, now, lib);
    var out := SortedItems(reports, now, lib);
    forall p | 0 <= p < |out| ensures out[p].index == p {
      IdentityPermutation(out, p);
    }
  }

  /** A sequence of distinct positions below n, in increasing order, is 0, 1, ..., n-1. */
  lemma IdentityPermutation(out: seq<Item>, p: nat)
    requires p < |out|
    requires forall q :: 0 <= q < |out| ==> out[q].index < |out|
    requires forall q, r :: 0 <= q < r < |out| ==> out[q].index < out[r].index
    ensures out[p].index == p
  {
    IndexLowerBound(out, p);
    IndexUpperBound(out, p);
  }

  lemma {:induction false} IndexLowerBound(out: seq<Item>, p: nat)
    requires p < |out|
    requires forall q, r :: 0 <= q < r < |out| ==> out[q].index < out[r].index
    ensures out[p].index >= p
    decreases p
  {
    if p > 0 {
      IndexLowerBound(out, p - 1);
    }
  }

  lemma {:induction false} IndexUpperBound(out: seq<Item>, p: nat)
    requires p < |out|
    requires forall q :: 0 <= q < |out| ==> out[q].index < |out|
    requires forall q, r :: 0 <= q < r < |out| ==> out[q].index < out[r].index
    ensures out[p].index <= p
    decreases |out| - p
  {
    if p < |out| - 1 {
      IndexUpperBound(out, p + 1);
    }
  }
}
