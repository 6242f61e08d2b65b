// The arithmetic behind the admin dashboard of admin/routes.py: the activity page count and
// the window of page links, the chart of the last seven days and the requests-per-hour
// histogram, all computed from what get_stats returns.
module Dashboard {
  import opened Wrappers
  import opened Text
  import opened Clock
  import opened Database

  const PerPage := 10

  function Min(a: int, b: int): int { if a < b then a else b }
  function Max(a: int, b: int): int { if a < b then b else a }

  // ---------------------------------------------------------------------------
  // Pagination

  /** `(total + 10 - 1) // 10`: the fewest pages of ten that hold every activity. */
  function PageCount(total: nat): (pages: nat)
    ensures total <= pages * PerPage
    ensures pages == 0 || (pages - 1) * PerPage < total
    ensures pages == 0 <==> total == 0
  {
    (total + PerPage - 1) / PerPage
  }

  /** list(range(lo, hi)). */
  function Range(lo: int, hi: int): (r: seq<int>)
    ensures |r| == if lo < hi then hi - lo else 0
    ensures forall i :: 0 <= i < |r| ==> r[i] == lo + i
    decreases hi - lo
  {
    if lo >= hi then [] else [lo] + Range(lo + 1, hi)
  }

  /**
   * The page links: from two before the current page to two after it, cut to the pages that
   * exist. `page` is whatever integer the query string held.
   */
  function PageRange(page: int, pages: int): (r: seq<int>)
    ensures forall x :: x in r <==> Max(1, page - 2) <= x && x <= Min(pages, page + 2)
    ensures forall i :: 0 <= i < |r| ==> 1 <= r[i] <= pages
    ensures forall i, j :: 0 <= i < j < |r| ==> r[i] < r[j]
    ensures |r| <= 5
    ensures 1 <= page <= pages ==> page in r && |r| >= Min(3, pages)
  {
    var r := Range(Max(1, page - 2), Min(pages, page + 2) + 1);
    assert forall x :: x in r <==> Max(1, page - 2) <= x <= Min(pages, page + 2) by {
      forall x ensures x in r <==> Max(1, page - 2) <= x <= Min(pages, page + 2) {
        if Max(1, page - 2) <= x <= Min(pages, page + 2) {
          assert r[x - Max(1, page - 2)] == x;
        }
      }
    }
    r
  }

  // ---------------------------------------------------------------------------
  // Daily chart: sorted(daily_stats.items())[-7:]

  /** Strictly increasing in Python's string order. */
  predicate Ascending(s: seq<string>) {
    forall i, j :: 0 <= i < j < |s| ==> LexLess(s[i], s[j])
  }

  /** x placed into an increasing sequence. */
  function Insert(s: seq<string>, x: string): (r: seq<string>)
    ensures |r| == |s| + 1
    ensures forall y :: y in r <==> y == x || y in s
  {
    if s == [] || LexLess(x, s[0]) then [x] + s
    else [s[0]] + Insert(s[1..], x)
  }

  lemma {:induction false} InsertAscending(s: seq<string>, x: string)
    requires Ascending(s) && x !in s
    ensures Ascending(Insert(s, x))
  {
    if s == [] {
    } else if LexLess(x, s[0]) {
      forall j | 0 < j < |s|
        ensures LexLess(x, s[j])
      {
        LexTransitive(x, s[0], s[j]);
      }
    } else {
      assert x != s[0];
      LexTotal(x, s[0]);
      InsertAscending(s[1..], x);
      InsertAbove(s, x);
    }
  }

  /** The head of s stays below what inserting x into the rest of s gives. */
  lemma InsertAbove(s: seq<string>, x: string)
    requires Ascending(s) && s != [] && LexLess(s[0], x)
    requires Ascending(Insert(s[1..], x))
    ensures Ascending([s[0]] + Insert(s[1..], x))
  {
    var t := Insert(s[1..], x);
    forall j | 0 <= j < |t|
      ensures LexLess(s[0], t[j])
    {
      if t[j] != x {
        assert t[j] in s[1..];
        var k :| 0 <= k < |s[1..]| && s[1..][k] == t[j];
        assert s[k + 1] == t[j];
      }
    }
  }

  /** sorted(daily_stats): the day keys in increasing order. */
  method SortedDays(daily: map<string, Counts>) returns (days: seq<string>)
    ensures Ascending(days)
    ensures forall d :: d in days <==> d in daily
    ensures |days| == |daily|
  {
    days := [];
    var remaining := daily.Keys;
    while remaining != {}
      invariant remaining <= daily.Keys
      invariant Ascending(days)
      invariant forall d :: d in days <==> d in daily && d !in remaining
      invariant |days| + |remaining| == |daily.Keys|
      decreases |remaining|
    {
      var d :| d in remaining;
      InsertAscending(days, d);
      days := Insert(days, d);
      remaining := remaining - {d};
    }
  }

  /**
   * The daily chart: the seven latest days with their request totals, oldest first. Every day
   * left out sorts before every day shown.
   */
  method DailyChart(daily: map<string, Counts>) returns (labels: seq<string>, data: seq<int>)
    ensures |labels| == |data| == Min(7, |daily|)
    ensures Ascending(labels)
    ensures forall i :: 0 <= i < |labels| ==> labels[i] in daily && data[i] == daily[labels[i]].total()
    ensures forall d, i :: d in daily && d !in labels && 0 <= i < |labels| ==> LexLess(d, labels[i])
  {
    var days := SortedDays(daily);
    var start := if |days| > 7 then |days| - 7 else 0;
    labels, data := ChartWindow(daily, days, start);
    forall d, j | d in daily && d !in labels && 0 <= j < |labels|
      ensures LexLess(d, labels[j])
    {
      LeftOutBelow(days, start, d, j);
    }
  }

  /** The chart's loop over `sorted_days[start:]`: each day with its request total. */
  method ChartWindow(daily: map<string, Counts>, days: seq<string>, start: nat) returns (labels: seq<string>, data: seq<int>)
    requires start <= |days| && forall i :: 0 <= i < |days| ==> days[i] in daily
    ensures labels == days[start..] && |data| == |labels|
    ensures forall i :: 0 <= i < |labels| ==> data[i] == daily[labels[i]].total()
  {
    labels, data := [], [];
    var i := start;
    while i < |days|
      invariant start <= i <= |days|
      invariant labels == days[start..i]
      invariant |data| == |labels|
      invariant forall j :: 0 <= j < |data| ==> data[j] == daily[labels[j]].total()
    {
      labels := labels + [days[i]];
      data := data + [daily[days[i]].total()];
      i := i + 1;
    }
  }

  /** In an increasing sequence, whatever lies outside a suffix is below all of it. */
  lemma LeftOutBelow(days: seq<string>, start: nat, d: string, j: nat)
    requires Ascending(days) && start <= |days|
    requires d in days && d !in days[start..] && j < |days| - start
    ensures LexLess(d, days[start..][j])
  {
    var k :| 0 <= k < |days| && days[k] == d;
    assert forall m :: start <= m < |days| ==> days[start..][m - start] == days[m];
  }

  // ---------------------------------------------------------------------------
  // Hourly histogram

  /** Where c first occurs in s at or after position i. */
  function IndexFrom(s: string, c: char, i: nat): (r: Option<nat>)
    requires i <= |s|
    ensures r.Some? ==> i <= r.value < |s| && s[r.value] == c
    ensures forall j :: i <= j < (if r.Some? then r.value else |s|) ==> s[j] != c
    decreases |s| - i
  {
    if i == |s| then None
    else if s[i] == c then Some(i)
    else IndexFrom(s, c, i + 1)
  }

  /** `s.split(' ')[1]` when `' ' in s`: the text between the first blank and the next one. */
  function SecondPart(s: string): Option<string> {
    match IndexFrom(s, ' ', 0)
    case None => None
    case Some(i) =>
      match IndexFrom(s, ' ', i + 1)
      case None => Some(s[i + 1..])
      case Some(j) => Some(s[i + 1..j])
  }

  /** The first position at or after i that does not hold whitespace. */
  function SkipBlanks(s: string, i: nat): (r: nat)
    requires i <= |s|
    ensures i <= r <= |s|
    ensures forall j :: i <= j < r ==> IsSpace(s[j])
    ensures r < |s| ==> !IsSpace(s[r])
    decreases |s| - i
  {
    if i < |s| && IsSpace(s[i]) then SkipBlanks(s, i + 1) else i
  }

  /** Where s[lo..hi] ends once its trailing whitespace is dropped. */
  function TrimmedEnd(s: string, lo: nat, hi: nat): (r: nat)
    requires lo <= hi <= |s|
    ensures lo <= r <= hi
    ensures forall j :: r <= j < hi ==> IsSpace(s[j])
    ensures lo < r ==> !IsSpace(s[r - 1])
    decreases hi - lo
  {
    if lo < hi && IsSpace(s[hi - 1]) then TrimmedEnd(s, lo, hi - 1) else hi
  }

  /**
   * int(s) for the decimal text int() accepts: surrounding whitespace, an optional sign, then
   * ASCII digits.
   */
  function PyInt(s: string): Option<int> {
    var lo := SkipBlanks(s, 0);
    var hi := TrimmedEnd(s, lo, |s|);
    var signed := lo < hi && (s[lo] == '-' || s[lo] == '+');
    var start := if signed then lo + 1 else lo;
    var body := s[start..hi];
    if body == [] || !AllDigits(body) then None
    else
      var n: int := Decimal(body);
      Some(if signed && s[lo] == '-' then -n else n)
  }

  /** The hour an hourly_stats key stands for, when int() reads one between 0 and 23. */
  function HourIndex(key: string): (r: Option<int>)
    ensures r.Some? ==> 0 <= r.value < 24
  {
    match SecondPart(key)
    case None => None
    case Some(part) =>
      match PyInt(part)
      case None => None
      case Some(h) => if 0 <= h < 24 then Some(h) else None
  }

  /** What the bucket `k` adds to the histogram's slot h. */
  function Contribution(m: map<string, Counts>, k: string, h: int): nat
    requires k in m
  {
    if HourIndex(k) == Some(h) then m[k].total() else 0
  }

  /** The requests of the buckets in `keys` that fall in hour h, in no particular order. */
  ghost function HourTotal(m: map<string, Counts>, keys: set<string>, h: int): nat
    requires keys <= m.Keys
  {
    if keys == {} then 0
    else
      var k :| k in keys;
      Contribution(m, k, h) + HourTotal(m, keys - {k}, h)
  }

  /** Any bucket can be taken out of the sum first. */
  lemma {:induction false} HourTotalRemove(m: map<string, Counts>, keys: set<string>, y: string, h: int)
    requires keys <= m.Keys && y in keys
    ensures HourTotal(m, keys, h) == Contribution(m, y, h) + HourTotal(m, keys - {y}, h)
    decreases |keys|
  {
    var x :| x in keys && HourTotal(m, keys, h) == Contribution(m, x, h) + HourTotal(m, keys - {x}, h);
    if x != y {
      HourTotalRemove(m, keys - {x}, y, h);
      HourTotalRemove(m, keys - {y}, x, h);
      assert keys - {x} - {y} == keys - {y} - {x};
    }
  }

  /** Two tables that agree on the buckets summed give the same sum. */
  lemma {:induction false} HourTotalAgree(m: map<string, Counts>, m': map<string, Counts>, keys: set<string>, h: int)
    requires keys <= m.Keys && keys <= m'.Keys
    requires forall k | k in keys :: m[k] == m'[k]
    ensures HourTotal(m, keys, h) == HourTotal(m', keys, h)
    decreases |keys|
  {
    if keys != {} {
      var x :| x in keys;
      HourTotalRemove(m, keys, x, h);
      HourTotalRemove(m', keys, x, h);
      HourTotalAgree(m, m', keys - {x}, h);
    }
  }

  /** The histogram of the buckets in `done` alone. */
  ghost function Slots(m: map<string, Counts>, done: set<string>): (r: seq<int>)
    requires done <= m.Keys
    ensures |r| == 24
  {
    seq(24, h => HourTotal(m, done, h))
  }

  /** The histogram after one more bucket, which lands in `slot` if it has one. */
  function Bumped(hist: seq<int>, slot: Option<int>, n: int): (r: seq<int>)
    requires slot.Some? ==> 0 <= slot.value < |hist|
    ensures |r| == |hist|
    ensures forall h :: 0 <= h < |hist| ==> r[h] == hist[h] + (if slot == Some(h) then n else 0)
  {
    match slot
    case None => hist
    case Some(h) => hist[h := hist[h] + n]
  }

  /** Counting one more bucket raises the slot its key reads as by the bucket's requests. */
  lemma SlotsAdd(m: map<string, Counts>, done: set<string>, k: string)
    requires done <= m.Keys && k in m && k !in done
    ensures Slots(m, done + {k}) == Bumped(Slots(m, done), HourIndex(k), m[k].total())
  {
    var before, after := Slots(m, done), Slots(m, done + {k});
    var bumped := Bumped(before, HourIndex(k), m[k].total());
    forall h | 0 <= h < 24
      ensures after[h] == bumped[h]
    {
      HourTotalRemove(m, done + {k}, k, h);
      assert done + {k} - {k} == done;
    }
  }

  /** The hourly chart: slot h holds the requests of every bucket whose key reads as hour h. */
  method HourlyHistogram(hourly: map<string, Counts>) returns (hist: seq<int>)
    ensures |hist| == 24
    ensures forall h :: 0 <= h < 24 ==> hist[h] == HourTotal(hourly, hourly.Keys, h)
  {
    var counts := new int[24](_ => 0);
    var done: set<string> := {};
    assert counts[..] == Slots(hourly, done);
    while done != hourly.Keys
      invariant done <= hourly.Keys
      invariant counts[..] == Slots(hourly, done)
      decreases |hourly.Keys - done|
    {
      var k :| k in hourly.Keys - done;
      SlotsAdd(hourly, done, k);
      var hour := HourIndex(k);
      AddToSlot(counts, hour, hourly[k].total());
      done := done + {k};
    }
    hist := counts[..];
  }

  /** `hourly_counts[hour] += n`, when the key read as an hour. */
  method AddToSlot(counts: array<int>, slot: Option<int>, n: int)
    requires slot.Some? ==> 0 <= slot.value < counts.Length
    modifies counts
    ensures counts[..] == Bumped(old(counts[..]), slot, n)
  {
    if slot.Some? {
      counts[slot.value] := counts[slot.value] + n;
    }
  }

  /**
   * One more request in bucket b raises the histogram by one in the slot b reads as, and
   * nowhere else.
   */
  lemma HistogramBump(m: map<string, Counts>, b: string, success: bool, h: int)
    ensures var m' := Upsert(m, b, success);
      HourTotal(m', m'.Keys, h) == HourTotal(m, m.Keys, h) + (if HourIndex(b) == Some(h) then 1 else 0)
  {
    if b in m {
      BumpExisting(m, b, success, h);
    } else {
      BumpFresh(m, b, success, h);
    }
  }

  lemma BumpExisting(m: map<string, Counts>, b: string, success: bool, h: int)
    requires b in m
    ensures var m' := Upsert(m, b, success);
      HourTotal(m', m'.Keys, h) == HourTotal(m, m.Keys, h) + (if HourIndex(b) == Some(h) then 1 else 0)
  {
    var m' := Upsert(m, b, success);
    assert m'.Keys == m.Keys;
    HourTotalRemove(m', m.Keys, b, h);
    HourTotalRemove(m, m.Keys, b, h);
    HourTotalAgree(m, m', m.Keys - {b}, h);
  }

  lemma BumpFresh(m: map<string, Counts>, b: string, success: bool, h: int)
    requires b !in m
    ensures var m' := Upsert(m, b, success);
      HourTotal(m', m'.Keys, h) == HourTotal(m, m.Keys, h) + (if HourIndex(b) == Some(h) then 1 else 0)
  {
    var m' := Upsert(m, b, success);
    assert m'.Keys == m.Keys + {b};
    HourTotalRemove(m', m'.Keys, b, h);
    assert m'.Keys - {b} == m.Keys;
    HourTotalAgree(m, m', m.Keys, h);
  }

  /** split(' ')[1] of a blank-free word, a blank and a blank-free word is the second word. */
  lemma SecondPartOf(a: string, b: string)
    requires forall i :: 0 <= i < |a| ==> a[i] != ' '
    requires forall i :: 0 <= i < |b| ==> b[i] != ' '
    ensures SecondPart(a + (" " + b)) == Some(b)
  {
    var s := a + (" " + b);
    assert s[|a|] == ' ';
    assert forall j :: 0 <= j < |a| ==> s[j] == a[j];
    assert IndexFrom(s, ' ', 0) == Some(|a|);
    assert forall j :: |a| + 1 <= j < |s| ==> s[j] == b[j - |a| - 1];
    assert IndexFrom(s, ' ', |a| + 1).None?;
    assert s[|a| + 1..] == b;
  }

  /** int() of plain ASCII digits is their decimal value. */
  lemma PyIntOfDigits(s: string)
    requires s != [] && AllDigits(s)
    ensures PyInt(s) == Some(Decimal(s))
  {
    assert !IsSpace(s[0]) && !IsSpace(s[|s| - 1]);
    assert SkipBlanks(s, 0) == 0;
    assert TrimmedEnd(s, 0, |s|) == |s|;
    assert s[0..|s|] == s;
  }

  lemma DigitsNoBlank(s: string)
    requires AllDigits(s)
    ensures forall i :: 0 <= i < |s| ==> s[i] != ' '
  {
  }

  /** An hourly_stats key written by update_stats reads back as its own hour. */
  lemma HourIndexOfFormat(t: DateTime)
    requires ValidDateTime(t)
    ensures HourIndex(FormatHour(t)) == Some(t.hour)
  {
    var day := FormatDay(t.date);
    assert forall i :: 0 <= i < |day| ==> day[i] != ' ' by {
      var y, m, d := Year4(t.date.year), Pad2(t.date.month), Pad2(t.date.day);
      assert day == y + ("-" + (m + ("-" + d)));
      forall i | 0 <= i < |day|
        ensures day[i] != ' '
      {
        if i < |y| {
          assert day[i] == y[i];
        } else if i == |y| {
        } else if i < |y| + 1 + |m| {
          assert day[i] == m[i - |y| - 1];
        } else if i == |y| + 1 + |m| {
        } else {
          assert day[i] == d[i - |y| - 2 - |m|];
        }
      }
    }
    DigitsNoBlank(Pad2(t.hour));
    SecondPartOf(day, Pad2(t.hour));
    PyIntOfDigits(Pad2(t.hour));
    DecimalOfDigits(t.hour, 2);
  }

  /** A counted request at `now` adds exactly one to the histogram slot of its hour. */
  lemma HistogramCountsRequest(m: map<string, Counts>, now: DateTime, success: bool, h: int)
    requires ValidDateTime(now)
    ensures var m' := Upsert(m, FormatHour(now), success);
      HourTotal(m', m'.Keys, h) == HourTotal(m, m.Keys, h) + (if h == now.hour then 1 else 0)
  {
    HistogramBump(m, FormatHour(now), success, h);
    HourIndexOfFormat(now);
  }
}
