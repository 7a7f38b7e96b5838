/**
 * The part of a pandas DataFrame indexed by Date that the scraper uses: named columns with
 * a dtype, and rows keyed by a calendar date. Also the library operations applied to whole
 * frames: `sort_index`, `pd.concat` and label slicing `frame[start:end]`.
 */
module Frames {
  import opened Wrappers
  import opened Calendar

  /** A cell: text, a number (float64, modelled as an exact real), or NaN. */
  datatype Cell = Str(text: string) | Num(value: real) | Null

  /** A column dtype: `object` holds any Python value, `float64` only numbers and NaN. */
  datatype Dtype = Object | Float64

  datatype Column = Column(name: string, dtype: Dtype)

  /** One row: its Date index value and one cell per column. */
  datatype Record = Record(date: Date, values: seq<Cell>)

  datatype Frame = Frame(columns: seq<Column>, rows: seq<Record>)

  function Names(columns: seq<Column>): (names: seq<string>)
    ensures |names| == |columns|
    ensures forall j :: 0 <= j < |columns| ==> names[j] == columns[j].name
  {
    if columns == [] then [] else [columns[0].name] + Names(columns[1..])
  }

  /** Every row has one cell per column, float64 columns hold no text, and dates are real dates. */
  predicate WellFormed(f: Frame)
  {
    forall r :: r in f.rows ==>
      ValidDate(r.date) && |r.values| == |f.columns| &&
      forall j :: 0 <= j < |f.columns| && f.columns[j].dtype == Float64 ==> !r.values[j].Str?
  }

  /** The five value columns of the exchange's table, after the Date column. */
  const NUMERIC: seq<string> := ["Open", "High", "Low", "Close", "Volume"]

  function ObjectColumns(names: seq<string>): (columns: seq<Column>)
    ensures Names(columns) == names
    ensures forall j :: 0 <= j < |columns| ==> columns[j].dtype == Object
  {
    seq(|names|, j requires 0 <= j < |names| => Column(names[j], Object))
  }

  /** `pd.DataFrame(columns=HEADERS).set_index("Date")`: no rows, object columns Open..Volume. */
  function EmptyFrame(): (f: Frame)
    ensures WellFormed(f) && f.rows == [] && Names(f.columns) == NUMERIC
  {
    Frame(ObjectColumns(NUMERIC), [])
  }

  // ---------------------------------------------------------------- sort_index

  predicate SortedByDate(rows: seq<Record>)
  {
    forall i, j :: 0 <= i < j < |rows| ==> NotAfter(rows[i].date, rows[j].date)
  }

  /** `x` placed before the first row dated after or on it, so equal dates keep their order. */
  function InsertByDate(x: Record, rows: seq<Record>): (r: seq<Record>)
    requires SortedByDate(rows)
    ensures |r| == |rows| + 1 && multiset(r) == multiset(rows) + multiset{x}
    ensures SortedByDate(r)
  {
    if rows == [] || NotAfter(x.date, rows[0].date) then [x] + rows
    else
      SortedTail(rows);
      var rest := InsertByDate(x, rows[1..]);
      InsertedAfterHead(x, rows, rest);
      assert rows == [rows[0]] + rows[1..];
      [rows[0]] + rest
  }

  /** A row dated after the head, inserted into the tail, keeps the head in front. */
  lemma InsertedAfterHead(x: Record, rows: seq<Record>, rest: seq<Record>)
    requires SortedByDate(rows) && rows != [] && !NotAfter(x.date, rows[0].date)
    requires SortedByDate(rest) && multiset(rest) == multiset(rows[1..]) + multiset{x}
    ensures SortedByDate([rows[0]] + rest)
  {
    forall k | 0 <= k < |rest| ensures NotAfter(rows[0].date, rest[k].date) {
      assert rest[k] in multiset(rows[1..]) + multiset{x};
    }
    ConsSorted(rows[0], rest);
  }

  /** A row dated no later than every row of a sorted sequence can go in front of it. */
  lemma ConsSorted(head: Record, rest: seq<Record>)
    requires SortedByDate(rest)
    requires forall k :: 0 <= k < |rest| ==> NotAfter(head.date, rest[k].date)
    ensures SortedByDate([head] + rest)
  {
    var r := [head] + rest;
    forall i, j | 0 <= i < j < |r| ensures NotAfter(r[i].date, r[j].date) {
      if i > 0 {
        assert r[i] == rest[i - 1] && r[j] == rest[j - 1];
      } else {
        assert r[j] == rest[j - 1];
      }
    }
  }

  /** `sort_index()`: rows in ascending date order, a permutation of the input. */
  function SortByDate(rows: seq<Record>): (r: seq<Record>)
    ensures |r| == |rows| && multiset(r) == multiset(rows)
    ensures SortedByDate(r)
  {
    if rows == [] then []
    else
      assert rows == [rows[0]] + rows[1..];
      InsertByDate(rows[0], SortByDate(rows[1..]))
  }

  /** Sorting rows that are already in date order leaves them as they are. */
  lemma {:induction false} SortSortedUnchanged(rows: seq<Record>)
    requires SortedByDate(rows)
    ensures SortByDate(rows) == rows
  {
    if rows != [] {
      SortSortedUnchanged(rows[1..]);
      assert rows == [rows[0]] + rows[1..];
      if |rows| > 1 {
        assert NotAfter(rows[0].date, rows[1..][0].date);
      }
    }
  }

  /** No two different rows carry the same date. */
  predicate UniqueDates(rows: seq<Record>)
  {
    forall x, y :: x in rows && y in rows && Ordinal(x.date) == Ordinal(y.date) ==> x == y
  }

  lemma UniqueDatesRearranged(a: seq<Record>, b: seq<Record>)
    requires multiset(a) == multiset(b) && UniqueDates(a)
    ensures UniqueDates(b)
  {
    forall x ensures x in b ==> x in a {
      assert x in b <==> x in multiset(b);
    }
  }

  /** One copy of `x` on both sides cancels. */
  lemma Cancel<T>(x: T, p: multiset<T>, q: multiset<T>)
    requires multiset{x} + p == multiset{x} + q
    ensures p == q
  {
    forall y ensures p[y] == q[y] {
      assert (multiset{x} + p)[y] == (multiset{x} + q)[y];
    }
  }

  /** Matching the head of `a` with the element at `i` of `b` leaves permutations of each other. */
  lemma TailPermutation<T>(a: seq<T>, b: seq<T>, i: nat)
    requires multiset(a) == multiset(b)
    requires a != [] && i < |b| && a[0] == b[i]
    ensures multiset(a[1..]) == multiset(b[..i] + b[i + 1..])
  {
    assert a == [a[0]] + a[1..];
    assert b == b[..i] + [b[i]] + b[i + 1..];
    assert multiset(b) == multiset{b[i]} + multiset(b[..i] + b[i + 1..]);
    Cancel(a[0], multiset(a[1..]), multiset(b[..i] + b[i + 1..]));
  }

  /** The first rows of two date-sorted arrangements of the same rows share a date. */
  lemma SortedHeadsSameDate(a: seq<Record>, b: seq<Record>)
    requires SortedByDate(a) && SortedByDate(b) && multiset(a) == multiset(b) && a != []
    ensures b != [] && b[0] in a && Ordinal(a[0].date) == Ordinal(b[0].date)
  {
    assert a[0] in multiset(b);
    var i :| 0 <= i < |b| && b[i] == a[0];
    assert b[0] in multiset(a);
    var j :| 0 <= j < |a| && a[j] == b[0];
    if i > 0 { assert NotAfter(b[0].date, b[i].date); }
    if j > 0 { assert NotAfter(a[0].date, a[j].date); }
  }

  lemma SortedHeadsEqual(a: seq<Record>, b: seq<Record>)
    requires SortedByDate(a) && SortedByDate(b) && multiset(a) == multiset(b) && UniqueDates(a)
    requires a != []
    ensures b != [] && a[0] == b[0]
  {
    SortedHeadsSameDate(a, b);
  }

  lemma UniqueDatesTail(a: seq<Record>)
    requires UniqueDates(a) && a != []
    ensures UniqueDates(a[1..])
  {
    forall x, y | x in a[1..] && y in a[1..] && Ordinal(x.date) == Ordinal(y.date) ensures x == y {
      assert x in a && y in a;
    }
  }

  /** Two date-sorted arrangements of the same rows are equal when dates are unique. */
  lemma {:induction false} SortedArrangementUnique(a: seq<Record>, b: seq<Record>)
    requires SortedByDate(a) && SortedByDate(b) && multiset(a) == multiset(b) && UniqueDates(a)
    ensures a == b
  {
    if a == [] {
      assert |b| == |multiset(b)| == 0;
    } else {
      ArrangementTails(a, b);
      SortedArrangementUnique(a[1..], b[1..]);
      SameHeadTail(a, b);
    }
  }

  /** Past their common first row, the two arrangements meet the same conditions again. */
  lemma ArrangementTails(a: seq<Record>, b: seq<Record>)
    requires SortedByDate(a) && SortedByDate(b) && multiset(a) == multiset(b) && UniqueDates(a)
    requires a != []
    ensures b != [] && a[0] == b[0]
    ensures SortedByDate(a[1..]) && SortedByDate(b[1..]) && multiset(a[1..]) == multiset(b[1..])
    ensures UniqueDates(a[1..])
  {
    SortedHeadsEqual(a, b);
    TailPermutation(a, b, 0);
    DropFirst(b);
    UniqueDatesTail(a);
    SortedTail(a);
    SortedTail(b);
  }

  lemma SortedTail(rows: seq<Record>)
    requires SortedByDate(rows) && rows != []
    ensures SortedByDate(rows[1..])
  {
    forall i, j | 0 <= i < j < |rows| - 1 ensures NotAfter(rows[1..][i].date, rows[1..][j].date) {
      assert rows[1..][i] == rows[i + 1] && rows[1..][j] == rows[j + 1];
    }
  }

  /** When dates are unique, sorting does not depend on the order rows came in. */
  lemma SortIgnoresArrival(a: seq<Record>, b: seq<Record>)
    requires multiset(a) == multiset(b) && UniqueDates(a)
    ensures SortByDate(a) == SortByDate(b)
  {
    var sa, sb := SortByDate(a), SortByDate(b);
    assert UniqueDates(sa) by {
      forall x, y | x in sa && y in sa && Ordinal(x.date) == Ordinal(y.date) ensures x == y {
        assert x in multiset(a) && y in multiset(a);
      }
    }
    SortedArrangementUnique(sa, sb);
  }

  // ---------------------------------------------------------------- pd.concat

  /** All frames have the same column names, in the same order. */
  predicate SameNames(frames: seq<Frame>)
  {
    forall f, g :: f in frames && g in frames ==> Names(f.columns) == Names(g.columns)
  }

  /** The rows of all frames, one frame after another. */
  function ConcatRows(frames: seq<Frame>): (rows: seq<Record>)
    ensures |frames| == 1 ==> rows == frames[0].rows
  {
    if frames == [] then [] else frames[0].rows + ConcatRows(frames[1..])
  }

  /** A row of the concatenation is a row of one of the frames, and every such row is there. */
  lemma {:induction false} ConcatRowsMembers(frames: seq<Frame>)
    ensures forall r :: r in ConcatRows(frames) <==> exists f :: f in frames && r in f.rows
  {
    if frames != [] {
      ConcatRowsMembers(frames[1..]);
      assert forall f :: f in frames <==> f == frames[0] || f in frames[1..];
    }
  }

  lemma {:induction false} ConcatRowsAppend(a: seq<Frame>, b: seq<Frame>)
    ensures ConcatRows(a + b) == ConcatRows(a) + ConcatRows(b)
  {
    if a == [] {
      assert a + b == b;
    } else {
      assert (a + b)[1..] == a[1..] + b;
      ConcatRowsAppend(a[1..], b);
    }
  }

  /** The rows of a rearranged list of frames are a rearrangement of the rows. */
  lemma {:induction false} ConcatRowsPermutation(a: seq<Frame>, b: seq<Frame>)
    requires multiset(a) == multiset(b)
    ensures multiset(ConcatRows(a)) == multiset(ConcatRows(b))
  {
    if a == [] {
      assert |b| == |multiset(b)| == 0;
    } else {
      var i := Find(a[0], b);
      TailPermutation(a, b, i);
      ConcatRowsPermutation(a[1..], b[..i] + b[i + 1..]);
      ConcatRowsSplit(a, 0);
      DropFirst(a);
      ConcatRowsSplit(b, i);
    }
  }

  /** Taking out the frame at `i` takes out its rows. */
  lemma ConcatRowsSplit(frames: seq<Frame>, i: nat)
    requires i < |frames|
    ensures multiset(ConcatRows(frames)) ==
      multiset(frames[i].rows) + multiset(ConcatRows(frames[..i] + frames[i + 1..]))
  {
    var left, right := frames[..i], frames[i + 1..];
    SplitAt(frames, i);
    ConcatRowsAppend(left, [frames[i]] + right);
    ConcatRowsAppend([frames[i]], right);
    ConcatRowsAppend(left, right);
    MultisetMiddle(ConcatRows(left), frames[i].rows, ConcatRows(right));
  }

  /**
   * `pd.concat(frames)` for frames sharing their column names: the rows one frame after
   * another; a column is object when it is object in some frame, float64 otherwise.
   */
  function Concat(frames: seq<Frame>): (f: Frame)
    requires |frames| > 0 && SameNames(frames)
    ensures Names(f.columns) == Names(frames[0].columns)
    ensures f.rows == ConcatRows(frames)
    ensures forall j :: 0 <= j < |f.columns| ==>
      (f.columns[j].dtype == Object <==> exists g :: g in frames && g.columns[j].dtype == Object)
  {
    var first := frames[0].columns;
    assert forall g :: g in frames ==> |g.columns| == |first| by {
      forall g | g in frames ensures |g.columns| == |first| {
        assert |Names(g.columns)| == |Names(first)|;
      }
    }
    var columns := seq(|first|, j requires 0 <= j < |first| =>
      Column(first[j].name,
             if exists g :: g in frames && g.columns[j].dtype == Object then Object else Float64));
    Frame(columns, ConcatRows(frames))
  }

  lemma ConcatWellFormed(frames: seq<Frame>)
    requires |frames| > 0 && SameNames(frames)
    requires forall g :: g in frames ==> WellFormed(g)
    ensures WellFormed(Concat(frames))
  {
    var f := Concat(frames);
    ConcatRowsMembers(frames);
    forall r | r in f.rows
      ensures ValidDate(r.date) && |r.values| == |f.columns|
      ensures forall j :: 0 <= j < |f.columns| && f.columns[j].dtype == Float64 ==> !r.values[j].Str?
    {
      var g :| g in frames && r in g.rows;
      assert |Names(g.columns)| == |Names(frames[0].columns)|;
    }
  }

  /** Concatenating a single frame gives that frame back. */
  lemma ConcatSingle(g: Frame)
    ensures SameNames([g]) && Concat([g]) == g
  {
    var f := Concat([g]);
    forall j | 0 <= j < |f.columns| ensures f.columns[j] == g.columns[j] {
      assert f.columns[j].name == Names(f.columns)[j];
      assert f.columns[j].dtype == Object <==> g.columns[j].dtype == Object;
    }
  }

  /** Concatenation depends only on which frames there are, up to the order of their rows. */
  lemma ConcatRearranged(a: seq<Frame>, b: seq<Frame>)
    requires |a| > 0 && SameNames(a) && multiset(a) == multiset(b)
    ensures |b| > 0 && SameNames(b)
    ensures Concat(a).columns == Concat(b).columns
    ensures multiset(Concat(a).rows) == multiset(Concat(b).rows)
  {
    assert forall g :: g in a <==> g in b by {
      forall g ensures g in a <==> g in b {
        assert g in a <==> g in multiset(a);
      }
    }
    assert b[0] in a;
    var fa := Concat(a);
    var fb := Concat(b);
    assert |fa.columns| == |fb.columns| by {
      assert |Names(fa.columns)| == |Names(fb.columns)|;
    }
    forall j | 0 <= j < |fa.columns| ensures fa.columns[j] == fb.columns[j] {
      assert fa.columns[j].name == Names(fa.columns)[j];
      assert fb.columns[j].name == Names(fb.columns)[j];
    }
    ConcatRowsPermutation(a, b);
  }

  /** Reordering the rows of a well-formed frame keeps it well formed. */
  lemma RearrangedWellFormed(f: Frame, rows: seq<Record>)
    requires WellFormed(f) && multiset(rows) == multiset(f.rows)
    ensures WellFormed(Frame(f.columns, rows))
  {
    forall x | x in rows ensures x in f.rows {
      assert x in multiset(rows);
    }
  }

  /** The dates of the rows, in row order. */
  function Dates(rows: seq<Record>): (dates: seq<Date>)
    ensures |dates| == |rows|
    ensures forall k :: 0 <= k < |rows| ==> dates[k] == rows[k].date
  {
    seq(|rows|, k requires 0 <= k < |rows| => rows[k].date)
  }

  /** Rearranging rows rearranges their dates. */
  lemma DatesRearranged(a: seq<Record>, b: seq<Record>)
    requires multiset(a) == multiset(b)
    ensures multiset(Dates(a)) == multiset(Dates(b))
  {
    var date := (x: Record) => x.date;
    MapRearranged(date, a, b);
    assert Dates(a) == Map(date, a) && Dates(b) == Map(date, b);
  }

  /** `f` applied to each element, in order. */
  function Map<T, U>(f: T -> U, s: seq<T>): (r: seq<U>)
    ensures |r| == |s| && forall k :: 0 <= k < |s| ==> r[k] == f(s[k])
  {
    if s == [] then [] else [f(s[0])] + Map(f, s[1..])
  }

  lemma {:induction false} MapConcat<T, U>(f: T -> U, x: seq<T>, y: seq<T>)
    ensures Map(f, x + y) == Map(f, x) + Map(f, y)
  {
    if x == [] {
      assert x + y == y;
    } else {
      assert (x + y)[0] == x[0] && (x + y)[1..] == x[1..] + y;
      MapConcat(f, x[1..], y);
    }
  }

  /** Rearranging a sequence rearranges its image. */
  lemma {:induction false} MapRearranged<T, U>(f: T -> U, a: seq<T>, b: seq<T>)
    requires multiset(a) == multiset(b)
    ensures multiset(Map(f, a)) == multiset(Map(f, b))
  {
    if a == [] {
      assert |b| == |multiset(b)| == 0;
    } else {
      var i := Find(a[0], b);
      TailPermutation(a, b, i);
      MapRearranged(f, a[1..], b[..i] + b[i + 1..]);
      assert Map(f, a) == [f(a[0])] + Map(f, a[1..]);
      MapSplit(f, b, i);
    }
  }

  /** Taking out the element at `i` takes out its image. */
  lemma MapSplit<T, U>(f: T -> U, s: seq<T>, i: nat)
    requires i < |s|
    ensures multiset(Map(f, s)) == multiset{f(s[i])} + multiset(Map(f, s[..i] + s[i + 1..]))
  {
    var left, right := s[..i], s[i + 1..];
    SplitAt(s, i);
    MapConcat(f, left, [s[i]] + right);
    MapConcat(f, left, right);
    var l, r := Map(f, left), Map(f, right);
    assert Map(f, [s[i]] + right) == [f(s[i])] + r;
    assert Map(f, s) == l + ([f(s[i])] + r);
    MultisetMiddle(l, [f(s[i])], r);
  }

  lemma MultisetMember<T>(x: T, a: seq<T>, b: seq<T>)
    requires x in a && multiset(a) == multiset(b)
    ensures x in b
  {
    assert x in multiset(a);
  }

  lemma SplitAt<T>(s: seq<T>, i: nat)
    requires i < |s|
    ensures s == s[..i] + ([s[i]] + s[i + 1..])
  {
  }

  /** A position of `x` in `s`. */
  lemma Find<T>(x: T, s: seq<T>) returns (i: nat)
    requires x in multiset(s)
    ensures i < |s| && s[i] == x
  {
    i :| 0 <= i < |s| && s[i] == x;
  }

  lemma DropFirst<T>(s: seq<T>)
    requires s != []
    ensures s[..0] + s[1..] == s[1..]
  {
  }

  lemma SameHeadTail<T>(a: seq<T>, b: seq<T>)
    requires a != [] && b != [] && a[0] == b[0] && a[1..] == b[1..]
    ensures a == b
  {
    assert a == [a[0]] + a[1..] && b == [b[0]] + b[1..];
  }

  lemma MultisetMiddle<T>(l: seq<T>, m: seq<T>, r: seq<T>)
    ensures multiset(l + (m + r)) == multiset(m) + multiset(l + r)
  {
    assert multiset(l + (m + r)) == multiset(l) + (multiset(m) + multiset(r));
  }

  // ---------------------------------------------------------------- frame[start:end]

  /** `frame[start:end]` on a date-sorted index: the rows dated from start to end inclusive. */
  function Window(rows: seq<Record>, start: Date, end: Date): (r: seq<Record>)
    ensures forall x :: x in r <==> x in rows && NotAfter(start, x.date) && NotAfter(x.date, end)
    ensures SortedByDate(rows) ==> SortedByDate(r)
  {
    if rows == [] then []
    else
      var rest := Window(rows[1..], start, end);
      assert forall x :: x in rows <==> x == rows[0] || x in rows[1..];
      if NotAfter(start, rows[0].date) && NotAfter(rows[0].date, end) then [rows[0]] + rest else rest
  }
}
