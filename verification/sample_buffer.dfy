/**
 The sample store of the probe (power_profiler/power_profiler.py:26, 48-50,
 136-170), as the values it holds. The program keeps a 4-row array of width
 `capacity`; row 1 holds the cumulative sample count, row 2 the current, and
 row 0 the time, which is the count divided by the sample rate and is
 therefore not stored here. The valid columns are those before `index`; `n`
 is the cumulative count of samples the device has reported.

 Appending writes column `index` and increments it. When the increment fills
 the array, a store below MAX_HISTORY doubles into a fresh array whose first
 half is the old one; a store at MAX_HISTORY instead copies its newer half
 over its older half and halves `index`. This module describes the valid
 columns and the width; SampleArray carries out the same steps on an array.
 */
module SampleBuffer {

  const InitialCapacity: nat := 0x1000
  const MaxHistory: nat := 0x10_0000
  const Half: nat := 0x8_0000

  /** One column of the store: a cumulative count and the current measured up to it. */
  datatype Record = Record(count: nat, current: real)

  /** The valid columns data[:, :index], the array width, and the cumulative count. */
  datatype Store = Store(resident: seq<Record>, capacity: nat, n: nat)

  /** The widths the array can have: MAX_HISTORY halved at most eight times, that is
      4096 doubled at most eight times. */
  predicate IsCapacity(c: nat)
    decreases MaxHistory - c
  {
    c == MaxHistory || (InitialCapacity <= c < MaxHistory && IsCapacity(2 * c))
  }

  function Pow2(k: nat): (p: nat)
    ensures p >= 1
  {
    if k == 0 then 1 else 2 * Pow2(k - 1)
  }

  /** 4096 * 2^k is a width for k up to 8. */
  lemma {:induction false} PowerIsCapacity(k: nat)
    requires k <= 8
    ensures InitialCapacity * Pow2(k) <= MaxHistory && IsCapacity(InitialCapacity * Pow2(k))
    decreases 8 - k
  {
    if k == 8 {
      assert Pow2(8) == 256;
    } else {
      PowerIsCapacity(k + 1);
    }
  }

  /** The widths are exactly 4096 * 2^k for k = 0 .. 8, the last being MAX_HISTORY. */
  lemma {:induction false} CapacityIsPowerOfTwo(c: nat)
    ensures IsCapacity(c) <==> exists k :: 0 <= k <= 8 && c == InitialCapacity * Pow2(k)
    decreases MaxHistory - c
  {
    if exists k :: 0 <= k <= 8 && c == InitialCapacity * Pow2(k) {
      var k :| 0 <= k <= 8 && c == InitialCapacity * Pow2(k);
      PowerIsCapacity(k);
    }
    if IsCapacity(c) {
      if c == MaxHistory {
        assert Pow2(8) == 256;
      } else {
        CapacityIsPowerOfTwo(2 * c);
        var k :| 0 <= k <= 8 && 2 * c == InitialCapacity * Pow2(k);
        assert k > 0 && c == InitialCapacity * Pow2(k - 1);
      }
    }
  }

  /** A free column is always left after the valid ones. */
  predicate Valid(s: Store) {
    IsCapacity(s.capacity) && |s.resident| < s.capacity
  }

  /** The empty store a new probe starts with: np.empty((4, 1 << 12)), index 0, n 0. */
  function Init(): (s: Store)
    ensures Valid(s) && s.capacity == InitialCapacity
    ensures s.resident == [] && s.n == 0
  {
    Store([], InitialCapacity, 0)
  }

  /** Writing one column and running index_inc: the pair of steps `process` repeats. */
  function Append(s: Store, r: Record): (t: Store)
    requires Valid(s)
    ensures Valid(t) && t.n == s.n
  {
    var written := s.resident + [r];
    if |written| < s.capacity then s.(resident := written)
    else if |written| < MaxHistory then s.(resident := written, capacity := 2 * s.capacity)
    else s.(resident := written[Half..])
  }

  /** What one append does to the valid columns and to the width. */
  lemma AppendFacts(s: Store, r: Record)
    requires Valid(s)
    // the valid columns are a suffix of the old ones followed by r: nothing is reordered
    ensures 0 < |Append(s, r).resident| <= |s.resident| + 1
    ensures Append(s, r).resident[|Append(s, r).resident| - 1] == r
    ensures IsSuffix(Append(s, r).resident, s.resident + [r])
    // nothing is lost below MAX_HISTORY columns; at MAX_HISTORY the newest half is kept
    ensures |s.resident| + 1 < MaxHistory ==> Append(s, r).resident == s.resident + [r]
    ensures |s.resident| + 1 == MaxHistory ==> |Append(s, r).resident| == Half
    ensures |s.resident| + 1 == MaxHistory ==>
      s.capacity == MaxHistory && Append(s, r).resident == (s.resident + [r])[Half..]
    // the array grows only when the write fills it below MAX_HISTORY, and then doubles
    ensures Append(s, r).capacity != s.capacity <==> |s.resident| + 1 == s.capacity < MaxHistory
    ensures Append(s, r).capacity != s.capacity ==> Append(s, r).capacity == 2 * s.capacity
  {
  }

  /** Appending a whole history of records, oldest first. */
  function AppendAll(s: Store, h: seq<Record>): (t: Store)
    requires Valid(s)
    ensures Valid(t) && t.n == s.n
    decreases |h|
  {
    if |h| == 0 then s else Append(AppendAll(s, h[..|h| - 1]), h[|h| - 1])
  }

  /** b ends with a. */
  predicate IsSuffix(a: seq<Record>, b: seq<Record>) {
    |a| <= |b| && a == b[|b| - |a|..]
  }

  lemma ConcatLast(a: seq<Record>, h: seq<Record>)
    requires |h| > 0
    ensures a + h == (a + h[..|h| - 1]) + [h[|h| - 1]]
  {
    assert h == h[..|h| - 1] + [h[|h| - 1]];
  }

  /** A suffix of b, extended by r, is a suffix of b extended by r; so is any suffix of that. */
  lemma SuffixExtend(a: seq<Record>, b: seq<Record>, r: Record, c: seq<Record>)
    requires IsSuffix(a, b) && IsSuffix(c, a + [r])
    ensures IsSuffix(c, b + [r])
  {
    var ext := b + [r];
    assert a + [r] == ext[|ext| - |a| - 1..];
  }

  /** Whatever is appended, the valid columns are the newest records: a suffix of the
      columns valid before followed by everything appended since. */
  lemma {:induction false} ResidentIsSuffix(s: Store, h: seq<Record>)
    requires Valid(s)
    ensures IsSuffix(AppendAll(s, h).resident, s.resident + h)
    decreases |h|
  {
    if |h| == 0 {
      assert s.resident + h == s.resident;
    } else {
      var front, last := h[..|h| - 1], h[|h| - 1];
      ResidentIsSuffix(s, front);
      var mid := AppendAll(s, front);
      var t := Append(mid, last);
      AppendFacts(mid, last);
      SuffixExtend(mid.resident, s.resident + front, last, t.resident);
      ConcatLast(s.resident, h);
    }
  }

  /** How many columns are valid after m appends to a new store. */
  function ResidentLength(m: nat): (l: nat)
    ensures l <= m && l < MaxHistory
  {
    if m < MaxHistory then m else Half + (m - MaxHistory) % Half
  }

  /** The smallest of c, 2c, 4c, ... that exceeds m. */
  function CapacityAbove(c: nat, m: nat): (cap: nat)
    requires c > 0
    ensures cap > m && cap >= c
    decreases m + 1 - c
  {
    if m < c then c else CapacityAbove(2 * c, m)
  }

  /** The width of the array after m appends to a new store. */
  function CapacityAfter(m: nat): nat {
    if m >= MaxHistory then MaxHistory else CapacityAbove(InitialCapacity, m)
  }

  lemma {:induction false} CapacityAboveStep(c: nat, m: nat)
    requires IsCapacity(c) && m < MaxHistory
    decreases m + 1 - c
    ensures IsCapacity(CapacityAbove(c, m))
    ensures m + 1 < CapacityAbove(c, m) ==> CapacityAbove(c, m + 1) == CapacityAbove(c, m)
    ensures m + 1 == CapacityAbove(c, m) ==> CapacityAbove(c, m + 1) == 2 * CapacityAbove(c, m)
  {
    if m >= c {
      CapacityAboveStep(2 * c, m);
    } else if m + 1 == c {
      assert CapacityAbove(2 * c, m + 1) == 2 * c;
    }
  }

  /** One more append: the valid length grows by one, or falls to half of MAX_HISTORY
      when it would reach it. */
  lemma ResidentLengthStep(m: nat)
    requires m > 0
    ensures ResidentLength(m - 1) + 1 == MaxHistory ==> ResidentLength(m) == Half
    ensures ResidentLength(m - 1) + 1 != MaxHistory ==> ResidentLength(m) == ResidentLength(m - 1) + 1
  {
    if m - 1 >= MaxHistory {
      var q := (m - 1 - MaxHistory) / Half;
      assert m - 1 - MaxHistory == q * Half + (m - 1 - MaxHistory) % Half;
      if (m - 1 - MaxHistory) % Half == Half - 1 {
        assert m - MaxHistory == (q + 1) * Half;
      } else {
        assert m - MaxHistory == q * Half + (m - 1 - MaxHistory) % Half + 1;
      }
    }
  }

  /** One more append: the width doubles exactly when the append fills an array
      narrower than MAX_HISTORY. */
  lemma CapacityAfterStep(m: nat)
    requires m > 0
    ensures IsCapacity(CapacityAfter(m - 1)) && ResidentLength(m - 1) < CapacityAfter(m - 1)
    ensures ResidentLength(m - 1) + 1 == CapacityAfter(m - 1) < MaxHistory ==> CapacityAfter(m) == 2 * CapacityAfter(m - 1)
    ensures !(ResidentLength(m - 1) + 1 == CapacityAfter(m - 1) < MaxHistory) ==> CapacityAfter(m) == CapacityAfter(m - 1)
  {
    if m - 1 < MaxHistory {
      CapacityAboveStep(InitialCapacity, m - 1);
    }
  }

  /** One append to a store in the shape ResidentLength and CapacityAfter predict for
      m - 1 appends leaves it in the shape they predict for m. */
  lemma AppendShapeStep(s: Store, r: Record, m: nat)
    requires m > 0 && Valid(s)
    requires |s.resident| == ResidentLength(m - 1) && s.capacity == CapacityAfter(m - 1)
    ensures |Append(s, r).resident| == ResidentLength(m)
    ensures Append(s, r).capacity == CapacityAfter(m)
  {
    AppendFacts(s, r);
    CapacityAfterStep(m);
    ResidentLengthStep(m);
  }

  /** After m appends to an empty store of the initial width, ResidentLength(m) columns
      are valid and the array is CapacityAfter(m) wide. */
  lemma {:induction false} ShapeFromEmpty(s: Store, h: seq<Record>)
    requires Valid(s) && s.resident == [] && s.capacity == InitialCapacity
    ensures |AppendAll(s, h).resident| == ResidentLength(|h|)
    ensures AppendAll(s, h).capacity == CapacityAfter(|h|)
    decreases |h|
  {
    if |h| > 0 {
      ShapeFromEmpty(s, h[..|h| - 1]);
      AppendShapeStep(AppendAll(s, h[..|h| - 1]), h[|h| - 1], |h|);
    }
  }

  /** After m appends to a new store, the valid columns are exactly the newest
      ResidentLength(m) records and the array is CapacityAfter(m) wide: every record is
      kept below MAX_HISTORY, and from then on between half of it and all of it. */
  lemma AppendsFromInit(h: seq<Record>)
    ensures AppendAll(Init(), h).resident == h[|h| - ResidentLength(|h|)..]
    ensures AppendAll(Init(), h).capacity == CapacityAfter(|h|)
  {
    ShapeFromEmpty(Init(), h);
    ResidentIsSuffix(Init(), h);
    assert Init().resident + h == h;
  }

  /** Appending one history after another is appending their concatenation. */
  lemma {:induction false} AppendAllConcat(s: Store, a: seq<Record>, b: seq<Record>)
    requires Valid(s)
    ensures AppendAll(s, a + b) == AppendAll(AppendAll(s, a), b)
    decreases |b|
  {
    if |b| == 0 {
      assert a + b == a;
    } else {
      AppendAllConcat(s, a, b[..|b| - 1]);
      ConcatLast(a, b);
    }
  }

  /** The count is not touched by appending. */
  lemma {:induction false} AppendAllIgnoresCount(s: Store, h: seq<Record>, n: nat)
    requires Valid(s)
    ensures AppendAll(s.(n := n), h) == AppendAll(s, h).(n := n)
    decreases |h|
  {
    if |h| > 0 {
      AppendAllIgnoresCount(s, h[..|h| - 1], n);
    }
  }

  /** The columns `process(current, k)` writes when the count stands at n: with k > 1
      the first of the k averaged samples, then the last. */
  function Columns(n: nat, current: real, k: nat): (cs: seq<Record>)
    ensures 1 <= |cs| <= 2 && cs[|cs| - 1] == Record(n + k, current)
    ensures |cs| == 2 <==> k > 1
    ensures k > 1 ==> cs[0] == Record(n + 1, current)
  {
    if k > 1 then [Record(n + 1, current), Record(n + k, current)] else [Record(n + k, current)]
  }

  /** Appending a history with one more record is one more append. */
  lemma AppendAllSnoc(s: Store, h: seq<Record>, r: Record)
    requires Valid(s)
    ensures AppendAll(s, h + [r]) == Append(AppendAll(s, h), r)
  {
    assert (h + [r])[..|h|] == h;
  }

  lemma AppendAllOne(s: Store, r: Record)
    requires Valid(s)
    ensures AppendAll(s, [r]) == Append(s, r)
  {
    assert [r] == [] + [r];
    AppendAllSnoc(s, [], r);
  }

  lemma AppendAllTwo(s: Store, r0: Record, r1: Record)
    requires Valid(s)
    ensures AppendAll(s, [r0, r1]) == Append(Append(s, r0), r1)
  {
    assert [r0, r1] == [r0] + [r1];
    AppendAllSnoc(s, [r0], r1);
    AppendAllOne(s, r0);
  }

  /** process(current, k): with k > 1 write the column of the first of the k averaged
      samples and advance the index; then count the k samples, write the column of the
      last one and advance the index again. */
  function Process(s: Store, current: real, k: nat): (t: Store)
    requires Valid(s)
    ensures Valid(t) && t.n == s.n + k
  {
    var first := Record(s.n + 1, current);
    var last := Record(s.n + k, current);
    if k > 1 then Append(Append(s, first), last).(n := s.n + k)
    else Append(s, last).(n := s.n + k)
  }


  /** After process the newest column holds the current and the new count, and below
      MAX_HISTORY nothing is lost. */
  lemma ProcessKeepsNewest(s: Store, current: real, k: nat)
    requires Valid(s)
    ensures var t := Process(s, current, k);
      && |t.resident| > 0 && t.resident[|t.resident| - 1] == Record(s.n + k, current)
      && (|s.resident| + 2 < MaxHistory ==> t.resident == s.resident + Columns(s.n, current, k))
  {
    if k > 1 {
      NewestOfTwo(s, current, k);
    } else {
      NewestOfOne(s, current, k);
    }
  }

  lemma NewestOfTwo(s: Store, current: real, k: nat)
    requires Valid(s) && k > 1
    ensures var t := Process(s, current, k);
      && |t.resident| > 0 && t.resident[|t.resident| - 1] == Record(s.n + k, current)
      && (|s.resident| + 2 < MaxHistory ==> t.resident == s.resident + Columns(s.n, current, k))
  {
    var first := Record(s.n + 1, current);
    var last := Record(s.n + k, current);
    assert Process(s, current, k).resident == Append(Append(s, first), last).resident;
    assert Columns(s.n, current, k) == [first, last];
    TwoAppends(s, first, last);
  }

  lemma NewestOfOne(s: Store, current: real, k: nat)
    requires Valid(s) && k <= 1
    ensures var t := Process(s, current, k);
      && |t.resident| > 0 && t.resident[|t.resident| - 1] == Record(s.n + k, current)
      && (|s.resident| + 2 < MaxHistory ==> t.resident == s.resident + Columns(s.n, current, k))
  {
    var last := Record(s.n + k, current);
    assert Process(s, current, k).resident == Append(s, last).resident;
    assert Columns(s.n, current, k) == [last];
    AppendFacts(s, last);
  }


  /** With k > 1, process is two appends, the first of the k samples and then the last. */
  lemma ProcessTwoAppends(s: Store, current: real, k: nat)
    requires Valid(s) && k > 1
    ensures Process(s, current, k)
         == Append(Append(s, Record(s.n + 1, current)), Record(s.n + k, current)).(n := s.n + k)
  {
  }

  lemma ProcessTwoColumns(s: Store, current: real, k: nat)
    requires Valid(s) && k > 1
    ensures Process(s, current, k)
         == AppendAll(s, [Record(s.n + 1, current), Record(s.n + k, current)]).(n := s.n + k)
  {
    AppendAllTwo(s, Record(s.n + 1, current), Record(s.n + k, current));
  }

  lemma ProcessOneColumn(s: Store, current: real, k: nat)
    requires Valid(s) && k <= 1
    ensures Process(s, current, k) == AppendAll(s, [Record(s.n + k, current)]).(n := s.n + k)
  {
    AppendAllOne(s, Record(s.n + k, current));
  }

  /** process is appending its columns and advancing the count by k. */
  lemma ProcessAppendsColumns(s: Store, current: real, k: nat)
    requires Valid(s)
    ensures Process(s, current, k) == AppendAll(s, Columns(s.n, current, k)).(n := s.n + k)
  {
    var cs := Columns(s.n, current, k);
    if k > 1 {
      assert cs == [Record(s.n + 1, current), Record(s.n + k, current)];
      ProcessTwoColumns(s, current, k);
    } else {
      assert cs == [Record(s.n + k, current)];
      ProcessOneColumn(s, current, k);
    }
  }


  /** Two appends keep the second record last and lose nothing below MAX_HISTORY. */
  lemma TwoAppends(s: Store, r0: Record, r1: Record)
    requires Valid(s)
    ensures 0 < |Append(Append(s, r0), r1).resident|
    ensures Append(Append(s, r0), r1).resident[|Append(Append(s, r0), r1).resident| - 1] == r1
    ensures |s.resident| + 2 < MaxHistory ==> Append(Append(s, r0), r1).resident == s.resident + [r0, r1]
  {
    var mid := Append(s, r0);
    AppendFacts(s, r0);
    AppendFacts(mid, r1);
    if |s.resident| + 2 < MaxHistory {
      SnocTwice(s.resident, r0, r1);
    }
  }

  lemma SnocTwice(a: seq<Record>, r0: Record, r1: Record)
    ensures (a + [r0]) + [r1] == a + [r0, r1]
  {
  }

  /** Appending after a count change is appending first and changing the count after. */
  lemma AppendColumnsThenAppend(s: Store, cs: seq<Record>, h: seq<Record>, n: nat)
    requires Valid(s)
    ensures AppendAll(AppendAll(s, cs).(n := n), h) == AppendAll(s, cs + h).(n := n)
  {
    AppendAllIgnoresCount(AppendAll(s, cs), h, n);
    AppendAllConcat(s, cs, h);
  }


  /** The columns written while processing the currents in order, starting from count n. */
  function History(n: nat, currents: seq<real>, k: nat): (h: seq<Record>)
    ensures k > 1 ==> |h| == 2 * |currents|
    ensures k <= 1 ==> |h| == |currents|
    decreases |currents|
  {
    if |currents| == 0 then []
    else Columns(n, currents[0], k) + History(n + k, currents[1..], k)
  }

  /** Processing the currents of a frame in order, k samples each: the loop over the
      slots of run() calling process(current, AVERAGE_N). */
  function ProcessAll(s: Store, currents: seq<real>, k: nat): (t: Store)
    requires Valid(s)
    ensures Valid(t) && t.n == s.n + |currents| * k
    decreases |currents|
  {
    if |currents| == 0 then s
    else
      assert k + (|currents| - 1) * k == |currents| * k;
      ProcessAll(Process(s, currents[0], k), currents[1..], k)
  }

  /** Processing a run of currents appends their history, oldest first. */
  lemma {:induction false} ProcessAllAppendsHistory(s: Store, currents: seq<real>, k: nat)
    requires Valid(s)
    ensures var t := ProcessAll(s, currents, k);
      t == AppendAll(s, History(s.n, currents, k)).(n := t.n)
    decreases |currents|
  {
    if |currents| > 0 {
      var s1 := Process(s, currents[0], k);
      var t := ProcessAll(s, currents, k);
      ProcessAllAppendsHistory(s1, currents[1..], k);
      ProcessAppendsColumns(s, currents[0], k);
      AppendColumnsThenAppend(s, Columns(s.n, currents[0], k), History(s1.n, currents[1..], k), s1.n);
    }
  }

  /** Processing two runs one after the other is processing the concatenated run: it
      does not matter how the currents were split into frames. */
  lemma {:induction false} ProcessAllConcat(s: Store, a: seq<real>, b: seq<real>, k: nat)
    requires Valid(s)
    ensures ProcessAll(s, a + b, k) == ProcessAll(ProcessAll(s, a, k), b, k)
    decreases |a|
  {
    if |a| == 0 {
      assert a + b == b;
    } else {
      assert (a + b)[0] == a[0];
      assert (a + b)[1..] == a[1..] + b;
      ProcessAllConcat(Process(s, a[0], k), a[1..], b, k);
    }
  }

  /** The whole store after a new probe has processed the currents: the count is k per
      current and the valid columns are the newest ResidentLength of their history. */
  lemma StoreFromInit(currents: seq<real>, k: nat)
    ensures ProcessAll(Init(), currents, k).n == |currents| * k
    ensures ProcessAll(Init(), currents, k).resident
         == History(0, currents, k)[|History(0, currents, k)| - ResidentLength(|History(0, currents, k)|)..]
  {
    ProcessAllAppendsHistory(Init(), currents, k);
    AppendsFromInit(History(0, currents, k));
  }

  /** Columns in strictly increasing count order. */
  predicate Increasing(rs: seq<Record>) {
    forall i, j :: 0 <= i < j < |rs| ==> rs[i].count < rs[j].count
  }

  /** Every count lies in (lo, hi]. */
  predicate CountsWithin(rs: seq<Record>, lo: int, hi: int) {
    forall i :: 0 <= i < |rs| ==> lo < rs[i].count <= hi
  }

  /** What the plot relies on: the valid columns run forward in count and none is ahead
      of the cumulative count. */
  predicate Ordered(s: Store) {
    Increasing(s.resident) && CountsWithin(s.resident, -1, s.n)
  }

  lemma ConcatIncreasing(a: seq<Record>, b: seq<Record>, lo: int, mid: int, hi: int)
    requires lo <= mid <= hi
    requires Increasing(a) && CountsWithin(a, lo, mid)
    requires Increasing(b) && CountsWithin(b, mid, hi)
    ensures Increasing(a + b) && CountsWithin(a + b, lo, hi)
  {
    var c := a + b;
    forall i, j | 0 <= i < j < |c|
      ensures c[i].count < c[j].count
    {
      if j < |a| {
        assert c[i] == a[i] && c[j] == a[j];
      } else if i >= |a| {
        assert c[i] == b[i - |a|] && c[j] == b[j - |a|];
      } else {
        assert c[i] == a[i] && c[j] == b[j - |a|];
      }
    }
    forall i | 0 <= i < |c|
      ensures lo < c[i].count <= hi
    {
      if i < |a| {
        assert c[i] == a[i];
      } else {
        assert c[i] == b[i - |a|];
      }
    }
  }

  lemma SuffixIncreasing(a: seq<Record>, b: seq<Record>, lo: int, hi: int)
    requires IsSuffix(a, b) && Increasing(b) && CountsWithin(b, lo, hi)
    ensures Increasing(a) && CountsWithin(a, lo, hi)
  {
    var d := |b| - |a|;
    assert forall i :: 0 <= i < |a| ==> a[i] == b[d + i];
  }

  /** With k at least 1 the history runs forward in count, from n + 1 to n + k per current. */
  lemma {:induction false} HistoryIncreasing(n: nat, currents: seq<real>, k: nat)
    requires k >= 1
    ensures Increasing(History(n, currents, k))
    ensures CountsWithin(History(n, currents, k), n, n + |currents| * k)
    decreases |currents|
  {
    if |currents| > 0 {
      var cs := Columns(n, currents[0], k);
      HistoryIncreasing(n + k, currents[1..], k);
      assert n + k + (|currents| - 1) * k == n + |currents| * k;
      ConcatIncreasing(cs, History(n + k, currents[1..], k), n, n + k, n + |currents| * k);
    }
  }

  /** process keeps the store ordered whenever each call counts at least one sample. */
  lemma ProcessAllKeepsOrder(s: Store, currents: seq<real>, k: nat)
    requires Valid(s) && Ordered(s) && k >= 1
    ensures Ordered(ProcessAll(s, currents, k))
  {
    var h := History(s.n, currents, k);
    var t := ProcessAll(s, currents, k);
    HistoryIncreasing(s.n, currents, k);
    ConcatIncreasing(s.resident, h, -1, s.n, t.n);
    ProcessAllAppendsHistory(s, currents, k);
    ResidentIsSuffix(s, h);
    SuffixIncreasing(t.resident, s.resident + h, -1, t.n);
  }
}
