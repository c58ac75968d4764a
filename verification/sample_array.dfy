/**
 The sample store as the program lays it out (power_profiler/power_profiler.py:48-50,
 136-170): the whole array, one Record per column, with `index` and `n` beside it.
 Nothing reads the columns at and after `index`. They hold either what np.empty
 left there, which the model fills with a fixed Filler record, or, after a
 compaction, the stale copy of the newer half that line 152 leaves in place. The
 lemmas show that writing a column and running index_inc on the array is Append on
 the valid columns, so every property of SampleBuffer holds of the array too.
 */
module SampleArray {
  import opened SampleBuffer

  /** The contents of columns np.empty allocates and nothing has written yet. */
  const Filler: Record := Record(0, 0.0)

  /** m columns straight from np.empty. */
  function Fill(m: nat): (cols: seq<Record>)
    ensures |cols| == m
  {
    if m == 0 then [] else Fill(m - 1) + [Filler]
  }

  /** self.data (one column per entry), self.index and self.n. */
  datatype Table = Table(data: seq<Record>, index: nat, n: nat)

  /** The array is one of the allowed widths and index addresses a column of it. */
  predicate TableValid(t: Table) {
    IsCapacity(|t.data|) && t.index < |t.data|
  }

  /** The view SampleBuffer describes: data[:, :index], the width and n. */
  function Abstract(t: Table): (s: Store)
    requires TableValid(t)
    ensures Valid(s) && s.capacity == |t.data| && |s.resident| == t.index && s.n == t.n
  {
    Store(t.data[..t.index], |t.data|, t.n)
  }

  /** Probe.__init__: np.empty((4, 1 << 12)), index 0, n 0. */
  function NewTable(): (t: Table)
    ensures TableValid(t) && Abstract(t) == Init()
  {
    Table(Fill(InitialCapacity), 0, 0)
  }

  /** self.data[:, self.index] = record. */
  function WriteColumn(t: Table, r: Record): (u: Table)
    requires TableValid(t)
    ensures TableValid(u) && u.index == t.index && u.n == t.n && |u.data| == |t.data|
    ensures u.data[t.index] == r
    ensures forall j :: 0 <= j < |t.data| && j != t.index ==> u.data[j] == t.data[j]
  {
    t.(data := t.data[t.index := r])
  }

  /** index_inc: advance index; when it reaches the width, double the array below
      MAX_HISTORY, and otherwise copy the newer half over the older half in place and
      move index back by half. */
  function IndexInc(t: Table): (u: Table)
    requires TableValid(t)
    ensures TableValid(u) && u.n == t.n
    ensures t.index + 1 < |t.data| ==> u == t.(index := t.index + 1)
  {
    var index := t.index + 1;
    if index < |t.data| then t.(index := index)
    else if index < MaxHistory then
      t.(data := t.data + Fill(|t.data|), index := index)
    else
      assert |t.data| == MaxHistory;
      t.(data := t.data[Half..] + t.data[Half..], index := index - Half)
  }

  /** Through growth and compaction, the column index_inc leaves just below index is
      the one it was called on. */
  lemma IndexIncKeepsNewest(t: Table)
    requires TableValid(t)
    ensures var u := IndexInc(t); u.index > 0 && u.data[u.index - 1] == t.data[t.index]
  {
  }

  /** The array-level process: each write followed by index_inc, as in the source. */
  function TableProcess(t: Table, current: real, k: nat): (u: Table)
    requires TableValid(t)
    ensures TableValid(u) && u.n == t.n + k
  {
    var t1 := if k > 1 then IndexInc(WriteColumn(t, Record(t.n + 1, current))) else t;
    var t2 := t1.(n := t.n + k);
    IndexInc(WriteColumn(t2, Record(t2.n, current)))
  }

  /** After process on the array, the newest valid column records the new count and
      the current, wherever growth or compaction moved it. */
  lemma TableProcessNewest(t: Table, current: real, k: nat)
    requires TableValid(t)
    ensures var u := TableProcess(t, current, k);
      u.index > 0 && u.data[u.index - 1] == Record(t.n + k, current)
  {
    var t1 := if k > 1 then IndexInc(WriteColumn(t, Record(t.n + 1, current))) else t;
    IndexIncKeepsNewest(WriteColumn(t1.(n := t.n + k), Record(t.n + k, current)));
  }

  /** get(): the array and the index; the caller reads data[:, :index]. */
  function Get(t: Table): (snapshot: (seq<Record>, nat))
    requires TableValid(t)
    ensures snapshot.1 <= |snapshot.0| && snapshot.0[..snapshot.1] == Abstract(t).resident
  {
    (t.data, t.index)
  }

  /** The written column followed by index_inc keeps the valid columns when the array
      has room. */
  lemma IncWithinRefines(t: Table, r: Record)
    requires TableValid(t) && t.index + 1 < |t.data|
    ensures Abstract(IndexInc(WriteColumn(t, r))) == Append(Abstract(t), r)
  {
    var w := WriteColumn(t, r);
    assert w.data[..t.index + 1] == t.data[..t.index] + [r];
  }

  /** Doubling keeps every written column in place. */
  lemma IncGrowRefines(t: Table, r: Record)
    requires TableValid(t) && t.index + 1 == |t.data| < MaxHistory
    ensures Abstract(IndexInc(WriteColumn(t, r))) == Append(Abstract(t), r)
  {
    var w := WriteColumn(t, r);
    var u := IndexInc(w);
    assert u.data[..u.index] == w.data;
    assert w.data == t.data[..t.index] + [r];
  }

  /** The in-place copy of data[:, half:] onto data[:, :half] leaves the newest half of
      the columns at the front, in order. */
  lemma IncCompactRefines(t: Table, r: Record)
    requires TableValid(t) && t.index + 1 == |t.data| == MaxHistory
    ensures Abstract(IndexInc(WriteColumn(t, r))) == Append(Abstract(t), r)
  {
    var w := WriteColumn(t, r);
    var u := IndexInc(w);
    assert u.index == Half;
    assert u.data[..Half] == w.data[Half..];
    assert w.data == t.data[..t.index] + [r];
  }

  /** Writing a column and running index_inc on the array is Append on its valid columns. */
  lemma WriteIncRefines(t: Table, r: Record)
    requires TableValid(t)
    ensures Abstract(IndexInc(WriteColumn(t, r))) == Append(Abstract(t), r)
  {
    if t.index + 1 < |t.data| {
      IncWithinRefines(t, r);
    } else if t.index + 1 < MaxHistory {
      IncGrowRefines(t, r);
    } else {
      IncCompactRefines(t, r);
    }
  }

  /** The same with the count changed first, as process does before its last write. */
  lemma WriteIncAfterCount(t: Table, r: Record, m: nat)
    requires TableValid(t)
    ensures Abstract(IndexInc(WriteColumn(t.(n := m), r))) == Append(Abstract(t), r).(n := m)
  {
    WriteIncRefines(t.(n := m), r);
    assert Abstract(t.(n := m)) == Abstract(t).(n := m);
  }

  lemma TableProcessOne(t: Table, current: real, k: nat)
    requires TableValid(t) && k <= 1
    ensures Abstract(TableProcess(t, current, k)) == Process(Abstract(t), current, k)
  {
    WriteIncAfterCount(t, Record(t.n + k, current), t.n + k);
  }

  lemma TableProcessTwo(t: Table, current: real, k: nat)
    requires TableValid(t) && k > 1
    ensures Abstract(TableProcess(t, current, k)) == Process(Abstract(t), current, k)
  {
    var first := Record(t.n + 1, current);
    var last := Record(t.n + k, current);
    var t1 := IndexInc(WriteColumn(t, first));
    assert TableProcess(t, current, k) == IndexInc(WriteColumn(t1.(n := t.n + k), last));
    WriteIncRefines(t, first);
    WriteIncAfterCount(t1, last, t.n + k);
    ProcessTwoAppends(Abstract(t), current, k);
  }

  /** process on the array is Process on its valid columns. */
  lemma TableProcessRefines(t: Table, current: real, k: nat)
    requires TableValid(t)
    ensures Abstract(TableProcess(t, current, k)) == Process(Abstract(t), current, k)
  {
    if k > 1 {
      TableProcessTwo(t, current, k);
    } else {
      TableProcessOne(t, current, k);
    }
  }
}
