/** The seat map component: a fixed 8 x 10 grid of seats labelled "A1" to
    "H10", a deterministic set of pre-filled seats derived from two counts,
    and a selection bounded by a quota. */
module SeatMap {
  import opened Common
  import opened StringOrder

  const Rows: nat := 8
  const Cols: nat := 10
  const GridSize: nat := Rows * Cols
  const RowLabels: string := "ABCDEFGH"

  /** JavaScript's `String(n)` for a non-negative integer: decimal digits,
      no leading zeros. */
  function DecimalString(n: nat): (r: string)
    ensures |r| > 0
    decreases n
  {
    if n < 10 then [(48 + n) as char]
    else DecimalString(n / 10) + [(48 + n % 10) as char]
  }

  /** The seat label `${ROW_LABELS[row]}${col + 1}`. */
  function SeatId(row: nat, col: nat): string
    requires row < Rows && col < Cols
  {
    [RowLabels[row]] + DecimalString(col + 1)
  }

  /** A valid grid id, stated independently of the label formula: a row
      letter 'A'..'H' followed by a column numeral 1..10. */
  predicate IsSeatId(s: string) {
    && 2 <= |s| <= 3
    && 'A' <= s[0] <= 'H'
    && (if |s| == 2 then '1' <= s[1] <= '9' else s[1] == '1' && s[2] == '0')
  }

  lemma RowLabelIsLetter(row: nat)
    requires row < Rows
    ensures RowLabels[row] as int == 'A' as int + row
  {
    assert RowLabels == ['A', 'B', 'C', 'D', 'E', 'F', 'G', 'H'];
  }

  lemma ColumnLabel(col: nat)
    requires col < Cols
    ensures col < 9 ==> DecimalString(col + 1) == [(49 + col) as char]
    ensures col == 9 ==> DecimalString(col + 1) == "10"
  {
    if col == 9 {
      assert DecimalString(10) == DecimalString(1) + ['0'];
    }
  }

  lemma SeatIdIsValid(row: nat, col: nat)
    requires row < Rows && col < Cols
    ensures IsSeatId(SeatId(row, col))
  {
    RowLabelIsLetter(row);
    ColumnLabel(col);
  }

  /** Distinct grid positions have distinct labels. */
  lemma SeatIdInjective(r1: nat, c1: nat, r2: nat, c2: nat)
    requires r1 < Rows && c1 < Cols && r2 < Rows && c2 < Cols
    requires SeatId(r1, c1) == SeatId(r2, c2)
    ensures r1 == r2 && c1 == c2
  {
    RowLabelIsLetter(r1);
    RowLabelIsLetter(r2);
    assert SeatId(r1, c1)[0] == SeatId(r2, c2)[0];
    ColumnLabel(c1);
    ColumnLabel(c2);
    assert SeatId(r1, c1)[1..] == DecimalString(c1 + 1);
    assert SeatId(r2, c2)[1..] == DecimalString(c2 + 1);
    if c1 < 9 && c2 < 9 {
      assert DecimalString(c1 + 1)[0] == DecimalString(c2 + 1)[0];
    }
  }

  /** The seat at row-major position k of the grid. */
  function SeatAt(k: nat): string
    requires k < GridSize
  {
    SeatId(k / Cols, k % Cols)
  }

  /** The seat the scatter pattern marks when visiting grid cell (r, c):
      the seat at row-major position (r * 3 + c * 7 + 5) mod GridSize. */
  function ScatterSeat(r: nat, c: nat): string
  {
    var idx := (r * 3 + c * 7 + 5) % GridSize;
    var row := idx / Cols;
    var col := idx % Cols;
    SeatId(row, col)
  }

  /** The seats in the order the scatter pass proposes them. */
  function ScatterOrder(): (s: seq<string>)
    ensures |s| == GridSize
  {
    seq(GridSize, k requires 0 <= k < GridSize => ScatterSeat(k / Cols, k % Cols))
  }

  /** The seats in plain row-major order, as the fall-back pass proposes them. */
  function RowMajorOrder(): (s: seq<string>)
    ensures |s| == GridSize
  {
    seq(GridSize, k requires 0 <= k < GridSize => SeatAt(k))
  }

  /** Scatter pass, then fall-back pass. */
  function ProposalOrder(): (s: seq<string>)
    ensures |s| == 2 * GridSize
  {
    ScatterOrder() + RowMajorOrder()
  }

  /** How many seats the map shows as taken. */
  function FilledCount(totalSeats: int, availableSeats: int): int {
    Max(0, Min(GridSize, totalSeats) - availableSeats)
  }

  /** Walks `order` from position `p`, adding every seat not yet in `acc`,
      and stops as soon as `acc` holds `target` seats. */
  function Fill(order: seq<string>, p: nat, acc: set<string>, target: int): set<string>
    decreases |order| - p
  {
    if p >= |order| || |acc| >= target then acc
    else Fill(order, p + 1, if order[p] in acc then acc else acc + {order[p]}, target)
  }

  /** The filled seats of the map, as a function of its two counts only. */
  function FilledSeats(totalSeats: int, availableSeats: int): set<string> {
    Fill(ProposalOrder(), 0, {}, FilledCount(totalSeats, availableSeats))
  }

  function Elements(s: seq<string>): set<string> {
    set x | x in s
  }

  /** Every seat of the grid. */
  function AllSeats(): set<string> {
    Elements(RowMajorOrder())
  }

  lemma {:induction false} FillSize(order: seq<string>, p: nat, acc: set<string>, target: int)
    requires p <= |order|
    ensures acc <= Fill(order, p, acc, target) <= acc + Elements(order[p..])
    ensures |Fill(order, p, acc, target)| ==
            if |acc| >= target then |acc| else Min(target, |acc + Elements(order[p..])|)
    decreases |order| - p
  {
    if p == |order| {
      assert Elements(order[p..]) == {};
      assert acc + Elements(order[p..]) == acc;
    } else if |acc| < target {
      var acc' := if order[p] in acc then acc else acc + {order[p]};
      var rest := order[p + 1..];
      assert order[p..] == [order[p]] + rest;
      assert acc' + Elements(rest) == acc + Elements(order[p..]);
      FillSize(order, p + 1, acc', target);
      if |acc'| >= target {
        SubsetSize(acc', acc + Elements(order[p..]));
      }
    }
  }

  lemma {:induction false} SubsetSize(a: set<string>, b: set<string>)
    requires a <= b
    ensures |a| <= |b|
  {
    assert b == a + (b - a);
  }

  lemma {:induction false} DistinctElements(s: seq<string>)
    requires forall i, j :: 0 <= i < j < |s| ==> s[i] != s[j]
    ensures |Elements(s)| == |s|
  {
    if |s| > 0 {
      var t := s[1..];
      assert Elements(s) == {s[0]} + Elements(t);
      assert s[0] !in Elements(t);
      DistinctElements(t);
    }
  }

  lemma PositionFromCell(r: nat, c: nat)
    requires c < Cols
    ensures (r * Cols + c) / Cols == r && (r * Cols + c) % Cols == c
  {
  }

  /** A valid id is the label of a grid cell, namely cell (letter, numeral - 1). */
  lemma {:induction false} ValidIdIsGridSeat(s: string)
    requires IsSeatId(s)
    ensures s in AllSeats()
  {
    var row: nat := s[0] as int - 'A' as int;
    var col: nat := if |s| == 2 then s[1] as int - '1' as int else 9;
    RowLabelIsLetter(row);
    ColumnLabel(col);
    assert SeatId(row, col) == s;
    PositionFromCell(row, col);
    assert RowMajorOrder()[row * Cols + col] == s;
  }

  lemma AllSeatsSize()
    ensures |AllSeats()| == GridSize
    ensures forall s :: s in AllSeats() <==> IsSeatId(s)
  {
    var rm := RowMajorOrder();
    forall i, j | 0 <= i < j < |rm| ensures rm[i] != rm[j] {
      if rm[i] == rm[j] {
        SeatIdInjective(i / Cols, i % Cols, j / Cols, j % Cols);
      }
    }
    DistinctElements(rm);
    forall s | s in AllSeats() ensures IsSeatId(s) {
      var k :| 0 <= k < |rm| && rm[k] == s;
      SeatIdIsValid(k / Cols, k % Cols);
    }
    forall s | IsSeatId(s) ensures s in AllSeats() {
      ValidIdIsGridSeat(s);
    }
  }

  /** The filled set holds exactly min(80, FilledCount) seats, all of them
      valid grid ids: the fall-back pass tops up whatever the scatter pass
      missed because of collisions. */
  lemma FilledSeatsSpec(totalSeats: int, availableSeats: int)
    ensures |FilledSeats(totalSeats, availableSeats)| ==
            Min(GridSize, FilledCount(totalSeats, availableSeats))
    ensures forall s :: s in FilledSeats(totalSeats, availableSeats) ==> IsSeatId(s)
  {
    var order := ProposalOrder();
    AllSeatsSize();
    forall s | s in Elements(order) ensures s in AllSeats() {
      var k :| 0 <= k < |order| && order[k] == s;
      if k < GridSize {
        var idx := ((k / Cols) * 3 + (k % Cols) * 7 + 5) % GridSize;
        SeatIdIsValid(idx / Cols, idx % Cols);
      } else {
        assert order[k] == RowMajorOrder()[k - GridSize];
      }
    }
    forall s | s in AllSeats() ensures s in Elements(order) {
      var k :| 0 <= k < GridSize && RowMajorOrder()[k] == s;
      assert order[GridSize + k] == s;
    }
    assert Elements(order) == AllSeats();
    assert order[0..] == order;
    assert {} + Elements(order[0..]) == AllSeats();
    FillSize(order, 0, {}, FilledCount(totalSeats, availableSeats));
  }

  /** Once the target is reached the rest of the walk adds nothing. */
  lemma FillDone(order: seq<string>, p: nat, acc: set<string>, target: int)
    requires |acc| >= target
    ensures Fill(order, p, acc, target) == acc
  {
  }

  /** Walking two orders one after the other is walking their concatenation. */
  lemma {:induction false} FillConcat(a: seq<string>, b: seq<string>, p: nat, acc: set<string>, target: int)
    requires p <= |a|
    ensures Fill(a + b, p, acc, target) == Fill(b, 0, Fill(a, p, acc, target), target)
    decreases |a| - p
  {
    if p == |a| {
      FillShift(a, b, 0, acc, target);
    } else if |acc| < target {
      assert (a + b)[p] == a[p];
      FillConcat(a, b, p + 1, if a[p] in acc then acc else acc + {a[p]}, target);
    } else {
      FillDone(b, 0, acc, target);
    }
  }

  /** Walking `a + b` past the end of `a` is walking `b`. */
  lemma {:induction false} FillShift(a: seq<string>, b: seq<string>, q: nat, acc: set<string>, target: int)
    requires q <= |b|
    ensures Fill(a + b, |a| + q, acc, target) == Fill(b, q, acc, target)
    decreases |b| - q
  {
    if q < |b| && |acc| < target {
      assert (a + b)[|a| + q] == b[q];
      FillShift(a, b, q + 1, if b[q] in acc then acc else acc + {b[q]}, target);
    }
  }

  lemma ScatterProposal(r: nat, c: nat)
    requires r < Rows && c < Cols
    ensures ScatterOrder()[r * Cols + c] == ScatterSeat(r, c)
  {
    PositionFromCell(r, c);
  }

  lemma RowMajorProposal(r: nat, c: nat)
    requires r < Rows && c < Cols
    ensures RowMajorOrder()[r * Cols + c] == SeatId(r, c)
  {
    PositionFromCell(r, c);
  }

  /** Row r of `order` holds, cell by cell, the seats the scatter formula
      gives for that row. */
  ghost predicate ScatterRowCells(order: seq<string>, r: nat) {
    |order| == GridSize && r < Rows && forall c :: 0 <= c < Cols ==> order[r * Cols + c] == ScatterSeat(r, c)
  }

  /** Row r of `order` holds the seats of row r, left to right. */
  ghost predicate RowMajorRowCells(order: seq<string>, r: nat) {
    |order| == GridSize && r < Rows && forall c :: 0 <= c < Cols ==> order[r * Cols + c] == SeatId(r, c)
  }

  lemma ScatterOrderRows()
    ensures forall r :: 0 <= r < Rows ==> ScatterRowCells(ScatterOrder(), r)
  {
    forall r | 0 <= r < Rows ensures ScatterRowCells(ScatterOrder(), r) {
      forall c | 0 <= c < Cols ensures ScatterOrder()[r * Cols + c] == ScatterSeat(r, c) {
        ScatterProposal(r, c);
      }
    }
  }

  lemma RowMajorOrderRows()
    ensures forall r :: 0 <= r < Rows ==> RowMajorRowCells(RowMajorOrder(), r)
  {
    forall r | 0 <= r < Rows ensures RowMajorRowCells(RowMajorOrder(), r) {
      forall c | 0 <= c < Cols ensures RowMajorOrder()[r * Cols + c] == SeatId(r, c) {
        RowMajorProposal(r, c);
      }
    }
  }

  /** One row of the scatter pass: visit the cells of row r left to right
      and mark the seat at each cell's scatter position, stopping once
      enough seats are marked. `order` is the scatter order, of which only
      row r's cells are needed here. */
  method ScatterRow(ghost order: seq<string>, r: nat, filled0: set<string>, count0: int, filledCount: int)
    returns (filled: set<string>, count: int)
    requires ScatterRowCells(order, r) && count0 == |filled0|
    ensures count == |filled|
    ensures Fill(order, (r + 1) * Cols, filled, filledCount) == Fill(order, r * Cols, filled0, filledCount)
  {
    ghost var goal := Fill(order, r * Cols, filled0, filledCount);
    filled, count := filled0, count0;
    var c := 0;
    while c < Cols && count < filledCount
      invariant 0 <= c <= Cols
      invariant count == |filled|
      invariant Fill(order, r * Cols + c, filled, filledCount) == goal
    {
      var seatId := ScatterSeat(r, c);
      if seatId !in filled {
        filled := filled + {seatId};
        count := count + 1;
      }
      c := c + 1;
    }
    if count >= filledCount {
      FillDone(order, (r + 1) * Cols, filled, filledCount);
    }
  }

  /** The scatter pass of `filledSeats`: rows top to bottom, until enough
      seats are marked. */
  method ScatterPass(ghost order: seq<string>, filledCount: int) returns (filled: set<string>, count: int)
    requires |order| == GridSize && forall r :: 0 <= r < Rows ==> ScatterRowCells(order, r)
    ensures count == |filled|
    ensures filled == Fill(order, 0, {}, filledCount)
  {
    filled, count := {}, 0;
    ghost var goal := Fill(order, 0, filled, filledCount);
    var r := 0;
    while r < Rows && count < filledCount
      invariant 0 <= r <= Rows
      invariant count == |filled|
      invariant Fill(order, r * Cols, filled, filledCount) == goal
    {
      filled, count := ScatterRow(order, r, filled, count, filledCount);
      r := r + 1;
    }
    if count >= filledCount {
      FillDone(order, r * Cols, filled, filledCount);
    }
  }

  /** One row of the fall-back pass: mark the unmarked seats of row r left
      to right, stopping once enough seats are marked. `order` is the
      row-major order, of which only row r's cells are needed here. */
  method FallbackRow(ghost order: seq<string>, r: nat, filled0: set<string>, count0: int, filledCount: int)
    returns (filled: set<string>, count: int)
    requires RowMajorRowCells(order, r) && count0 == |filled0|
    ensures count == |filled|
    ensures Fill(order, (r + 1) * Cols, filled, filledCount) == Fill(order, r * Cols, filled0, filledCount)
  {
    ghost var goal := Fill(order, r * Cols, filled0, filledCount);
    filled, count := filled0, count0;
    var c := 0;
    while c < Cols && count < filledCount
      invariant 0 <= c <= Cols
      invariant count == |filled|
      invariant Fill(order, r * Cols + c, filled, filledCount) == goal
    {
      var seatId := SeatId(r, c);
      if seatId !in filled {
        filled := filled + {seatId};
        count := count + 1;
      }
      c := c + 1;
    }
    if count >= filledCount {
      FillDone(order, (r + 1) * Cols, filled, filledCount);
    }
  }

  /** The fall-back pass of `filledSeats`: rows top to bottom, until enough
      seats are marked. */
  method FallbackPass(ghost order: seq<string>, filled0: set<string>, count0: int, filledCount: int)
    returns (filled: set<string>, count: int)
    requires |order| == GridSize && forall r :: 0 <= r < Rows ==> RowMajorRowCells(order, r)
    requires count0 == |filled0|
    ensures count == |filled|
    ensures filled == Fill(order, 0, filled0, filledCount)
  {
    ghost var goal := Fill(order, 0, filled0, filledCount);
    filled, count := filled0, count0;
    var r := 0;
    while r < Rows && count < filledCount
      invariant 0 <= r <= Rows
      invariant count == |filled|
      invariant Fill(order, r * Cols, filled, filledCount) == goal
    {
      filled, count := FallbackRow(order, r, filled, count, filledCount);
      r := r + 1;
    }
    if count >= filledCount {
      FillDone(order, r * Cols, filled, filledCount);
    }
  }

  /** The scatter pass followed by the fall-back pass from where it stopped
      is the whole walk of `FilledSeats`. */
  lemma PassesMakeFilledSeats(totalSeats: int, availableSeats: int, scatter: set<string>, result: set<string>)
    requires scatter == Fill(ScatterOrder(), 0, {}, FilledCount(totalSeats, availableSeats))
    requires result == Fill(RowMajorOrder(), 0, scatter, FilledCount(totalSeats, availableSeats))
    ensures result == FilledSeats(totalSeats, availableSeats)
  {
    FillConcat(ScatterOrder(), RowMajorOrder(), 0, {}, FilledCount(totalSeats, availableSeats));
  }

  /** The `filledSeats` computation: the scatter pass and, only if it fell
      short because of collisions, the fall-back pass. */
  method ComputeFilledSeats(totalSeats: int, availableSeats: int) returns (filled: set<string>)
    ensures filled == FilledSeats(totalSeats, availableSeats)
  {
    ghost var scatterOrder, rowMajorOrder := ScatterOrder(), RowMajorOrder();
    ScatterOrderRows();
    RowMajorOrderRows();
    var seatCount := Min(Rows * Cols, totalSeats);
    var filledCount := Max(0, seatCount - availableSeats);
    var scatter, count := ScatterPass(scatterOrder, filledCount);
    filled := scatter;
    if count < filledCount {
      filled, count := FallbackPass(rowMajorOrder, filled, count, filledCount);
    } else {
      FillDone(rowMajorOrder, 0, filled, filledCount);
    }
    assert filledCount == FilledCount(totalSeats, availableSeats);
    PassesMakeFilledSeats(totalSeats, availableSeats, scatter, filled);
  }

  /** Under the plain string order the confirm step uses, "A10" sorts
      before "A2". */
  lemma DoubleDigitColumnSortsFirst()
    ensures SeatId(0, 9) == "A10" && SeatId(0, 1) == "A2"
    ensures LexLess(SeatId(0, 9), SeatId(0, 1))
  {
    ColumnLabel(9);
    ColumnLabel(1);
  }

  /** One mounted seat map: its fixed inputs, the filled seats derived from
      them, and the user's current selection. */
  class Grid {
    const totalSeats: int
    const availableSeats: int
    const maxSelectable: int
    const filled: set<string>
    var selected: set<string>

    /** The selection never holds a filled seat and never grows past the quota. */
    ghost predicate Valid()
      reads this
    {
      && filled == FilledSeats(totalSeats, availableSeats)
      && selected !! filled
      && |selected| <= Max(0, maxSelectable)
    }

    constructor (totalSeats: int, availableSeats: int, maxSelectable: int)
      ensures Valid()
      ensures this.totalSeats == totalSeats && this.availableSeats == availableSeats
      ensures this.maxSelectable == maxSelectable
      ensures selected == {}
    {
      this.totalSeats := totalSeats;
      this.availableSeats := availableSeats;
      this.maxSelectable := maxSelectable;
      var f := ComputeFilledSeats(totalSeats, availableSeats);
      filled := f;
      selected := {};
    }

    /** `toggleSeat`: a filled seat is ignored; a selected seat is removed;
        an unselected seat is added only while the selection is below the
        quota. No other seat's membership changes. */
    method Toggle(seatId: string)
      requires Valid()
      modifies this`selected
      ensures Valid()
      ensures seatId in filled ==> selected == old(selected)
      ensures seatId !in filled && seatId in old(selected) ==> selected == old(selected) - {seatId}
      ensures seatId !in filled && seatId !in old(selected) ==>
                selected == if |old(selected)| < maxSelectable then old(selected) + {seatId}
                            else old(selected)
      ensures forall s :: s != seatId ==> (s in selected <==> s in old(selected))
    {
      if seatId in filled {
        return;
      }
      var next := selected;
      if seatId in next {
        next := next - {seatId};
      } else if |next| < maxSelectable {
        next := next + {seatId};
      }
      selected := next;
    }

    /** The "Confirm Seats" button: enabled only when the selection has
        exactly the quota, and then it hands on the selected ids sorted in
        plain string order, each once. */
    method Confirm() returns (r: Option<seq<string>>)
      requires Valid()
      ensures r.Some? <==> |selected| == maxSelectable
      ensures r.Some? ==> StrictlyAscending(r.value)
      ensures r.Some? ==> |r.value| == |selected|
      ensures r.Some? ==> forall s :: s in r.value <==> s in selected
    {
      if |selected| != maxSelectable {
        return None;
      }
      var sorted := SortedElements(selected);
      return Some(sorted);
    }
  }
}
