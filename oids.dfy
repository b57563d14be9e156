/**
 * The OID composition of the request handlers in main.go: dotted OIDs built
 * from path variables and body fields into slices allocated with `make` and
 * filled by index.
 */
module Oids {
  import opened Strings

  // ---------------------------------------------------------------- reference definitions

  /** The tabular entry `base.field.index`. */
  function TableOid(base: string, field: string, index: string): string
  {
    base + "." + field + "." + index
  }

  /** The OIDs of all fields at one row index, in field order. */
  function RowOids(base: string, fields: seq<string>, index: string): seq<string>
  {
    seq(|fields|, j requires 0 <= j < |fields| => TableOid(base, fields[j], index))
  }

  /** The index-major cross product: every field at indexes[0], then every field at indexes[1], and so on. */
  function CrossProduct(base: string, fields: seq<string>, indexes: seq<string>): seq<string>
    decreases |indexes|
  {
    if |indexes| == 0 then []
    else RowOids(base, fields, indexes[0]) + CrossProduct(base, fields, indexes[1..])
  }

  /** A table OID with dot-free field and index splits back into the base's pieces, the field and the index. */
  lemma TableOidSplits(base: string, field: string, index: string)
    requires '.' !in field && '.' !in index
    ensures Split(TableOid(base, field, index), '.') == Split(base, '.') + [field, index]
  {
    assert TableOid(base, field, index) == (base + ['.'] + field) + ['.'] + index;
    SplitAppend(base + ['.'] + field, index, '.');
    SplitAppend(base, field, '.');
    SplitFree(field, '.');
    SplitFree(index, '.');
  }

  lemma {:induction false} CrossProductLength(base: string, fields: seq<string>, indexes: seq<string>)
    ensures |CrossProduct(base, fields, indexes)| == |fields| * |indexes|
    decreases |indexes|
  {
    if |indexes| > 0 {
      CrossProductLength(base, fields, indexes[1..]);
      assert |fields| * |indexes| == |fields| + |fields| * (|indexes| - 1);
    }
  }

  /** Slot i*|fields|+j of the cross product is field j at index i. */
  lemma {:induction false} CrossProductAt(base: string, fields: seq<string>, indexes: seq<string>, i: nat, j: nat)
    requires i < |indexes| && j < |fields|
    ensures |CrossProduct(base, fields, indexes)| == |fields| * |indexes|
    ensures i * |fields| + j < |fields| * |indexes|
    ensures CrossProduct(base, fields, indexes)[i * |fields| + j] == TableOid(base, fields[j], indexes[i])
    decreases i
  {
    CrossProductLength(base, fields, indexes);
    MulStep(i, |indexes|, |fields|);
    if i > 0 {
      CrossProductAt(base, fields, indexes[1..], i - 1, j);
      assert (i - 1) * |fields| + j == i * |fields| + j - |fields|;
    }
  }

  lemma {:induction false} CrossProductSnoc(base: string, fields: seq<string>, indexes: seq<string>, x: string)
    ensures CrossProduct(base, fields, indexes + [x]) == CrossProduct(base, fields, indexes) + RowOids(base, fields, x)
    decreases |indexes|
  {
    if |indexes| == 0 {
      assert ([x])[1..] == [];
    } else {
      assert (indexes + [x])[1..] == indexes[1..] + [x];
      CrossProductSnoc(base, fields, indexes[1..], x);
    }
  }

  // ---------------------------------------------------------------- arithmetic

  lemma {:induction false} MulMono(a: int, b: int, c: nat)
    requires a <= b
    ensures a * c <= b * c
    decreases c
  {
    if c > 0 {
      MulMono(a, b, c - 1);
      assert a * c == a * (c - 1) + a;
      assert b * c == b * (c - 1) + b;
    }
  }

  lemma MulPred(a: int, b: int)
    ensures (a - 1) * b == b * a - b
  {
  }

  /** A row that starts before the last one ends within the table. */
  lemma MulStep(i: nat, n: nat, w: nat)
    requires i < n
    ensures i * w + w <= w * n
  {
    MulMono(i + 1, n, w);
    assert (i + 1) * w == i * w + w;
  }

  // ---------------------------------------------------------------- what a filling loop leaves

  /** The zero-filled slice `make([]string, n)`. */
  function Blank(n: nat): seq<string>
  {
    seq(n, _ => "")
  }

  /** `a` after `row` is written from position `start` on (positions past the end never arise). */
  function WriteRow(a: seq<string>, start: int, row: seq<string>): seq<string>
  {
    seq(|a|, k requires 0 <= k < |a| => if start <= k < start + |row| then row[k - start] else a[k])
  }

  /** `a` after rows 0 .. n-1 of the fields-by-indexes table are written, row r from position r*stride on. */
  function WriteRows(a: seq<string>, base: string, fields: seq<string>, indexes: seq<string>, stride: int, n: nat): (r: seq<string>)
    requires n <= |indexes|
    ensures |r| == |a|
  {
    if n == 0 then a
    else WriteRow(WriteRows(a, base, fields, indexes, stride, n - 1), (n - 1) * stride, RowOids(base, fields, indexes[n - 1]))
  }

  lemma WriteRowExtend(a: seq<string>, start: int, row: seq<string>, x: string)
    requires 0 <= start && start + |row| < |a|
    ensures WriteRow(a, start, row)[start + |row| := x] == WriteRow(a, start, row + [x])
  {
  }

  lemma RowOidsExtend(base: string, fields: seq<string>, index: string, j: nat)
    requires j < |fields|
    ensures RowOids(base, fields[..j + 1], index) == RowOids(base, fields[..j], index) + [TableOid(base, fields[j], index)]
  {
  }

  lemma WriteRowConcat(p: seq<string>, q: seq<string>, row: seq<string>)
    requires |row| <= |q|
    ensures WriteRow(p + q, |p|, row) == p + row + q[|row|..]
  {
  }

  /** Writing field j of a row at its place extends the row written so far by one entry. */
  lemma RowStep(done: seq<string>, start: nat, base: string, fields: seq<string>, index: string, j: nat)
    requires j < |fields| && start + j < |done|
    ensures WriteRow(done, start, RowOids(base, fields[..j], index))[start + j := TableOid(base, fields[j], index)]
         == WriteRow(done, start, RowOids(base, fields[..j + 1], index))
  {
    WriteRowExtend(done, start, RowOids(base, fields[..j], index), TableOid(base, fields[j], index));
    RowOidsExtend(base, fields, index, j);
  }

  /** Once all fields of row n are written, the slice is the one after n+1 rows. */
  lemma RowsStep(a: seq<string>, base: string, fields: seq<string>, indexes: seq<string>, stride: int, n: nat)
    requires n < |indexes|
    ensures WriteRow(WriteRows(a, base, fields, indexes, stride, n), n * stride, RowOids(base, fields[..|fields|], indexes[n]))
         == WriteRows(a, base, fields, indexes, stride, n + 1)
  {
    assert fields[..|fields|] == fields;
  }

  /** A slot past the end of every row written so far keeps its initial value. */
  lemma {:induction false} WriteRowsBeyond(a: seq<string>, base: string, fields: seq<string>, indexes: seq<string>, stride: nat, n: nat, k: nat)
    requires n <= |indexes| && k < |a|
    requires n >= 1 ==> (n - 1) * stride + |fields| <= k
    ensures WriteRows(a, base, fields, indexes, stride, n)[k] == a[k]
    decreases n
  {
    if n >= 1 {
      if n >= 2 {
        assert (n - 2) * stride + stride == (n - 1) * stride;
      }
      WriteRowsBeyond(a, base, fields, indexes, stride, n - 1, k);
    }
  }

  /** With stride |fields| the rows tile the slice: after n rows its front is the cross product of the first n indexes. */
  lemma {:induction false} TiledRows(base: string, fields: seq<string>, indexes: seq<string>, n: nat)
    requires n <= |indexes|
    ensures n * |fields| <= |fields| * |indexes|
    ensures WriteRows(Blank(|fields| * |indexes|), base, fields, indexes, |fields|, n)
         == CrossProduct(base, fields, indexes[..n]) + Blank(|fields| * |indexes| - n * |fields|)
    decreases n
  {
    var total := |fields| * |indexes|;
    MulMono(n, |indexes|, |fields|);
    if n == 0 {
      assert indexes[..0] == [];
    } else {
      TiledRows(base, fields, indexes, n - 1);
      var front := CrossProduct(base, fields, indexes[..n - 1]);
      CrossProductLength(base, fields, indexes[..n - 1]);
      assert |front| == (n - 1) * |fields|;
      MulStep(n - 1, |indexes|, |fields|);
      var rest := Blank(total - (n - 1) * |fields|);
      var row := RowOids(base, fields, indexes[n - 1]);
      WriteRowConcat(front, rest, row);
      assert rest[|row|..] == Blank(total - n * |fields|);
      assert indexes[..n] == indexes[..n - 1] + [indexes[n - 1]];
      CrossProductSnoc(base, fields, indexes[..n - 1], indexes[n - 1]);
    }
  }

  // ---------------------------------------------------------------- the cross-product loop as written

  /** The inner loop of the cross product: field j at `index` goes to slot start+j. */
  method WriteRowAt(a: array<string>, start: nat, oid: string, fields: seq<string>, index: string)
    requires |fields| == 0 || start + |fields| <= a.Length
    modifies a
    ensures a[..] == WriteRow(old(a[..]), start, RowOids(oid, fields, index))
  {
    ghost var done := a[..];
    for j := 0 to |fields|
      invariant a[..] == WriteRow(done, start, RowOids(oid, fields[..j], index))
    {
      ghost var cur := a[..];
      a[start + j] := oid + "." + fields[j] + "." + index;
      assert a[..] == cur[start + j := TableOid(oid, fields[j], index)];
      RowStep(done, start, oid, fields, index, j);
    }
    assert fields[..|fields|] == fields;
  }

  /**
   * The write position of the cross-product loop in GetHandler: row i starts at
   * i*(|indexes|+1), which is a row's width only when |fields| == |indexes|+1.
   */
  function WritePos(i: int, j: int, numIndexes: int): int
  {
    i * (numIndexes + 1) + j
  }

  /** Every write of the loop lands inside the |fields|*|indexes| slice (otherwise Go panics). */
  predicate InBounds(numFields: nat, numIndexes: nat)
  {
    numFields == 0 || numIndexes <= 1 || numFields >= numIndexes + 1
  }

  lemma StridePosInBounds(i: nat, j: nat, numFields: nat, numIndexes: nat)
    requires InBounds(numFields, numIndexes) && i < numIndexes && j < numFields
    ensures WritePos(i, j, numIndexes) < numFields * numIndexes
  {
    if numIndexes >= 2 {
      MulMono(i, numIndexes - 1, numIndexes + 1);
      MulMono(numIndexes + 1, numFields, numIndexes - 1);
      assert (numIndexes - 1) * (numIndexes + 1) <= numFields * (numIndexes - 1);
      assert numFields * (numIndexes - 1) == numFields * numIndexes - numFields;
    }
  }

  /** Under InBounds every non-empty row of the loop, from its start position on, fits in the slice. */
  lemma RowFits(i: nat, numFields: nat, numIndexes: nat)
    requires InBounds(numFields, numIndexes) && i < numIndexes
    ensures 0 <= i * (numIndexes + 1)
    ensures numFields == 0 || i * (numIndexes + 1) + numFields <= numFields * numIndexes
  {
    if numFields > 0 {
      StridePosInBounds(i, numFields - 1, numFields, numIndexes);
    }
  }

  /** InBounds is exactly the condition under which no write of the loop falls outside the slice. */
  lemma InBoundsIff(numFields: nat, numIndexes: nat)
    ensures InBounds(numFields, numIndexes) <==>
      forall i, j :: 0 <= i < numIndexes && 0 <= j < numFields ==> WritePos(i, j, numIndexes) < numFields * numIndexes
  {
    if InBounds(numFields, numIndexes) {
      forall i, j | 0 <= i < numIndexes && 0 <= j < numFields
        ensures WritePos(i, j, numIndexes) < numFields * numIndexes
      {
        StridePosInBounds(i, j, numFields, numIndexes);
      }
    } else {
      // the last write, field |fields|-1 at index |indexes|-1, is out of range
      MulMono(numFields, numIndexes, numIndexes - 1);
      assert numFields * (numIndexes - 1) == numFields * numIndexes - numFields;
      assert numIndexes * (numIndexes - 1) == numIndexes * numIndexes - numIndexes;
      assert WritePos(numIndexes - 1, numFields - 1, numIndexes) == numIndexes * numIndexes + numFields - 2;
      assert WritePos(numIndexes - 1, numFields - 1, numIndexes) >= numFields * numIndexes;
    }
  }

  /** The slice the cross-product loop of GetHandler leaves behind. */
  function StrideResult(base: string, fields: seq<string>, indexes: seq<string>): seq<string>
  {
    WriteRows(Blank(|fields| * |indexes|), base, fields, indexes, |indexes| + 1, |indexes|)
  }

  /**
   * The cross-product loop of GetHandler as written: slot i*(|indexes|+1)+j
   * receives field j at index i.
   */
  method CrossOidsAsWritten(oid: string, fields: seq<string>, indexes: seq<string>) returns (oids: seq<string>)
    requires InBounds(|fields|, |indexes|)
    ensures |oids| == |fields| * |indexes|
    ensures oids == StrideResult(oid, fields, indexes)
  {
    var numIndexes := |indexes|;
    var a := new string[|fields| * |indexes|](_ => "");
    ghost var blank := Blank(|fields| * |indexes|);
    assert a[..] == blank;
    for i := 0 to |indexes|
      invariant a[..] == WriteRows(blank, oid, fields, indexes, numIndexes + 1, i)
    {
      RowFits(i, |fields|, |indexes|);
      WriteRowAt(a, i * (numIndexes + 1), oid, fields, indexes[i]);
      RowsStep(blank, oid, fields, indexes, numIndexes + 1, i);
    }
    oids := a[..];
  }

  /** The arithmetic of the overlapping case: the last row ends before the last slot. */
  lemma LastRowEndsEarly(nF: nat, nI: nat)
    requires nI >= 2 && nF >= nI + 2
    ensures (nI - 1) * (nI + 1) + nF <= nF * nI - 1
  {
    MulMono(nI + 2, nF, nI - 1);
    assert (nI + 2) * (nI - 1) == nI * nI + nI - 2;
    assert nF * (nI - 1) == nF * nI - nF;
    assert (nI - 1) * (nI + 1) == nI * nI - 1;
  }

  /** With at least two indexes and two fields more than indexes, the last slot stays empty. */
  lemma AsWrittenLeavesLastSlot(base: string, fields: seq<string>, indexes: seq<string>)
    requires |indexes| >= 2 && |fields| >= |indexes| + 2
    ensures |fields| * |indexes| >= 1
    ensures StrideResult(base, fields, indexes)[|fields| * |indexes| - 1] == ""
    ensures CrossProduct(base, fields, indexes) != StrideResult(base, fields, indexes)
  {
    var nF, nI := |fields|, |indexes|;
    LastRowEndsEarly(nF, nI);
    var k := nF * nI - 1;
    WriteRowsBeyond(Blank(nF * nI), base, fields, indexes, nI + 1, nI, k);
    CrossProductAt(base, fields, indexes, nI - 1, nF - 1);
    MulPred(nI, nF);
    assert CrossProduct(base, fields, indexes)[k] != "";
  }

  /**
   * The loop as written yields the index-major cross product exactly when
   * there are no fields, at most one index, or one field more than indexes;
   * in every other in-bounds case the last slot is never written.
   */
  lemma AsWrittenIsCrossProductIff(base: string, fields: seq<string>, indexes: seq<string>)
    requires InBounds(|fields|, |indexes|)
    ensures StrideResult(base, fields, indexes) == CrossProduct(base, fields, indexes)
        <==> |fields| == 0 || |indexes| <= 1 || |fields| == |indexes| + 1
  {
    var nF, nI := |fields|, |indexes|;
    CrossProductLength(base, fields, indexes);
    if nF == 0 || nI == 0 {
    } else if nI == 1 {
      assert CrossProduct(base, fields, indexes) == RowOids(base, fields, indexes[0]) + [];
    } else if nF == nI + 1 {
      TiledRows(base, fields, indexes, nI);
      assert indexes[..nI] == indexes;
    } else {
      AsWrittenLeavesLastSlot(base, fields, indexes);
    }
  }

  // ---------------------------------------------------------------- the cross-product loop corrected

  /** The cross-product loop with the row offset i*|fields| the design intends. */
  method CrossOids(oid: string, fields: seq<string>, indexes: seq<string>) returns (oids: seq<string>)
    ensures |oids| == |fields| * |indexes|
    ensures oids == CrossProduct(oid, fields, indexes)
  {
    var a := new string[|fields| * |indexes|](_ => "");
    ghost var blank := Blank(|fields| * |indexes|);
    assert a[..] == blank;
    for i := 0 to |indexes|
      invariant a[..] == WriteRows(blank, oid, fields, indexes, |fields|, i)
    {
      MulStep(i, |indexes|, |fields|);
      WriteRowAt(a, i * |fields|, oid, fields, indexes[i]);
      RowsStep(blank, oid, fields, indexes, |fields|, i);
    }
    TiledRows(oid, fields, indexes, |indexes|);
    assert indexes[..|indexes|] == indexes;
    oids := a[..];
    CrossProductLength(oid, fields, indexes);
  }

  // ---------------------------------------------------------------- fields at one index

  /** The loop of GetHandler for `/{base_oid}/{index}`: one OID per field, in field order. */
  method FieldsAtIndex(baseOid: string, fields: seq<string>, index: string) returns (oids: seq<string>)
    ensures |oids| == |fields|
    ensures forall i :: 0 <= i < |fields| ==> oids[i] == TableOid(baseOid, fields[i], index)
    ensures oids == CrossProduct(baseOid, fields, [index])
  {
    var a := new string[|fields|](_ => "");
    for i := 0 to |fields|
      invariant forall k :: 0 <= k < i ==> a[k] == TableOid(baseOid, fields[k], index)
    {
      a[i] := baseOid + "." + fields[i] + "." + index;
    }
    oids := a[..];
    assert CrossProduct(baseOid, fields, [index]) == RowOids(baseOid, fields, index) + [];
  }

  // ---------------------------------------------------------------- the row OID of row creation

  /** strings.Split(rowOid, ".") in the row-creation handler. */
  function RowParts(rowOid: string): (parts: seq<string>)
    ensures |parts| >= 1
  {
    Split(rowOid, '.')
  }

  /** The table prefix: every piece but the last, joined again with '.'. */
  function RowPrefix(rowOid: string): string
  {
    var parts := RowParts(rowOid);
    Join(parts[..|parts| - 1], '.')
  }

  /** The row-status column: the last piece. */
  function RowField(rowOid: string): string
  {
    var parts := RowParts(rowOid);
    parts[|parts| - 1]
  }

  /**
   * Cutting at the last '.' and gluing back: prefix "." field is the row OID
   * when it contains a '.', and "." followed by the row OID when it does not.
   */
  lemma RowSplitRejoins(rowOid: string)
    ensures '.' !in RowField(rowOid)
    ensures '.' in rowOid ==> RowPrefix(rowOid) + "." + RowField(rowOid) == rowOid
    ensures '.' !in rowOid ==> RowPrefix(rowOid) == "" && RowField(rowOid) == rowOid
  {
    var parts := RowParts(rowOid);
    SplitPiecesFree(rowOid, '.');
    SplitManyIff(rowOid, '.');
    if '.' in rowOid {
      JoinSplit(rowOid, '.');
      var n := |parts|;
      assert parts == parts[..n - 1] + [parts[n - 1]];
      JoinSnoc(parts[..n - 1], parts[n - 1], '.');
    } else {
      SplitFree(rowOid, '.');
    }
  }

  /** The row OID `prefix.field` with a dot-free field is cut back into that prefix and field. */
  lemma RowSplitOf(prefix: string, field: string)
    requires '.' !in field
    ensures RowPrefix(prefix + "." + field) == prefix
    ensures RowField(prefix + "." + field) == field
  {
    SplitAppend(prefix, field, '.');
    SplitFree(field, '.');
    var parts := Split(prefix, '.') + [field];
    assert RowParts(prefix + "." + field) == parts;
    assert parts[..|parts| - 1] == Split(prefix, '.');
    JoinSplit(prefix, '.');
  }
}
