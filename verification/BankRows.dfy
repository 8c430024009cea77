/** The ERP's rows behind the index of the reconciliation: of rows with one id only the last is in it. */
module BankRows {
  import opened Wrappers
  import opened BankReconciliation

  /** The position of the last row with the id, or -1. */
  function LastAt<K(==), R>(rows: seq<(K, R)>, k: K): (i: int)
    ensures -1 <= i < |rows|
    ensures i >= 0 ==> rows[i].0 == k
    ensures forall j :: i < j < |rows| ==> rows[j].0 != k
  {
    if rows == [] then -1
    else if rows[|rows| - 1].0 == k then |rows| - 1
    else LastAt(rows[..|rows| - 1], k)
  }

  /** The index holds the last row of each id. */
  lemma {:induction false} IndexIsLast<K, R>(rows: seq<(K, R)>, k: K)
    ensures k in Index(rows) <==> LastAt(rows, k) >= 0
    ensures k in Index(rows) ==> Index(rows)[k] == rows[LastAt(rows, k)].1
  {
    if rows != [] {
      IndexIsLast(rows[..|rows| - 1], k);
    }
  }

  /** The row is the one the index holds for its id. */
  predicate Counts<K(==), R>(rows: seq<(K, R)>, i: nat)
    requires i < |rows|
  {
    LastAt(rows, rows[i].0) == i
  }

  /** Every row counts exactly when no two rows share an id. */
  lemma AllRowsCountExactly<K, R>(rows: seq<(K, R)>)
    ensures (forall i :: 0 <= i < |rows| ==> Counts(rows, i)) <==> Distinct(RowIds(rows))
  {
    if forall i :: 0 <= i < |rows| ==> Counts(rows, i) {
      forall i, j | 0 <= i < j < |rows| ensures rows[i].0 != rows[j].0 {
        assert Counts(rows, i);
      }
    }
    if Distinct(RowIds(rows)) {
      forall i | 0 <= i < |rows| ensures Counts(rows, i) {
        var j := LastAt(rows, rows[i].0);
        assert RowIds(rows)[i] == RowIds(rows)[j];
      }
    }
  }

  // ----- How many records are shown

  lemma {:induction false} DistinctCount<K>(ks: seq<K>)
    ensures |Among(ks)| <= |ks|
    ensures |Among(ks)| == |ks| <==> Distinct(ks)
  {
    if ks != [] {
      var front, last := ks[..|ks| - 1], ks[|ks| - 1];
      DistinctCount(front);
      assert ks == front + [last];
      if last in front {
        assert Among(ks) == Among(front);
        var i :| 0 <= i < |front| && front[i] == last;
        assert ks[i] == ks[|ks| - 1];
      } else {
        assert Among(ks) == Among(front) + {last};
        assert Distinct(ks) <==> Distinct(front);
      }
    }
  }

  lemma {:induction false} IndexKeys<K, R>(rows: seq<(K, R)>)
    ensures Index(rows).Keys == Among(RowIds(rows))
  {
    if rows != [] {
      var front, last := rows[..|rows| - 1], rows[|rows| - 1];
      IndexKeys(front);
      assert RowIds(rows) == RowIds(front) + [last.0];
      AmongAppend(RowIds(front), last.0);
    }
  }

  /** The index is as large as the list of rows exactly when the ids are distinct; else it is smaller. */
  lemma IndexSizeExactly<K, R>(rows: seq<(K, R)>)
    ensures |Index(rows)| <= |rows|
    ensures |Index(rows)| == |rows| <==> Distinct(RowIds(rows))
  {
    IndexKeys(rows);
    DistinctCount(RowIds(rows));
    assert |Index(rows)| == |Index(rows).Keys|;
  }

  /** The number of ERP records a list shows. */
  function Size<K, B, A, R>(board: Board<K, B, A, R>, p: Place): nat { |Consumed(board, p)| }

  /** The records whose place is `p`. */
  function At<K(==), B, A>(keys: set<K>, tasks: Tasks<K, B, A>, blank: K, p: Place): set<K> {
    set k | k in keys && PlaceOf(tasks, blank, k) == p
  }

  lemma SizeIsPlace<K(!new), B, A, R>(erp: map<K, R>, tasks: Tasks<K, B, A>, blank: K, board: Board<K, B, A, R>, p: Place)
    requires Exact(erp, tasks, blank, board, p)
    ensures Size(board, p) == |At(erp.Keys, tasks, blank, p)|
  {
    DistinctCount(Consumed(board, p));
    assert Among(Consumed(board, p)) == At(erp.Keys, tasks, blank, p);
  }

  lemma PlacesAddUp<K, B, A>(keys: set<K>, tasks: Tasks<K, B, A>, blank: K)
    ensures |At(keys, tasks, blank, InProcessList)| + |At(keys, tasks, blank, PendingList)|
          + |At(keys, tasks, blank, ProcessedList)| + |At(keys, tasks, blank, ToProcessList)| == |keys|
  {
    var a, b := At(keys, tasks, blank, InProcessList), At(keys, tasks, blank, PendingList);
    var c, d := At(keys, tasks, blank, ProcessedList), At(keys, tasks, blank, ToProcessList);
    assert keys == ((a + b) + c) + d;
    assert a !! b && (a + b) !! c && ((a + b) + c) !! d;
  }

  lemma ListsAddUp<K(!new), B, A, R>(erp: map<K, R>, tasks: Tasks<K, B, A>, blank: K, board: Board<K, B, A, R>)
    requires forall p :: Exact(erp, tasks, blank, board, p)
    ensures Size(board, InProcessList) + Size(board, PendingList) + Size(board, ProcessedList) + Size(board, ToProcessList) == |erp|
  {
    SizeIsPlace(erp, tasks, blank, board, InProcessList);
    SizeIsPlace(erp, tasks, blank, board, PendingList);
    SizeIsPlace(erp, tasks, blank, board, ProcessedList);
    SizeIsPlace(erp, tasks, blank, board, ToProcessList);
    PlacesAddUp(erp.Keys, tasks, blank);
    assert |erp| == |erp.Keys|;
  }

  /** The four lists show as many records as the ERP has rows exactly when the row ids are distinct. */
  lemma EveryRowIsShownExactly<K(!new), B, A, R>(rows: seq<(K, R)>, tasks: Tasks<K, B, A>, blank: K, board: Board<K, B, A, R>)
    requires forall p :: Exact(Index(rows), tasks, blank, board, p)
    ensures Size(board, InProcessList) + Size(board, PendingList) + Size(board, ProcessedList) + Size(board, ToProcessList) == |rows|
       <==> Distinct(RowIds(rows))
  {
    ListsAddUp(Index(rows), tasks, blank, board);
    IndexSizeExactly(rows);
  }

  /** Two rows with one id: the first is lost. */
  lemma EarlierRowIsLost<K, R>(k: K, a: R, b: R)
    ensures Index([(k, a), (k, b)]) == map[k := b]
  {
    assert [(k, a), (k, b)][..1] == [(k, a)] && [(k, a)][..0] == [];
    assert Index([(k, a)]) == map[k := a];
  }
}
