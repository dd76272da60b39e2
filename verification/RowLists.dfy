/** Which rows of one mode a rank needs from whom: a list of rows for every owner. */
module RowLists {
  import opened Sequences
  import opened UniformBlocking
  import opened KtensorUpdate

  ghost predicate IsCuts(cuts: seq<nat>, np: nat, rows: nat)
  {
    np > 0 && IsBlocking(cuts, rows, np)
  }

  function SetOf(s: seq<nat>): (r: set<nat>)
    ensures forall x :: x in r <==> x in s
  {
    set x | x in s
  }

  /** Host path: walk the nonzeros, list a row when it is first seen. */
  method ListRowsHost(subs: seq<nat>, offsets: seq<nat>, rows: nat, sort: bool) returns (lists: seq<seq<nat>>)
    requires IsCuts(offsets + [rows], |offsets|, rows)
    requires forall i :: 0 <= i < |subs| ==> subs[i] < rows
    ensures |lists| == |offsets| && ListsRows(lists, SetOf(subs), offsets + [rows])
    ensures forall p: nat, row: nat :: p < |lists| ==>
              (row in lists[p] <==> row in subs && (offsets + [rows])[p] <= row < (offsets + [rows])[p + 1])
    ensures forall p: nat, i: nat, j: nat :: p < |lists| && i < j < |lists[p]| ==> lists[p][i] != lists[p][j]
    ensures sort ==> forall p: nat :: p < |lists| ==> Ascending(lists[p])
  {
    var np := |offsets|;
    lists := seq(np, _ => []);
    var seen: set<nat> := {};
    var i := 0;
    while i < |subs|
      invariant 0 <= i <= |subs| && |lists| == np
      invariant seen == SetOf(subs[..i])
      invariant ListsRows(lists, seen, offsets + [rows])
    {
      var row := subs[i];
      if row !in seen {
        var p := FindProcForRow(offsets, rows, row);
        ListsRowsPush(lists, seen, offsets + [rows], rows, p, row);
        lists := lists[p := lists[p] + [row]];
        seen := seen + {row};
      }
      assert subs[..i + 1] == subs[..i] + [row];
      i := i + 1;
    }
    assert subs[..i] == subs;
    if sort {
      var p := 0;
      while p < np
        invariant 0 <= p <= np && |lists| == np
        invariant ListsRows(lists, SetOf(subs), offsets + [rows])
        invariant forall q: nat :: q < p ==> Ascending(lists[q])
      {
        SortedSame(lists[p]);
        SortedIsAscending(lists[p]);
        ghost var before := lists;
        lists := lists[p := Sorted(lists[p])];
        SameRowsSameLists(before, lists, SetOf(subs), offsets + [rows], p);
        p := p + 1;
      }
    }
  }

  lemma ListsRowsPush(lists: seq<seq<nat>>, seen: set<nat>, cuts: seq<nat>, rows: nat, p: nat, row: nat)
    requires ListsRows(lists, seen, cuts) && p < |lists| && IsCuts(cuts, |lists|, rows)
    requires row !in seen && InPart(cuts, p, row)
    ensures ListsRows(lists[p := lists[p] + [row]], seen + {row}, cuts)
  {
    var after := lists[p := lists[p] + [row]];
    forall q: nat | q < |after|
      ensures NoDuplicates(after[q]) && forall r: nat :: r in after[q] <==> r in seen + {row} && InPart(cuts, q, r)
    {
      if InPart(cuts, q, row) {
        PartUnique(cuts, rows, |lists|, p, q, row);
      }
      if q == p {
        forall i, j | 0 <= i < j < |after[p]| ensures after[p][i] != after[p][j] {
          if j == |lists[p]| {
            Member(lists[p], i);
          }
        }
      }
    }
  }

  lemma SortedSame(s: seq<nat>)
    ensures NoDuplicates(s) ==> NoDuplicates(Sorted(s))
    ensures forall x: nat :: x in Sorted(s) <==> x in s
  {
    NoDuplicatesCount(s);
    NoDuplicatesCount(Sorted(s));
    forall x: nat ensures x in Sorted(s) <==> x in s {
      assert x in Sorted(s) <==> x in multiset(Sorted(s));
      assert x in s <==> x in multiset(s);
    }
  }

  lemma SameRowsSameLists(before: seq<seq<nat>>, after: seq<seq<nat>>, needed: set<nat>, cuts: seq<nat>, p: nat)
    requires ListsRows(before, needed, cuts) && p < |before|
    requires |after| == |before| && after == before[p := after[p]]
    requires NoDuplicates(before[p]) ==> NoDuplicates(after[p])
    requires forall x: nat :: x in after[p] <==> x in before[p]
    ensures ListsRows(after, needed, cuts)
  {
  }

  // ----- the device path: a shared map, a scan, and fetch-and-add slots in one flat buffer

  /** Rows of the map that belong to owner p. */
  function RowsOf(owners: map<nat, nat>, p: nat): (r: set<nat>)
    ensures forall row :: row in r <==> row in owners && owners[row] == p
  {
    set row | row in owners && owners[row] == p
  }

  lemma RowsOfInsert(owners: map<nat, nat>, row: nat, owner: nat, p: nat)
    requires row !in owners
    ensures |RowsOf(owners[row := owner], p)| == |RowsOf(owners, p)| + if p == owner then 1 else 0
  {
    var after := RowsOf(owners[row := owner], p);
    if p == owner {
      assert after == RowsOf(owners, p) + {row};
    } else {
      assert after == RowsOf(owners, p);
    }
  }

  ghost predicate OwnersRight(owners: map<nat, nat>, cuts: seq<nat>)
  {
    forall row :: row in owners ==> InPart(cuts, owners[row], row)
  }

  function Below(n: nat): (r: set<nat>)
    ensures forall i: nat :: i in r <==> i < n
  {
    if n == 0 then {} else Below(n - 1) + {n - 1}
  }

  /** While threads still have to insert their row (todo) or to count an inserted one (owed). */
  ghost predicate Counting(owners: map<nat, nat>, counts: seq<nat>, owed: multiset<nat>, todo: set<nat>,
      subs: seq<nat>, cuts: seq<nat>)
  {
    && todo <= Below(|subs|) && OwnersRight(owners, cuts) && |cuts| == |counts| + 1
    && (forall row :: row in owners ==> row in subs)
    && (forall i: nat :: i < |subs| && i !in todo ==> subs[i] in owners)
    && (forall p: nat :: p in owed ==> p < |counts|)
    && forall p: nat :: p < |counts| ==> counts[p] + owed[p] == |RowsOf(owners, p)|
  }

  lemma RowInserted(owners: map<nat, nat>, counts: seq<nat>, owed: multiset<nat>, todo: set<nat>, subs: seq<nat>,
      cuts: seq<nat>, i: nat, p: nat)
    requires Counting(owners, counts, owed, todo, subs, cuts) && i in todo
    requires InPart(cuts, p, subs[i])
    ensures subs[i] !in owners ==>
              Counting(owners[subs[i] := p], counts, owed + multiset{p}, todo - {i}, subs, cuts)
    ensures subs[i] in owners ==> Counting(owners, counts, owed, todo - {i}, subs, cuts)
  {
    if subs[i] !in owners {
      hide RowsOf;
      forall q: nat | q < |counts|
        ensures counts[q] + (owed + multiset{p})[q] == |RowsOf(owners[subs[i] := p], q)|
      {
        RowsOfInsert(owners, subs[i], p, q);
      }
    }
  }

  /** One thread for every nonzero, in any order: insert its row into the map; the thread whose insert
      succeeds also adds one to the owner's count, at any later time. */
  method BuildRowMap(subs: seq<nat>, offsets: seq<nat>, rows: nat) returns (owners: map<nat, nat>, counts: seq<nat>)
    requires IsCuts(offsets + [rows], |offsets|, rows)
    requires forall i :: 0 <= i < |subs| ==> subs[i] < rows
    ensures |counts| == |offsets| && owners.Keys == SetOf(subs) && Counted(owners, counts, offsets + [rows], rows)
  {
    ghost var cuts := offsets + [rows];
    owners, counts := map[], seq(|offsets|, _ => 0);
    var todo, owed: multiset<nat> := Below(|subs|), multiset{};
    NothingCounted(counts, subs, cuts);
    hide Counting, Counted, RowsOf;
    while todo != {} || owed != multiset{}
      invariant |counts| == |offsets| && Counting(owners, counts, owed, todo, subs, cuts)
      decreases 2 * |todo| + |owed|
    {
      var insertNext := *;
      if todo != {} && (insertNext || owed == multiset{}) {
        var i :| i in todo;
        var p := FindProcForRow(offsets, rows, subs[i]);
        RowInserted(owners, counts, owed, todo, subs, cuts, i, p);
        if subs[i] !in owners {
          owners := owners[subs[i] := p];
          owed := owed + multiset{p};
        }
        todo := todo - {i};
      } else {
        var p :| p in owed;
        RowCounted(owners, counts, owed, todo, subs, cuts, p);
        counts := counts[p := counts[p] + 1];
        owed := owed - multiset{p};
      }
    }
    AllCounted(owners, counts, subs, cuts, rows);
  }

  lemma RowCounted(owners: map<nat, nat>, counts: seq<nat>, owed: multiset<nat>, todo: set<nat>, subs: seq<nat>,
      cuts: seq<nat>, p: nat)
    requires Counting(owners, counts, owed, todo, subs, cuts) && p in owed
    ensures p < |counts| && Counting(owners, counts[p := counts[p] + 1], owed - multiset{p}, todo, subs, cuts)
  {
    hide RowsOf;
  }

  lemma AllCounted(owners: map<nat, nat>, counts: seq<nat>, subs: seq<nat>, cuts: seq<nat>, rows: nat)
    requires Counting(owners, counts, multiset{}, {}, subs, cuts) && IsCuts(cuts, |counts|, rows)
    ensures owners.Keys == SetOf(subs) && Counted(owners, counts, cuts, rows)
  {
    hide RowsOf;
    forall row | row in SetOf(subs) ensures row in owners {
      var i: nat :| i < |subs| && subs[i] == row;
    }
  }

  lemma NothingCounted(counts: seq<nat>, subs: seq<nat>, cuts: seq<nat>)
    requires |cuts| == |counts| + 1 && forall p :: 0 <= p < |counts| ==> counts[p] == 0
    ensures Counting(map[], counts, multiset{}, Below(|subs|), subs, cuts)
  {
    forall p: nat | p < |counts| ensures RowsOf(map[], p) == {} {
    }
  }

  lemma {:induction false} SizeOfList(s: seq<nat>)
    requires NoDuplicates(s)
    ensures |SetOf(s)| == |s|
  {
    if |s| > 0 {
      var n := |s| - 1;
      SizeOfList(s[..n]);
      assert s == s[..n] + [s[n]];
      assert SetOf(s) == SetOf(s[..n]) + {s[n]};
    } else {
      assert SetOf(s) == {};
    }
  }

  lemma {:induction false} SubsetSize(a: set<nat>, b: set<nat>)
    requires a <= b
    ensures |a| <= |b|
  {
    if a != {} {
      var x :| x in a;
      SubsetSize(a - {x}, b - {x});
    }
  }

  /** Slot k of owner p was given to a row; its cell holds the row, unless the write is still to come. */
  ghost predicate SlotDone(buffer: seq<nat>, given: seq<seq<nat>>, slotOf: map<nat, nat>, pending: set<nat>,
      counts: seq<nat>, p: nat, k: nat)
    requires p < |given| == |counts| && k < |given[p]|
  {
    var row, slot := given[p][k], SizesBefore(counts, p) + k;
    && row in slotOf && slotOf[row] == slot < |buffer|
    && (row !in pending ==> buffer[slot] == row)
  }

  ghost predicate SlotsDone(buffer: seq<nat>, given: seq<seq<nat>>, slotOf: map<nat, nat>, pending: set<nat>,
      counts: seq<nat>)
    requires |given| == |counts|
  {
    forall p: nat, k: nat :: p < |given| && k < |given[p]| ==>
      SlotDone(buffer, given, slotOf, pending, counts, p, k)
  }

  /** What holds while rows wait for a slot (waiting) or have one but are not written yet (pending). */
  ghost predicate Filling(buffer: seq<nat>, given: seq<seq<nat>>, slotOf: map<nat, nat>, waiting: set<nat>,
      pending: set<nat>, owners: map<nat, nat>, counts: seq<nat>, cuts: seq<nat>)
  {
    && |given| == |counts| && |buffer| == SizesBefore(counts, |counts|)
    && ListsRows(given, owners.Keys - waiting, cuts)
    && pending <= owners.Keys - waiting
    && (forall p :: 0 <= p < |given| ==> |given[p]| <= counts[p])
    && SlotsDone(buffer, given, slotOf, pending, counts)
  }

  /** The map with its counts, as the first phase leaves them. */
  ghost predicate Counted(owners: map<nat, nat>, counts: seq<nat>, cuts: seq<nat>, rows: nat)
  {
    && IsCuts(cuts, |counts|, rows) && OwnersRight(owners, cuts)
    && forall p: nat :: p < |counts| ==> counts[p] == |RowsOf(owners, p)|
  }

  /** Rows of an owner that have a slot, when some row of it has none yet, are fewer than counted. */
  lemma SlotLeft(given: seq<nat>, owners: map<nat, nat>, counts: seq<nat>, cuts: seq<nat>, rows: nat, row: nat)
    requires Counted(owners, counts, cuts, rows) && row in owners && row !in given && NoDuplicates(given)
    requires forall other :: other in given ==> other in owners && InPart(cuts, owners[row], other)
    ensures owners[row] < |counts| && |given| < counts[owners[row]]
  {
    var p := owners[row];
    SizeOfList(given);
    forall other | other in given ensures other in RowsOf(owners, p) - {row} {
      PartUnique(cuts, rows, |counts|, p, owners[other], other);
    }
    SubsetSize(SetOf(given), RowsOf(owners, p) - {row});
  }

  /** A fetch-and-add hands out the next slot of the owner's range. */
  lemma SlotClaimed(buffer: seq<nat>, given: seq<seq<nat>>, slotOf: map<nat, nat>, waiting: set<nat>,
      pending: set<nat>, owners: map<nat, nat>, counts: seq<nat>, cuts: seq<nat>, rows: nat, row: nat)
    requires Filling(buffer, given, slotOf, waiting, pending, owners, counts, cuts)
    requires Counted(owners, counts, cuts, rows) && row in waiting && row in owners
    ensures owners[row] < |given| && |given[owners[row]]| < counts[owners[row]]
    ensures var p := owners[row];
            Filling(buffer, given[p := given[p] + [row]], slotOf[row := SizesBefore(counts, p) + |given[p]|],
                    waiting - {row}, pending + {row}, owners, counts, cuts)
  {
    var p := owners[row];
    SlotLeft(given[p], owners, counts, cuts, rows, row);
    ListsRowsPush(given, owners.Keys - waiting, cuts, rows, p, row);
    assert owners.Keys - waiting + {row} == owners.Keys - (waiting - {row});
    ClaimedSlots(buffer, given, slotOf, pending, counts, p, row);
    var after := given[p := given[p] + [row]];
    assert ListsRows(after, owners.Keys - (waiting - {row}), cuts);
    assert forall q :: 0 <= q < |after| ==> |after[q]| <= counts[q];
    assert pending + {row} <= owners.Keys - (waiting - {row});
    hide SlotsDone, ListsRows, Counted;
  }

  /** A slot that was given out before stays as it was. */
  lemma OldSlot(buffer: seq<nat>, given: seq<seq<nat>>, slotOf: map<nat, nat>, pending: set<nat>, counts: seq<nat>,
      p: nat, row: nat, slot: nat, q: nat, k: nat)
    requires |given| == |counts| && p < |given| && q < |given| && k < |given[q]| && row !in given[q]
    requires SlotDone(buffer, given, slotOf, pending, counts, q, k)
    ensures k < |given[p := given[p] + [row]][q]|
    ensures SlotDone(buffer, given[p := given[p] + [row]], slotOf[row := slot], pending + {row}, counts, q, k)
  {
    assert given[q][k] in given[q];
  }

  lemma NewSlot(buffer: seq<nat>, given: seq<seq<nat>>, slotOf: map<nat, nat>, pending: set<nat>, counts: seq<nat>,
      p: nat, row: nat)
    requires |given| == |counts| && p < |given| && |given[p]| < counts[p]
    requires |buffer| == SizesBefore(counts, |counts|)
    ensures SlotDone(buffer, given[p := given[p] + [row]], slotOf[row := SizesBefore(counts, p) + |given[p]|],
                     pending + {row}, counts, p, |given[p]|)
  {
    SlotsDisjoint(counts, p, |given[p]|, p, |given[p]|);
  }

  lemma ClaimedSlots(buffer: seq<nat>, given: seq<seq<nat>>, slotOf: map<nat, nat>, pending: set<nat>,
      counts: seq<nat>, p: nat, row: nat)
    requires |given| == |counts| && SlotsDone(buffer, given, slotOf, pending, counts)
    requires p < |given| && |given[p]| < counts[p] && |buffer| == SizesBefore(counts, |counts|)
    requires forall q :: 0 <= q < |given| ==> row !in given[q]
    ensures SlotsDone(buffer, given[p := given[p] + [row]], slotOf[row := SizesBefore(counts, p) + |given[p]|],
                      pending + {row}, counts)
  {
    hide SlotDone, SizesBefore;
    var slot := SizesBefore(counts, p) + |given[p]|;
    var after, slots := given[p := given[p] + [row]], slotOf[row := slot];
    NewSlot(buffer, given, slotOf, pending, counts, p, row);
    forall q: nat, k: nat | q < |after| && k < |after[q]|
      ensures SlotDone(buffer, after, slots, pending + {row}, counts, q, k)
    {
      if k < |given[q]| {
        OldSlot(buffer, given, slotOf, pending, counts, p, row, slot, q, k);
      }
    }
  }

  /** A write fills the row's own slot and no other. */
  lemma SlotWritten(before: seq<nat>, given: seq<seq<nat>>, slotOf: map<nat, nat>, waiting: set<nat>,
      pending: set<nat>, owners: map<nat, nat>, counts: seq<nat>, cuts: seq<nat>, rows: nat, row: nat)
    requires Filling(before, given, slotOf, waiting, pending, owners, counts, cuts)
    requires Counted(owners, counts, cuts, rows) && row in pending
    ensures row in slotOf && slotOf[row] < |before|
    ensures Filling(before[slotOf[row] := row], given, slotOf, waiting, pending - {row}, owners, counts, cuts)
  {
    var p := owners[row];
    assert row in given[p];
    var k: nat :| k < |given[p]| && given[p][k] == row;
    assert SlotDone(before, given, slotOf, pending, counts, p, k);
    var after := before[slotOf[row] := row];
    forall q: nat, j: nat | q < |given| && j < |given[q]|
      ensures SlotDone(after, given, slotOf, pending - {row}, counts, q, j)
    {
      assert SlotDone(before, given, slotOf, pending, counts, q, j);
      SlotsDisjoint(counts, p, k, q, j);
    }
  }

  /** When no row waits and no write is outstanding the buffer is full: the lists one after the other. */
  lemma BufferIsLists(buffer: seq<nat>, given: seq<seq<nat>>, slotOf: map<nat, nat>, owners: map<nat, nat>,
      counts: seq<nat>, cuts: seq<nat>, rows: nat)
    requires Filling(buffer, given, slotOf, {}, {}, owners, counts, cuts) && Counted(owners, counts, cuts, rows)
    ensures HasSizes(given, counts) && buffer == Flatten(given)
  {
    assert owners.Keys - {} == owners.Keys;
    forall p | 0 <= p < |counts| ensures |given[p]| == counts[p] {
      SizeOfList(given[p]);
      forall row ensures row in RowsOf(owners, p) <==> row in given[p] {
        if row in given[p] {
          PartUnique(cuts, rows, |counts|, p, owners[row], row);
        }
      }
      assert RowsOf(owners, p) == SetOf(given[p]);
    }
    assert given[..|given|] == given;
    BufferIsPrefix(buffer, given, slotOf, counts, |given|);
  }

  lemma {:induction false} BufferIsPrefix(buffer: seq<nat>, given: seq<seq<nat>>, slotOf: map<nat, nat>,
      counts: seq<nat>, n: nat)
    requires HasSizes(given, counts) && |buffer| == SizesBefore(counts, |counts|) && n <= |given|
    requires SlotsDone(buffer, given, slotOf, {}, counts)
    ensures SizesBefore(counts, n) <= |buffer| && buffer[..SizesBefore(counts, n)] == Flatten(given[..n])
  {
    SizesBeforeMonotone(counts, n, |counts|);
    if n > 0 {
      BufferIsPrefix(buffer, given, slotOf, counts, n - 1);
      var lo, hi := SizesBefore(counts, n - 1), SizesBefore(counts, n);
      assert given[..n][..n - 1] == given[..n - 1];
      var piece := buffer[lo..hi];
      forall k: nat | k < hi - lo ensures piece[k] == given[n - 1][k] {
        assert SlotDone(buffer, given, slotOf, {}, counts, n - 1, k);
      }
      assert buffer[..hi] == buffer[..lo] + piece;
    }
  }

  /** One thread for every row of the map, in any order: fetch-and-add a slot of the owner's range, and
      write the row there at any later time. The counted ranges are filled exactly, without collision. */
  method FillRowRecvs(owners: map<nat, nat>, counts: seq<nat>, ghost cuts: seq<nat>, ghost rows: nat)
    returns (rowRecvs: seq<nat>)
    requires Counted(owners, counts, cuts, rows)
    ensures |rowRecvs| == SizesBefore(counts, |counts|)
    ensures forall p: nat :: p < |counts| ==> RangeLists(rowRecvs, counts, owners.Keys, cuts, p)
  {
    var buffer := new nat[SizesBefore(counts, |counts|)];
    var cnt, slotOf: map<nat, nat> := seq(|counts|, _ => 0), map[];
    ghost var given: seq<seq<nat>> := seq(|counts|, _ => []);
    var waiting, pending: set<nat> := owners.Keys, {};
    assert Filling(buffer[..], given, slotOf, waiting, pending, owners, counts, cuts);
    hide *;
    while waiting != {} || pending != {}
      invariant waiting <= owners.Keys && Tally(cnt, given)
      invariant Filling(buffer[..], given, slotOf, waiting, pending, owners, counts, cuts)
      decreases 2 * |waiting| + |pending|
    {
      cnt, slotOf, given, waiting, pending :=
        FillStep(owners, counts, cnt, slotOf, buffer, given, waiting, pending, cuts, rows);
    }
    BufferIsLists(buffer[..], given, slotOf, owners, counts, cuts, rows);
    rowRecvs := buffer[..];
    FilledLists(rowRecvs, given, slotOf, owners, counts, cuts);
  }

  /** Some thread moves: one takes its slot, or one writes into its slot. */
  method FillStep(owners: map<nat, nat>, counts: seq<nat>, cnt: seq<nat>, slotOf: map<nat, nat>, buffer: array<nat>,
      ghost given: seq<seq<nat>>, waiting: set<nat>, pending: set<nat>, ghost cuts: seq<nat>, ghost rows: nat)
    returns (cnt': seq<nat>, slotOf': map<nat, nat>, ghost given': seq<seq<nat>>, waiting': set<nat>,
        pending': set<nat>)
    requires waiting != {} || pending != {}
    requires Counted(owners, counts, cuts, rows) && waiting <= owners.Keys && Tally(cnt, given)
    requires Filling(buffer[..], given, slotOf, waiting, pending, owners, counts, cuts)
    modifies buffer
    ensures waiting' <= owners.Keys && Tally(cnt', given')
    ensures Filling(buffer[..], given', slotOf', waiting', pending', owners, counts, cuts)
    ensures 2 * |waiting'| + |pending'| < 2 * |waiting| + |pending|
  {
    hide *;
    cnt', slotOf', given', waiting', pending' := cnt, slotOf, given, waiting, pending;
    var claimNext := *;
    if waiting != {} && (claimNext || pending == {}) {
      var row :| row in waiting;
      cnt', slotOf', given' :=
        ClaimSlot(row, owners, counts, cnt, slotOf, buffer[..], given, waiting, pending, cuts, rows);
      waiting', pending' := waiting - {row}, pending + {row};
    } else {
      var row :| row in pending;
      WriteSlot(row, buffer, slotOf, given, waiting, pending, owners, counts, cuts, rows);
      pending' := pending - {row};
    }
  }

  /** The atomic fetch-and-add of a row's thread. */
  method ClaimSlot(row: nat, owners: map<nat, nat>, counts: seq<nat>, cnt: seq<nat>, slotOf: map<nat, nat>,
      ghost buffer: seq<nat>, ghost given: seq<seq<nat>>, ghost waiting: set<nat>, ghost pending: set<nat>,
      ghost cuts: seq<nat>, ghost rows: nat)
    returns (cnt': seq<nat>, slotOf': map<nat, nat>, ghost given': seq<seq<nat>>)
    requires Counted(owners, counts, cuts, rows) && row in waiting && row in owners && Tally(cnt, given)
    requires Filling(buffer, given, slotOf, waiting, pending, owners, counts, cuts)
    ensures Tally(cnt', given')
    ensures Filling(buffer, given', slotOf', waiting - {row}, pending + {row}, owners, counts, cuts)
  {
    hide *;
    var p := owners[row];
    FillingSizes(buffer, given, slotOf, waiting, pending, owners, counts, cuts);
    SlotClaimed(buffer, given, slotOf, waiting, pending, owners, counts, cuts, rows, row);
    TallyStep(cnt, given, p, row);
    slotOf' := slotOf[row := SizesBefore(counts, p) + cnt[p]];
    cnt' := cnt[p := cnt[p] + 1];
    given' := given[p := given[p] + [row]];
  }

  lemma FillingSizes(buffer: seq<nat>, given: seq<seq<nat>>, slotOf: map<nat, nat>, waiting: set<nat>,
      pending: set<nat>, owners: map<nat, nat>, counts: seq<nat>, cuts: seq<nat>)
    requires Filling(buffer, given, slotOf, waiting, pending, owners, counts, cuts)
    ensures |given| == |counts|
  {
  }

  /** The write of a row's thread into its slot. */
  method WriteSlot(row: nat, buffer: array<nat>, slotOf: map<nat, nat>, ghost given: seq<seq<nat>>,
      ghost waiting: set<nat>, ghost pending: set<nat>, ghost owners: map<nat, nat>, ghost counts: seq<nat>,
      ghost cuts: seq<nat>, ghost rows: nat)
    requires Counted(owners, counts, cuts, rows) && row in pending
    requires Filling(buffer[..], given, slotOf, waiting, pending, owners, counts, cuts)
    modifies buffer
    ensures Filling(buffer[..], given, slotOf, waiting, pending - {row}, owners, counts, cuts)
  {
    hide *;
    ghost var before := buffer[..];
    SlotWritten(before, given, slotOf, waiting, pending, owners, counts, cuts, rows, row);
    buffer[slotOf[row]] := row;
    assert buffer[..] == before[slotOf[row] := row];
  }

  /** The counters say how many slots of every owner are given out. */
  ghost predicate Tally(cnt: seq<nat>, given: seq<seq<nat>>)
  {
    |cnt| == |given| && forall p :: 0 <= p < |cnt| ==> cnt[p] == |given[p]|
  }

  lemma TallyStep(cnt: seq<nat>, given: seq<seq<nat>>, p: nat, row: nat)
    requires Tally(cnt, given) && p < |given|
    ensures p < |cnt| && cnt[p] == |given[p]|
    ensures Tally(cnt[p := cnt[p] + 1], given[p := given[p] + [row]])
  {
  }

  /** Owner p's counted range of the buffer names its needed rows, once each. */
  ghost predicate RangeLists(buffer: seq<nat>, counts: seq<nat>, needed: set<nat>, cuts: seq<nat>, p: nat)
    requires p < |counts|
  {
    var lo, hi := SizesBefore(counts, p), SizesBefore(counts, p) + counts[p];
    && hi <= |buffer| && NoDuplicates(buffer[lo..hi])
    && forall row: nat :: row in buffer[lo..hi] <==> row in needed && InPart(cuts, p, row)
  }

  lemma FilledLists(buffer: seq<nat>, given: seq<seq<nat>>, slotOf: map<nat, nat>, owners: map<nat, nat>,
      counts: seq<nat>, cuts: seq<nat>)
    requires Filling(buffer, given, slotOf, {}, {}, owners, counts, cuts)
    requires HasSizes(given, counts) && buffer == Flatten(given)
    ensures |buffer| == SizesBefore(counts, |counts|)
    ensures forall p: nat :: p < |counts| ==> RangeLists(buffer, counts, owners.Keys, cuts, p)
  {
    assert owners.Keys - {} == owners.Keys;
    hide SlotsDone, Flatten;
    forall p: nat | p < |counts| ensures RangeLists(buffer, counts, owners.Keys, cuts, p) {
      PieceSlice(given, counts, p);
    }
  }

  /** Device path: count the rows of every owner in a shared map, scan the counts, and give every row a
      slot in its owner's range of the flat buffer. */
  method ListRowsDevice(subs: seq<nat>, offsets: seq<nat>, rows: nat) returns (lists: seq<seq<nat>>)
    requires IsCuts(offsets + [rows], |offsets|, rows)
    requires forall i :: 0 <= i < |subs| ==> subs[i] < rows
    ensures |lists| == |offsets| && ListsRows(lists, SetOf(subs), offsets + [rows])
  {
    var owners, counts := BuildRowMap(subs, offsets, rows);
    var rowRecvs := FillRowRecvs(owners, counts, offsets + [rows], rows);
    hide Counted;
    lists := [];
    while |lists| < |counts|
      invariant |lists| <= |counts|
      invariant forall p: nat :: p < |lists| ==> ListedRange(lists[p], rowRecvs, counts, p)
    {
      var start := SizesBefore(counts, |lists|);
      assert RangeLists(rowRecvs, counts, owners.Keys, offsets + [rows], |lists|);
      lists := lists + [rowRecvs[start..start + counts[|lists|]]];
    }
    RangesAreLists(lists, rowRecvs, counts, owners.Keys, offsets + [rows]);
  }

  ghost predicate ListedRange(list: seq<nat>, buffer: seq<nat>, counts: seq<nat>, p: nat)
    requires p < |counts|
  {
    var lo, hi := SizesBefore(counts, p), SizesBefore(counts, p) + counts[p];
    hi <= |buffer| && list == buffer[lo..hi]
  }

  lemma RangesAreLists(lists: seq<seq<nat>>, buffer: seq<nat>, counts: seq<nat>, needed: set<nat>, cuts: seq<nat>)
    requires |lists| == |counts| && |cuts| == |counts| + 1
    requires forall p: nat :: p < |lists| ==> ListedRange(lists[p], buffer, counts, p)
    requires forall p: nat :: p < |counts| ==> RangeLists(buffer, counts, needed, cuts, p)
    ensures ListsRows(lists, needed, cuts)
  {
    forall p: nat | p < |lists|
      ensures NoDuplicates(lists[p]) && forall row: nat :: row in lists[p] <==> row in needed && InPart(cuts, p, row)
    {
      assert ListedRange(lists[p], buffer, counts, p) && RangeLists(buffer, counts, needed, cuts, p);
    }
  }
}
