/** What the desk pays over a whole run: its resolution rows, each once, and
    nothing else (crates/gateway-storage/src/operations.rs and
    honor_proposals.rs). */
module HonorPayments {
  import L = Ledger
  import opened HonorApproval

  /** The row a call adds, if it adds one. */
  function RowAdded(d: Desk, step: Step, threshold: nat): seq<RowKey> {
    if Apply(d, step, threshold).resolutions == d.resolutions then []
    else
      match step
      case ResolveStep(op, key, _, _) => [(op.key, key)]
      case ApproveStep(op, _, key, _, _) => [(op.key, key)]
      case _ => []
  }

  /** The allocations a call adds; what happens elsewhere is not the desk's. */
  function PaidByCall(d: Desk, step: Step, threshold: nat): seq<L.Allocation> {
    var before, after := d.books.allocations, Apply(d, step, threshold).books.allocations;
    if step.Elsewhere? || |after| < |before| then [] else after[|before|..]
  }

  function RowsAdded(d: Desk, run: seq<Step>, threshold: nat): seq<RowKey>
    decreases |run|
  {
    if run == [] then [] else RowAdded(d, run[0], threshold) + RowsAdded(Apply(d, run[0], threshold), run[1..], threshold)
  }

  function PaidByDesk(d: Desk, run: seq<Step>, threshold: nat): seq<L.Allocation>
    decreases |run|
  {
    if run == [] then [] else PaidByCall(d, run[0], threshold) + PaidByDesk(Apply(d, run[0], threshold), run[1..], threshold)
  }

  /** What these rows say was paid, in order. */
  function Payments(rows: map<RowKey, Resolution>, ids: seq<RowKey>): seq<L.Allocation> {
    if ids == [] then []
    else (if ids[0] in rows then Payment(rows[ids[0]].command) else []) + Payments(rows, ids[1..])
  }

  // ----- one call -----

  /** A call adds the row it is said to add and pays what that row says. */
  ghost predicate CallPays(d: Desk, e: Desk, added: seq<RowKey>, paid: seq<L.Allocation>) {
    if added == [] then e.resolutions == d.resolutions && paid == []
    else
      && |added| == 1 && added[0] !in d.resolutions && added[0] in e.resolutions
      && e.resolutions == d.resolutions[added[0] := e.resolutions[added[0]]]
      && paid == Payment(e.resolutions[added[0]].command)
  }

  lemma CarriedPays(d: Desk, e: Desk, id: RowKey, m: Manual, hash: nat)
    requires id !in d.resolutions && Carry(d.books, m, hash).Ok?
    requires e.books == Carry(d.books, m, hash).value.0 && e.resolutions == d.resolutions[id := Carry(d.books, m, hash).value.1]
    ensures e.resolutions != d.resolutions && |e.books.allocations| >= |d.books.allocations|
    ensures CallPays(d, e, [id], e.books.allocations[|d.books.allocations|..])
  {
    CarryPays(d.books, m, hash);
  }

  lemma StepPays(d: Desk, step: Step, threshold: nat)
    ensures CallPays(d, Apply(d, step, threshold), RowAdded(d, step, threshold), PaidByCall(d, step, threshold))
  {
    var e := Apply(d, step, threshold);
    if e != d {
      match step
      case ResolveStep(op, key, m, hash) => CarriedPays(d, e, (op.key, key), m, hash);
      case ApproveStep(op, pid, key, _, _) =>
        var p := d.proposals[pid];
        CarriedPays(d, e, (op.key, key), HonorIt(p.request, p.reason), p.hash);
      case _ =>
    }
  }

  // ----- whole runs -----

  /** The ids are exactly the rows `e` has beyond `d`, each once. */
  ghost predicate Lists(d: Desk, e: Desk, ids: seq<RowKey>) {
    && (forall i, j :: 0 <= i < j < |ids| ==> ids[i] != ids[j])
    && (forall id :: id in ids <==> id in e.resolutions && id !in d.resolutions)
  }

  lemma ListsMore(d: Desk, e: Desk, f: Desk, added: seq<RowKey>, ids: seq<RowKey>, paid: seq<L.Allocation>)
    requires CallPays(d, e, added, paid) && Extends(e, f) && Lists(e, f, ids)
    ensures Lists(d, f, added + ids)
  {
    if added == [] {
      assert added + ids == ids;
    } else {
      assert added == [added[0]] && added[0] in e.resolutions;
      forall id ensures id in added + ids <==> id in f.resolutions && id !in d.resolutions {}
    }
  }

  lemma PaymentsMore(d: Desk, e: Desk, f: Desk, added: seq<RowKey>, ids: seq<RowKey>, paid: seq<L.Allocation>)
    requires CallPays(d, e, added, paid) && Extends(e, f)
    ensures Payments(f.resolutions, added + ids) == paid + Payments(f.resolutions, ids)
  {
    if added == [] {
      assert added + ids == ids && paid + Payments(f.resolutions, ids) == Payments(f.resolutions, ids);
    } else {
      assert (added + ids)[1..] == ids && (added + ids)[0] == added[0];
    }
  }

  /** Over every run the desk's allocations are, in order, the payments of exactly
      the rows it added, each row once and never one that was there before. */
  lemma {:induction false} DeskPaysItsRows(d: Desk, run: seq<Step>, threshold: nat)
    ensures var e, ids := Run(d, run, threshold), RowsAdded(d, run, threshold);
            Lists(d, e, ids) && PaidByDesk(d, run, threshold) == Payments(e.resolutions, ids)
    decreases |run|
  {
    if run != [] {
      var next, rest, e := Apply(d, run[0], threshold), run[1..], Run(d, run, threshold);
      var added, paid := RowAdded(d, run[0], threshold), PaidByCall(d, run[0], threshold);
      StepPays(d, run[0], threshold);
      RunExtends(next, rest, threshold);
      DeskPaysItsRows(next, rest, threshold);
      ListsMore(d, next, e, added, RowsAdded(next, rest, threshold), paid);
      PaymentsMore(d, next, e, added, RowsAdded(next, rest, threshold), paid);
    }
  }

  lemma FreshDesk(books: L.Books, threshold: nat)
    ensures Inv(Desk(books, map[], map[], map[]), threshold)
  {}

  /** From a desk with no history: every payment the desk ever makes is one
      resolution row's, every row is paid once, and each one at or above the
      threshold rests on one approved proposal by someone else, no proposal on two. */
  lemma EveryPaymentIsAccounted(books: L.Books, run: seq<Step>, threshold: nat)
    ensures var d := Desk(books, map[], map[], map[]);
            var e, ids := Run(d, run, threshold), RowsAdded(d, run, threshold);
            && PaidByDesk(d, run, threshold) == Payments(e.resolutions, ids)
            && (forall i, j :: 0 <= i < j < |ids| ==> ids[i] != ids[j]) && (forall id :: id in ids <==> id in e.resolutions)
            && (forall id :: id in e.resolutions && NeedsSecond(e.resolutions[id].command, threshold) ==> exists pid :: Backs(e, pid, id))
            && (forall pid, id, other :: Backs(e, pid, id) && Backs(e, pid, other) ==> id == other)
            && (forall pid, other, id :: Backs(e, pid, id) && Backs(e, other, id) ==> pid == other)
  {
    var d := Desk(books, map[], map[], map[]);
    FreshDesk(books, threshold);
    DualControlHolds(d, run, threshold);
    DeskPaysItsRows(d, run, threshold);
  }
}
