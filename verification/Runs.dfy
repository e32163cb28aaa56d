/**
  What holds over whole runs: the book is the flat list at every point, it is never crossed, and no
  queued order exposes more than it has.
 */
module RunProperties {
  import opened Types
  import opened BookSpec
  import opened BookInvariant
  import opened BookOps
  import opened FlatBooks
  import opened Simulation

  /** One operation on the flat book; whether a fill-or-kill order is let through is given. */
  function NaiveApply(f: FlatBook, op: Op, accept: bool): FlatBook
    requires FlatOk(f) && (op.Add? ==> op.order.Sane())
  {
    match op
    case Add(o) => NaiveProcess(f, o, accept)
    case Cancel(id) => NaiveCancel(f, id).0
    case Modify(id, price, qty) => NaiveModify(f, id, price, qty, accept)
  }

  /** The only decision the flat book is told: is the depth of the book enough for a fill-or-kill order? */
  ghost predicate Accepts(b: BookState, op: Op) {
    op.Add? && FokLiquidity(b.WithOrder(op.order), op.order)
  }

  lemma SimApply(b: BookState, f: FlatBook, op: Op)
    requires Inv(b) && Allowed(b, op) && Sim(b, f) && FlatOk(f)
    ensures Sim(Apply(b, op), NaiveApply(f, op, Accepts(b, op))) && FlatOk(NaiveApply(f, op, Accepts(b, op)))
  {
    hide Inv, Sim, FlatOk, AddOrder, CancelOrder, ModifyOrder, NaiveProcess, NaiveCancel, NaiveModify, FokLiquidity;
    match op {
      case Add(o) => SimAdd(b, f, o);
      case Cancel(id) => SimCancel(b, f, id);
      case Modify(id, price, qty) => SimModify(b, f, id, price, qty, Accepts(b, op));
    }
  }

  /** The flat book after the operations that take the book from b to b'. */
  ghost function FlatAfter(b: BookState, f: FlatBook, ops: seq<Op>, b': BookState): FlatBook
    requires Inv(b) && Sim(b, f) && FlatOk(f) && Runs(b, ops, b')
    decreases |ops|
  {
    if ops == [] then f else
    SimApply(b, f, ops[0]);
    ApplyKeeps(b, ops[0]);
    FlatAfter(Apply(b, ops[0]), NaiveApply(f, ops[0], Accepts(b, ops[0])), ops[1..], b')
  }

  /** Refinement over runs: after any allowed operations the book holds, queue by queue, what the
      flat list holds, and has reported the same trades. */
  lemma {:induction false} BookRefinesFlat(b: BookState, f: FlatBook, ops: seq<Op>, b': BookState)
    requires Inv(b) && Sim(b, f) && FlatOk(f) && Runs(b, ops, b')
    ensures Inv(b') && Sim(b', FlatAfter(b, f, ops, b')) && FlatOk(FlatAfter(b, f, ops, b'))
    decreases |ops|
  {
    hide Inv, Sim, FlatOk, Apply, NaiveApply, Accepts;
    if ops != [] {
      SimApply(b, f, ops[0]);
      ApplyKeeps(b, ops[0]);
      BookRefinesFlat(Apply(b, ops[0]), NaiveApply(f, ops[0], Accepts(b, ops[0])), ops[1..], b');
    }
  }

  lemma EmptySim()
    ensures Inv(EMPTY_BOOK) && Sim(EMPTY_BOOK, EMPTY_FLAT) && FlatOk(EMPTY_FLAT)
  {
    EmptyBookOk();
  }

  // ---- never crossed --------------------------------------------------------------------------------

  /** After any run, including runs in which the window drops levels, every resting bid is priced
      strictly below every resting ask. */
  lemma NeverCrossed(b: BookState, i: nat, j: nat, p: Price, q: Price)
    requires Reachable(b) && i < |b.Queue(BUY, p)| && j < |b.Queue(SELL, q)|
    ensures p < q
  {
    ReachableIsOk(b);
  }

  // ---- quantities -----------------------------------------------------------------------------------

  /** Every queued order is stored and indexed at its place; it never exposes more than it has, nor
      an iceberg more than one clip. */
  lemma QueuedOrders(b: BookState, s: Side, p: Price, k: nat)
    requires Reachable(b) && s != INVALID && k < |b.Queue(s, p)|
    ensures var e := b.Queue(s, p)[k];
      && e.id in b.orders && e.id in b.refs && b.refs[e.id] == OrderRef(s, p, Some(e.slot))
      && var o := b.orders[e.id];
         && o.side == s && o.price == p
         && o.filled <= o.working <= o.total
         && (o.kind == ICEBERG ==> o.Pending() <= o.display)
         && (o.Pending() == 0 ==> o.Remaining() == 0)
  {
    ReachableIsOk(b);
    QueuedIsLive(b, None, s, p, k);
  }
}
