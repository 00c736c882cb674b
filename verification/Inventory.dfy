/**
 Stock and its ledger, in integer hundredths: whole calls one after another, and the three statements of a movement
 (read, update, ledger insert) interleaved among any number of callers.
 */
module Inventory {
  import opened Wrappers

  datatype Movement = Receive | Adjust | TransferIn | TransferOut | Reserve | Use | Return

  datatype Part = Part(onHand: int, reserved: int)

  datatype Transaction = Transaction(movement: Movement, quantity: int)

  datatype StockError = NotFound | QuantityNotPositive | NotEnoughStock | NotEnoughToReserve | ReturnExceedsReserved

  function Signed(movement: Movement, quantity: int): int {
    match movement
    case Use => -quantity
    case TransferOut => -quantity
    case Return => 0
    case Reserve => 0
    case _ => quantity
  }

  function ReservedDelta(movement: Movement, quantity: int): int {
    match movement
    case Reserve => quantity
    case Use => -quantity
    case Return => -quantity
    case _ => 0
  }

  function Greatest0(n: int): int {
    if n < 0 then 0 else n
  }

  /** The guards of a movement, against the part as it was read. */
  function Refusal(part: Part, movement: Movement, quantity: int): Option<StockError> {
    var available := part.onHand - part.reserved;
    if quantity <= 0 then Some(QuantityNotPositive)
    else if (movement == Use || movement == TransferOut) && quantity > available then Some(NotEnoughStock)
    else if movement == Reserve && quantity > available then Some(NotEnoughToReserve)
    else if movement == Return && quantity > part.reserved then Some(ReturnExceedsReserved)
    else None
  }

  /** A movement is accepted exactly when its quantity is positive and the part has that much to give. */
  predicate Feasible(part: Part, movement: Movement, quantity: int) {
    quantity > 0 &&
    match movement
    case Receive | Adjust | TransferIn => true
    case Use | TransferOut | Reserve => part.reserved + quantity <= part.onHand
    case Return => quantity <= part.reserved
  }

  lemma RefusedExactly(part: Part, movement: Movement, quantity: int)
    ensures Refusal(part, movement, quantity).None? <==> Feasible(part, movement, quantity)
    ensures Refusal(part, movement, quantity) == Some(QuantityNotPositive) <==> quantity <= 0
    ensures Refusal(part, movement, quantity) == Some(NotEnoughStock) <==>
            quantity > 0 && movement in {Use, TransferOut} && !Feasible(part, movement, quantity)
    ensures Refusal(part, movement, quantity) == Some(NotEnoughToReserve) <==>
            quantity > 0 && movement == Reserve && !Feasible(part, movement, quantity)
    ensures Refusal(part, movement, quantity) == Some(ReturnExceedsReserved) <==>
            quantity > 0 && movement == Return && !Feasible(part, movement, quantity)
  {
  }

  /** The UPDATE statement. */
  function Moved(part: Part, movement: Movement, quantity: int): Part {
    Part(part.onHand + Signed(movement, quantity), Greatest0(part.reserved + ReservedDelta(movement, quantity)))
  }

  /** A part rebuilt from its ledger alone. */
  function Replay(ledger: seq<Transaction>): Part {
    if ledger == [] then Part(0, 0)
    else
      var last := ledger[|ledger| - 1];
      Moved(Replay(ledger[..|ledger| - 1]), last.movement, last.quantity)
  }

  lemma ReplayAppend(ledger: seq<Transaction>, t: Transaction)
    ensures Replay(ledger + [t]) == Moved(Replay(ledger), t.movement, t.quantity)
  {
    assert (ledger + [t])[..|ledger|] == ledger;
  }

  /** What a movement does to the two columns of a part with enough of both. */
  lemma MovesColumns(part: Part, quantity: int)
    requires 0 <= quantity <= part.reserved
    ensures forall m | m in {Receive, Adjust, TransferIn} ::
      Moved(part, m, quantity) == Part(part.onHand + quantity, part.reserved)
    ensures Moved(part, TransferOut, quantity) == Part(part.onHand - quantity, part.reserved)
    ensures Moved(part, Reserve, quantity) == Part(part.onHand, part.reserved + quantity)
    ensures Moved(part, Return, quantity) == Part(part.onHand, part.reserved - quantity)
    ensures Moved(part, Use, quantity) == Part(part.onHand - quantity, part.reserved - quantity)
  {
  }

  /** Using more than is reserved takes all of the reservation. */
  lemma UseBeyondReserved(part: Part, quantity: int)
    requires 0 <= part.reserved < quantity
    ensures Moved(part, Use, quantity) == Part(part.onHand - quantity, 0)
  {
  }

  predicate Sound(part: Part) {
    0 <= part.reserved <= part.onHand
  }

  // ---------- Whole calls ----------

  class InventoryService {
    var parts: map<string, Part>
    var ledger: map<string, seq<Transaction>>

    /** Every part is sound and is what its ledger replays to. */
    ghost predicate Valid()
      reads this
    {
      parts.Keys == ledger.Keys && forall id | id in parts :: Sound(parts[id]) && parts[id] == Replay(ledger[id])
    }

    constructor ()
      ensures Valid() && parts == map[]
    {
      parts, ledger := map[], map[];
    }

    /** Negative opening stock counts as none; only stock above zero is logged. */
    method CreatePart(id: string, quantityOnHand: int)
      requires Valid() && id !in parts
      modifies this
      ensures Valid()
      ensures parts == old(parts)[id := Part(Greatest0(quantityOnHand), 0)]
      ensures ledger == old(ledger)[id := if quantityOnHand > 0 then [Transaction(Receive, quantityOnHand)] else []]
    {
      var stock := if quantityOnHand < 0 then 0 else quantityOnHand;
      parts := parts[id := Part(stock, 0)];
      ledger := ledger[id := []];
      if stock > 0 {
        LogTransaction(id, Receive, stock);
        ReplayAppend([], Transaction(Receive, stock));
        assert [] + [Transaction(Receive, stock)] == [Transaction(Receive, stock)];
      }
    }

    method CreateMovement(id: string, movement: Movement, quantity: int) returns (r: Result<Part, StockError>)
      requires Valid()
      modifies this
      ensures Valid()
      ensures forall id | id in parts :: 0 <= parts[id].reserved <= parts[id].onHand && parts[id] == Replay(ledger[id])
      ensures id !in old(parts) ==> r == Failure(NotFound)
      ensures r.Failure? ==> parts == old(parts) && ledger == old(ledger)
      ensures r.Success? <==> id in old(parts) && Feasible(old(parts)[id], movement, quantity)
      ensures id in old(parts) ==>
        match Refusal(old(parts)[id], movement, quantity)
        case Some(error) => r == Failure(error)
        case None =>
          r == Success(Moved(old(parts)[id], movement, quantity)) && parts == old(parts)[id := r.value] &&
          ledger == old(ledger)[id := old(ledger)[id] + [Transaction(movement, quantity)]]
    {
      if id !in parts {
        return Failure(NotFound);
      }
      var part := parts[id];
      RefusedExactly(part, movement, quantity);
      if quantity <= 0 {
        return Failure(QuantityNotPositive);
      }
      var available := part.onHand - part.reserved;
      if (movement == Use || movement == TransferOut) && quantity > available {
        return Failure(NotEnoughStock);
      }
      if movement == Reserve && quantity > available {
        return Failure(NotEnoughToReserve);
      }
      if movement == Return && quantity > part.reserved {
        return Failure(ReturnExceedsReserved);
      }
      MovementKeepsSound(part, movement, quantity);
      ReplayAppend(ledger[id], Transaction(movement, quantity));
      var signed, delta := Signed(movement, quantity), ReservedDelta(movement, quantity);
      parts := parts[id := Part(part.onHand + signed, Greatest0(part.reserved + delta))];
      LogTransaction(id, movement, quantity);
      return Success(parts[id]);
    }

    method LogTransaction(id: string, movement: Movement, quantity: int)
      requires id in ledger
      modifies this`ledger
      ensures ledger == old(ledger)[id := old(ledger)[id] + [Transaction(movement, quantity)]]
    {
      ledger := ledger[id := ledger[id] + [Transaction(movement, quantity)]];
    }
  }

  lemma MovementKeepsSound(part: Part, movement: Movement, quantity: int)
    requires Sound(part) && Refusal(part, movement, quantity).None?
    ensures Sound(Moved(part, movement, quantity))
  {
  }

  /**
   How movements balance: stock that came in and goes out, or is reserved and returned, leaves the part as it was; using
   reserved stock takes it from both columns.
   */
  lemma MovementsBalance(part: Part, quantity: int)
    requires Sound(part) && quantity > 0
    ensures Moved(Moved(part, Receive, quantity), TransferOut, quantity) == part
    ensures Moved(Moved(part, TransferIn, quantity), TransferOut, quantity) == part
    ensures Moved(Moved(part, Adjust, quantity), TransferOut, quantity) == part
    ensures Moved(Moved(part, Reserve, quantity), Return, quantity) == part
    ensures Moved(Moved(part, Reserve, quantity), Use, quantity) == Part(part.onHand - quantity, part.reserved)
    ensures Moved(part, Receive, quantity).onHand == part.onHand + quantity
    ensures Moved(part, Reserve, quantity) == Part(part.onHand, part.reserved + quantity)
  {
  }

  /** A movement that passes no check of its own keeps the part sound exactly when it leaves enough on hand. */
  lemma UnguardedMovementKeepsExactly(part: Part, movement: Movement, quantity: int)
    requires Sound(part) && quantity > 0
    ensures Sound(Moved(part, movement, quantity)) <==>
      match movement
      case Use => quantity <= part.onHand
      case TransferOut => quantity <= part.onHand - part.reserved
      case Reserve => quantity <= part.onHand - part.reserved
      case _ => true
  {
  }

  // ---------- Interleaved statements on one part ----------

  datatype Call = Checked(movement: Movement, quantity: int) | Applied(movement: Movement, quantity: int) | Finished

  datatype State = State(part: Part, ledger: seq<Transaction>, calls: seq<Call>)

  datatype Step = Read(movement: Movement, quantity: int) | Apply(call: nat) | Log(call: nat)

  function Next(s: State, step: Step): State {
    match step
    case Read(movement, quantity) =>
      if Refusal(s.part, movement, quantity).Some? then s else s.(calls := s.calls + [Checked(movement, quantity)])
    case Apply(call) =>
      if call >= |s.calls| || !s.calls[call].Checked? then s
      else
        var c := s.calls[call];
        s.(part := Moved(s.part, c.movement, c.quantity), calls := s.calls[call := Applied(c.movement, c.quantity)])
    case Log(call) =>
      if call >= |s.calls| || !s.calls[call].Applied? then s
      else
        var c := s.calls[call];
        s.(ledger := s.ledger + [Transaction(c.movement, c.quantity)], calls := s.calls[call := Finished])
  }

  function After(s: State, steps: seq<Step>): State
    decreases steps
  {
    if steps == [] then s else After(Next(s, steps[0]), steps[1..])
  }

  /**
   The three statements of a call on their own are the whole call: a feasible movement changes the part and is logged,
   and any other leaves no trace.
   */
  lemma CallOnItsOwn(s: State, movement: Movement, quantity: int)
    ensures
      var end := After(s, [Read(movement, quantity), Apply(|s.calls|), Log(|s.calls|)]);
      if Feasible(s.part, movement, quantity)
      then end == State(Moved(s.part, movement, quantity), s.ledger + [Transaction(movement, quantity)],
                        s.calls + [Finished])
      else end == s
  {
    RefusedExactly(s.part, movement, quantity);
    hide Refusal, Feasible, Moved;
    var steps := [Read(movement, quantity), Apply(|s.calls|), Log(|s.calls|)];
    var first := Next(s, steps[0]);
    var second := Next(first, steps[1]);
    var third := Next(second, steps[2]);
    assert steps[1..][1..] == [steps[2]] && [steps[2]][1..] == [];
    assert After(second, [steps[2]]) == After(third, []);
    assert After(first, steps[1..]) == After(second, [steps[2]]);
  }

  function LedgerSum(ledger: seq<Transaction>): int {
    if ledger == [] then 0
    else LedgerSum(ledger[..|ledger| - 1]) + Signed(ledger[|ledger| - 1].movement, ledger[|ledger| - 1].quantity)
  }

  function Unlogged(c: Call): int {
    if c.Applied? then Signed(c.movement, c.quantity) else 0
  }

  /** What the movements applied but not yet logged add to the stock. */
  function InFlight(calls: seq<Call>): int {
    if calls == [] then 0 else InFlight(calls[..|calls| - 1]) + Unlogged(calls[|calls| - 1])
  }

  lemma {:induction false} InFlightUpdate(calls: seq<Call>, i: nat, c: Call)
    requires i < |calls|
    ensures InFlight(calls[i := c]) == InFlight(calls) - Unlogged(calls[i]) + Unlogged(c)
  {
    var last := |calls| - 1;
    if i == last {
      assert calls[i := c][..last] == calls[..last];
    } else {
      assert calls[i := c][..last] == calls[..last][i := c];
      InFlightUpdate(calls[..last], i, c);
    }
  }

  predicate Balanced(s: State) {
    s.part.onHand == LedgerSum(s.ledger) + InFlight(s.calls)
  }

  lemma StepBalances(s: State, step: Step)
    requires Balanced(s)
    ensures Balanced(Next(s, step))
  {
    hide LedgerSum, InFlight, Signed;
    if step.Read? {
      AppendCall(s.calls, Checked(step.movement, step.quantity));
    } else if step.call < |s.calls| {
      var c := s.calls[step.call];
      if step.Apply? && c.Checked? {
        InFlightUpdate(s.calls, step.call, Applied(c.movement, c.quantity));
      } else if step.Log? && c.Applied? {
        InFlightUpdate(s.calls, step.call, Finished);
        AppendTransaction(s.ledger, Transaction(c.movement, c.quantity));
      }
    }
  }

  lemma AppendCall(calls: seq<Call>, c: Call)
    ensures InFlight(calls + [c]) == InFlight(calls) + Unlogged(c)
  {
    assert (calls + [c])[..|calls|] == calls;
  }

  lemma AppendTransaction(ledger: seq<Transaction>, t: Transaction)
    ensures LedgerSum(ledger + [t]) == LedgerSum(ledger) + Signed(t.movement, t.quantity)
  {
    assert (ledger + [t])[..|ledger|] == ledger;
  }

  lemma {:induction false} RunBalances(s: State, steps: seq<Step>)
    requires Balanced(s)
    ensures Balanced(After(s, steps))
    decreases steps
  {
    hide Balanced, Next;
    if steps != [] {
      StepBalances(s, steps[0]);
      RunBalances(Next(s, steps[0]), steps[1..]);
    }
  }

  predicate Quiescent(s: State) {
    forall i | 0 <= i < |s.calls| :: !s.calls[i].Applied?
  }

  lemma {:induction false} NothingInFlight(calls: seq<Call>)
    requires forall i | 0 <= i < |calls| :: !calls[i].Applied?
    ensures InFlight(calls) == 0
  {
    if calls != [] {
      NothingInFlight(calls[..|calls| - 1]);
    }
  }

  /** Over every interleaving, the stock at a quiescent state is the signed sum of the ledger. */
  lemma LedgerExplainsStock(s: State, steps: seq<Step>)
    requires Balanced(s) && Quiescent(After(s, steps))
    ensures After(s, steps).part.onHand == LedgerSum(After(s, steps).ledger)
  {
    RunBalances(s, steps);
    NothingInFlight(After(s, steps).calls);
  }

  /** The stock bounds, however, rest on the part as it was read: two concurrent uses can take it below zero. */
  lemma ConcurrentUseOverdraws(quantity: int)
    requires quantity > 0
    ensures
      var s := State(Part(quantity, 0), [Transaction(Receive, quantity)], []);
      var end := Next(Next(Next(Next(s, Read(Use, quantity)), Read(Use, quantity)), Apply(0)), Apply(1));
      Balanced(s) && Sound(s.part) && end.part.onHand == -quantity && !Sound(end.part)
  {
    var s := State(Part(quantity, 0), [Transaction(Receive, quantity)], []);
    var use := Checked(Use, quantity);
    AppendTransaction([], Transaction(Receive, quantity));
    assert [] + [Transaction(Receive, quantity)] == s.ledger;
    var s1 := Next(s, Read(Use, quantity));
    var s2 := Next(s1, Read(Use, quantity));
    assert s2 == State(s.part, s.ledger, [use, use]);
    var s3 := Next(s2, Apply(0));
    var s4 := Next(s3, Apply(1));
  }

  predicate WrongApply(s: State, step: Step) {
    step.Apply? && step.call < |s.calls| && s.calls[step.call].Checked? &&
    var c := s.calls[step.call];
    match c.movement
    case Use => c.quantity > s.part.onHand
    case TransferOut => c.quantity > s.part.onHand - s.part.reserved
    case Reserve => c.quantity > s.part.onHand - s.part.reserved
    case _ => false
  }

  predicate QuantitiesPositive(s: State) {
    forall i | 0 <= i < |s.calls| && s.calls[i].Checked? :: s.calls[i].quantity > 0
  }

  /** A statement keeps 0 <= reserved <= on hand exactly when no update takes more than is there at its own moment. */
  lemma StatementKeepsSoundExactly(s: State, step: Step)
    requires Sound(s.part) && QuantitiesPositive(s)
    ensures QuantitiesPositive(Next(s, step))
    ensures Sound(Next(s, step).part) <==> !WrongApply(s, step)
  {
    if step.Apply? && step.call < |s.calls| && s.calls[step.call].Checked? {
      UnguardedMovementKeepsExactly(s.part, s.calls[step.call].movement, s.calls[step.call].quantity);
    }
  }

  predicate NeverWrong(s: State, steps: seq<Step>)
    decreases steps
  {
    steps == [] || (!WrongApply(s, steps[0]) && NeverWrong(Next(s, steps[0]), steps[1..]))
  }

  /** Over every interleaving without such an update the bounds hold throughout. */
  lemma {:induction false} InterleavedRunKeepsSound(s: State, steps: seq<Step>)
    requires Sound(s.part) && QuantitiesPositive(s) && NeverWrong(s, steps)
    ensures Sound(After(s, steps).part)
    decreases steps
  {
    if steps != [] {
      StatementKeepsSoundExactly(s, steps[0]);
      InterleavedRunKeepsSound(Next(s, steps[0]), steps[1..]);
    }
  }
}
