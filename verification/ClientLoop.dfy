// The client program: a loop that issues sends and finds in turn, while the event loop
// thread delivers replies and errors for the calls already issued.
module ClientLoop {

  datatype Future = Pending | Answered | Failed

  /** Call i is a find when i is odd and a send otherwise. */
  predicate IsFind(i: nat) {
    i % 2 == 1
  }

  /** How many calls of one kind stand this way. */
  function Count(futs: seq<Future>, finds: bool, state: Future): nat {
    if futs == [] then 0
    else
      var last := |futs| - 1;
      Count(futs[..last], finds, state) + if IsFind(last) == finds && futs[last] == state then 1 else 0
  }

  lemma {:induction false} CountUpdate(futs: seq<Future>, i: nat, f: Future, finds: bool, state: Future)
    requires i < |futs|
    ensures Count(futs[i := f], finds, state) == Count(futs, finds, state)
      + (if IsFind(i) == finds && f == state then 1 else 0) - (if IsFind(i) == finds && futs[i] == state then 1 else 0)
  {
    var last := |futs| - 1;
    if i == last {
      assert futs[i := f][..last] == futs[..last];
    } else {
      CountUpdate(futs[..last], i, f, finds, state);
      assert futs[i := f][..last] == futs[..last][i := f];
    }
  }

  /** Of n calls n / 2 are finds and the rest sends, each pending, answered or failed. */
  lemma {:induction false} KindsAddUp(futs: seq<Future>)
    ensures Count(futs, true, Pending) + Count(futs, true, Answered) + Count(futs, true, Failed) == |futs| / 2
    ensures Count(futs, false, Pending) + Count(futs, false, Answered) + Count(futs, false, Failed)
      == |futs| - |futs| / 2
  {
    if futs != [] { KindsAddUp(futs[..|futs| - 1]); }
  }

  lemma {:induction false} NonePending(futs: seq<Future>, finds: bool)
    requires forall i | 0 <= i < |futs| :: !futs[i].Pending?
    ensures Count(futs, finds, Pending) == 0
  {
    if futs != [] { NonePending(futs[..|futs| - 1], finds); }
  }

  /** How call i ends: as told by the first delivery from round k on that has it, and by the rest if there is none. */
  function Outcome(deliveries: nat -> map<nat, bool>, rest: nat -> bool, i: nat, k: nat, n: nat): bool
    decreases n - k
  {
    if k >= n then rest(i)
    else if i in deliveries(k) then deliveries(k)[i]
    else Outcome(deliveries, rest, i, k + 1, n)
  }

  /** Where call i stands after the first n rounds. */
  function StateAfter(deliveries: nat -> map<nat, bool>, i: nat, k: nat, n: nat): Future
    decreases n - k
  {
    if k >= n then Pending
    else if i in deliveries(k) then if deliveries(k)[i] then Answered else Failed
    else StateAfter(deliveries, i, k + 1, n)
  }

  lemma {:induction false} StateIsOutcome(deliveries: nat -> map<nat, bool>, rest: nat -> bool, i: nat, k: nat, n: nat)
    ensures var state := StateAfter(deliveries, i, k, n);
      (if state.Pending? then if rest(i) then Answered else Failed else state)
        == if Outcome(deliveries, rest, i, k, n) then Answered else Failed
    decreases n - k
  {
    if k < n && i !in deliveries(k) { StateIsOutcome(deliveries, rest, i, k + 1, n); }
  }

  lemma {:induction false} OneMoreRound(deliveries: nat -> map<nat, bool>, i: nat, k: nat, n: nat)
    requires k <= n
    ensures var state := StateAfter(deliveries, i, k, n);
      StateAfter(deliveries, i, k, n + 1)
        == if state.Pending? && i in deliveries(n) then (if deliveries(n)[i] then Answered else Failed) else state
    decreases n - k
  {
    if k < n && i !in deliveries(k) { OneMoreRound(deliveries, i, k + 1, n); }
  }

  class Client {
    var findSuccessCounter: nat
    var sendSuccessCounter: nat
    var futs: seq<Future>

    /** The counters count the answered calls. */
    ghost predicate Valid()
      reads this
    {
      findSuccessCounter == Count(futs, true, Answered) && sendSuccessCounter == Count(futs, false, Answered)
    }

    constructor ()
      ensures Valid() && futs == []
    {
      findSuccessCounter, sendSuccessCounter, futs := 0, 0, [];
    }

    /** onFindReply and onSendReply; each future is completed once. */
    method OnReply(i: nat)
      requires Valid() && i < |futs| && futs[i].Pending?
      modifies this
      ensures Valid() && futs == old(futs)[i := Answered]
    {
      CountUpdate(futs, i, Answered, true, Answered);
      CountUpdate(futs, i, Answered, false, Answered);
      if i % 2 == 1 {
        findSuccessCounter := findSuccessCounter + 1;
      } else {
        sendSuccessCounter := sendSuccessCounter + 1;
      }
      futs := futs[i := Answered];
    }

    /** An error is logged and counted nowhere. */
    method OnError(i: nat)
      requires Valid() && i < |futs| && futs[i].Pending?
      modifies this
      ensures Valid() && futs == old(futs)[i := Failed]
      ensures findSuccessCounter == old(findSuccessCounter) && sendSuccessCounter == old(sendSuccessCounter)
    {
      CountUpdate(futs, i, Failed, true, Answered);
      CountUpdate(futs, i, Failed, false, Answered);
      futs := futs[i := Failed];
    }

    /** Anything the event loop does before the program looks again: the calls in outcomes that are pending complete so. */
    method Deliver(outcomes: map<nat, bool>)
      requires Valid()
      modifies this
      ensures Valid() && |futs| == |old(futs)|
      ensures forall i | 0 <= i < |futs| ::
        futs[i] == if old(futs[i]).Pending? && i in outcomes then (if outcomes[i] then Answered else Failed) else old(futs[i])
    {
      for i := 0 to |futs|
        invariant Valid() && |futs| == |old(futs)|
        invariant forall k | i <= k < |futs| :: futs[k] == old(futs[k])
        invariant forall k | 0 <= k < i ::
          futs[k] == if old(futs[k]).Pending? && k in outcomes then (if outcomes[k] then Answered else Failed) else old(futs[k])
      {
        if futs[i].Pending? && i in outcomes {
          if outcomes[i] { OnReply(i); } else { OnError(i); }
        }
      }
    }

    /** The program up to collectAll, which fires when no call is pending; deliveries says what completes while it
        issues each call, the rest completes afterwards. Counters and errors then account for every call. */
    method Run(iterations: int, deliveries: nat -> map<nat, bool>, rest: nat -> bool) returns (sends: nat, finds: nat)
      requires Valid() && futs == []
      modifies this
      ensures var n := if iterations > 0 then iterations else 10;
        && |futs| == n && finds == n / 2 && sends == n - n / 2
        && (forall i | 0 <= i < n :: futs[i] == if Outcome(deliveries, rest, i, i, n) then Answered else Failed)
        && findSuccessCounter <= finds && sendSuccessCounter <= sends
        && findSuccessCounter + Count(futs, true, Failed) == finds
        && sendSuccessCounter + Count(futs, false, Failed) == sends
    {
      var n: nat := if iterations > 0 then iterations else 10;
      for i := 0 to n
        invariant Valid() && |futs| == i
        invariant forall k | 0 <= k < i :: futs[k] == StateAfter(deliveries, k, k, i)
      {
        ghost var before := futs;
        futs := futs + [Pending];
        assert futs[..|futs| - 1] == before;
        Deliver(deliveries(i));
        forall k | 0 <= k <= i ensures futs[k] == StateAfter(deliveries, k, k, i + 1) {
          OneMoreRound(deliveries, k, k, i);
        }
      }
      Deliver(map i | 0 <= i < n :: rest(i));
      forall i | 0 <= i < n ensures futs[i] == if Outcome(deliveries, rest, i, i, n) then Answered else Failed {
        StateIsOutcome(deliveries, rest, i, i, n);
      }
      finds := n / 2;
      sends := n - finds;
      KindsAddUp(futs);
      NonePending(futs, true);
      NonePending(futs, false);
    }
  }
}
