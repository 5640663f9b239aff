// What the message board is: the last accepted message of each user.
module Board {
  import Filter

  datatype Op = Find(user: string) | Send(user: string, message: string)

  datatype Reply = Text(message: string) | Status(ok: bool)

  type Messages = map<string, string>

  function Warning(user: string): string {
    "WARNING: This user " + user + " didn't post any message or doesn't exist..."
  }

  /** One operation carried out alone: a find reads, an accepted send writes, a rejected send does neither. */
  function Apply(board: Messages, op: Op): (Messages, Reply) {
    match op
    case Find(user) => (board, Text(if user in board then board[user] else Warning(user)))
    case Send(user, message) =>
      if Filter.RegexMatch(message) then (board, Status(false)) else (board[user := message], Status(true))
  }

  /** order names operations only. */
  predicate Names(order: seq<nat>, ops: seq<Op>) {
    forall k | 0 <= k < |order| :: order[k] < |ops|
  }

  /** The board after the operations numbered by order, one after the other. */
  function Replay(ops: seq<Op>, order: seq<nat>): Messages
    requires Names(order, ops)
  {
    if order == [] then map[]
    else Apply(Replay(ops, order[..|order| - 1]), ops[order[|order| - 1]]).0
  }

  /** The reply operation u gets in that sequential execution. */
  function ReplyIn(ops: seq<Op>, order: seq<nat>, u: nat): Reply
    requires Names(order, ops)
    requires u in order
  {
    var last := |order| - 1;
    if order[last] == u then Apply(Replay(ops, order[..last]), ops[u]).1
    else ReplyIn(ops, order[..last], u)
  }

  /** Carrying out one more operation leaves the earlier answers alone and answers the new one on the board so far. */
  lemma ReplayExtend(ops: seq<Op>, order: seq<nat>, u: nat)
    requires Names(order, ops) && u < |ops| && u !in order
    ensures Names(order + [u], ops)
    ensures (Replay(ops, order + [u]), ReplyIn(ops, order + [u], u)) == Apply(Replay(ops, order), ops[u])
    ensures forall v | v in order :: ReplyIn(ops, order + [u], v) == ReplyIn(ops, order, v)
  {
    var extended := order + [u];
    assert extended[..|extended| - 1] == order;
    assert extended[|order|] == u;
  }

  /** Operation u is an accepted send of message by user. */
  predicate AcceptedSend(op: Op, user: string, message: string) {
    op == Send(user, message) && !Filter.Rejected(message)
  }

  /** Whatever the board holds for a user was sent by that user and passed the filter. */
  lemma {:induction false} BoardHoldsAcceptedSends(ops: seq<Op>, order: seq<nat>, user: string)
    requires Names(order, ops)
    requires user in Replay(ops, order)
    ensures exists u <- order :: AcceptedSend(ops[u], user, Replay(ops, order)[user])
  {
    var last := |order| - 1;
    var before := Replay(ops, order[..last]);
    var op := ops[order[last]];
    if op.Send? { Filter.RegexMatchMeaning(op.message); }
    if user in before && Apply(before, op).0[user] == before[user] {
      BoardHoldsAcceptedSends(ops, order[..last], user);
      var u :| u in order[..last] && AcceptedSend(ops[u], user, before[user]);
      assert u in order;
    } else {
      assert AcceptedSend(ops[order[last]], user, Replay(ops, order)[user]);
    }
  }

  /** A find answers with the warning text or with an accepted message of that user. */
  lemma {:induction false} FindRepliesAreAcceptedSends(ops: seq<Op>, order: seq<nat>, u: nat)
    requires Names(order, ops)
    requires u in order && ops[u].Find?
    ensures var reply := ReplyIn(ops, order, u);
      && reply.Text?
      && (reply.message == Warning(ops[u].user)
          || exists v <- order :: AcceptedSend(ops[v], ops[u].user, reply.message))
  {
    var last := |order| - 1;
    var prefix := order[..last];
    if order[last] == u {
      if ops[u].user in Replay(ops, prefix) {
        BoardHoldsAcceptedSends(ops, prefix, ops[u].user);
        var v :| v in prefix && AcceptedSend(ops[v], ops[u].user, Replay(ops, prefix)[ops[u].user]);
        assert v in order;
      }
    } else {
      FindRepliesAreAcceptedSends(ops, prefix, u);
      var reply := ReplyIn(ops, prefix, u);
      if reply.message != Warning(ops[u].user) {
        var v :| v in prefix && AcceptedSend(ops[v], ops[u].user, reply.message);
        assert v in order;
      }
    }
  }

  // ----- the meaning of the board, in terms of the order alone -----

  predicate AcceptedBy(op: Op, user: string) {
    op.Send? && op.user == user && !Filter.Rejected(op.message)
  }

  /** The operation at position p is the last accepted send of the user. */
  predicate LastSend(ops: seq<Op>, order: seq<nat>, p: nat, user: string)
    requires Names(order, ops)
  {
    && p < |order| && AcceptedBy(ops[order[p]], user)
    && forall m | p < m < |order| :: !AcceptedBy(ops[order[m]], user)
  }

  predicate NoSend(ops: seq<Op>, order: seq<nat>, user: string)
    requires Names(order, ops)
  {
    forall m | 0 <= m < |order| :: !AcceptedBy(ops[order[m]], user)
  }

  /** An accepted send of the user sets the user's message; nothing else touches it. */
  lemma ApplyForUser(board: Messages, op: Op, user: string)
    ensures var after := Apply(board, op).0;
      if AcceptedBy(op, user) then user in after && after[user] == op.message
      else (user in after <==> user in board) && (user in board ==> after[user] == board[user])
  {
    if op.Send? { Filter.RegexMatchMeaning(op.message); }
  }

  lemma LastSendExtend(ops: seq<Op>, order: seq<nat>, p: nat, user: string)
    requires Names(order, ops) && order != [] && !AcceptedBy(ops[order[|order| - 1]], user)
    requires Names(order[..|order| - 1], ops)
    ensures LastSend(ops, order[..|order| - 1], p, user) ==> LastSend(ops, order, p, user)
    ensures NoSend(ops, order[..|order| - 1], user) ==> NoSend(ops, order, user)
  {
  }

  /** The board holds the last accepted message of each user, and nothing for a user without one. */
  lemma {:induction false} BoardHoldsLastSend(ops: seq<Op>, order: seq<nat>, user: string)
    requires Names(order, ops)
    ensures if user in Replay(ops, order)
      then exists p: nat :: LastSend(ops, order, p, user) && Replay(ops, order)[user] == ops[order[p]].message
      else NoSend(ops, order, user)
  {
    if order != [] {
      var last := |order| - 1;
      var front, op := order[..last], ops[order[last]];
      var before := Replay(ops, front);
      ApplyForUser(before, op, user);
      BoardHoldsLastSend(ops, front, user);
      if AcceptedBy(op, user) {
        assert LastSend(ops, order, last, user);
      } else if user in before {
        var p: nat :| LastSend(ops, front, p, user) && before[user] == ops[front[p]].message;
        LastSendExtend(ops, order, p, user);
      } else {
        LastSendExtend(ops, order, 0, user);
      }
    }
  }

  /** What a find is answered in that order: the last accepted message of its user before it, or the warning
      if there is none. */
  lemma {:induction false} FindReadsLastSend(ops: seq<Op>, order: seq<nat>, q: nat)
    requires Names(order, ops) && q < |order| && ops[order[q]].Find?
    requires forall m | q < m < |order| :: order[m] != order[q]
    ensures var user, reply := ops[order[q]].user, ReplyIn(ops, order, order[q]);
      || (exists p: nat :: LastSend(ops, order[..q], p, user) && reply == Text(ops[order[p]].message))
      || (NoSend(ops, order[..q], user)
          && reply == Text("WARNING: This user " + user + " didn't post any message or doesn't exist..."))
  {
    var last := |order| - 1;
    if q == last {
      BoardHoldsLastSend(ops, order[..last], ops[order[q]].user);
    } else {
      FindReadsLastSend(ops, order[..last], q);
      assert order[..last][..q] == order[..q];
    }
  }

  /** There is at most one last send, and none where there is no send at all. */
  lemma LastSendIsUnique(ops: seq<Op>, order: seq<nat>, p: nat, q: nat, user: string)
    requires Names(order, ops) && LastSend(ops, order, p, user)
    ensures !NoSend(ops, order, user) && (LastSend(ops, order, q, user) ==> q == p)
  {
  }

  /** A send is told whether the filter let it through. */
  lemma {:induction false} SendRepliesAreVerdicts(ops: seq<Op>, order: seq<nat>, u: nat)
    requires Names(order, ops) && u in order
    ensures ops[u].Send? ==> ReplyIn(ops, order, u) == Status(!Filter.Rejected(ops[u].message))
  {
    var last := |order| - 1;
    if order[last] != u {
      SendRepliesAreVerdicts(ops, order[..last], u);
    } else if ops[u].Send? {
      Filter.RegexMatchMeaning(ops[u].message);
    }
  }
}
