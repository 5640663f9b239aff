// The chat room: a growing list of messages and readers that page through it with a token.
module ChatRoom {
  import opened Arithmetic
  import opened Wrappers

  datatype Message = Message(sender: string, text: string, timestamp: int)

  /** The cast of a vector size to a 32-bit int. */
  function ToInt(size: nat): (r: int)
    ensures r <= size && r < 0x8000_0000
    ensures size < 0x8000_0000 ==> r == size
  {
    var low := size % 0x1_0000_0000;
    if low < 0x8000_0000 then low else low - 0x1_0000_0000
  }

  /** Of the numbers a 32-bit int can hold, the one that differs from the size by a multiple of 2^32. */
  lemma CastWraps(size: nat)
    ensures -0x8000_0000 <= ToInt(size) < 0x8000_0000
    ensures size == ToInt(size) + 0x1_0000_0000 * (size / 0x1_0000_0000 + if ToInt(size) < 0 then 1 else 0)
  {
  }

  function Min(a: int, b: int): int {
    if a < b then a else b
  }

  /** How many messages one call delivers from position index. */
  function BatchSize(total: nat, index: int, maxPerGet: int): (n: nat)
    ensures index <= total ==> index + n <= total
    ensures n > 0 ==> index + n < 0x8000_0000
  {
    var n := Min(ToInt(total) - index, maxPerGet);
    if n < 0 then 0 else n
  }

  class ChatRoomService {
    const maxMessagesPerGet: int
    var messageBuffer: seq<Message>

    constructor (maxMessagesPerGet: int := 1000)
      ensures this.maxMessagesPerGet == maxMessagesPerGet && messageBuffer == []
    {
      this.maxMessagesPerGet := maxMessagesPerGet;
      this.messageBuffer := [];
    }

    method SendMessage(sender: string, text: string, now: int)
      modifies this
      ensures messageBuffer == old(messageBuffer) + [Message(sender, text, now)]
    {
      var msg := Message(sender, text, now);
      messageBuffer := messageBuffer + [msg];
    }

    /** A batch from the token on, and the token after it. A negative token is not checked by the
        service: if anything is to be delivered from there, it reads before the list. */
    method GetMessages(token: Option<int>) returns (messages: seq<Message>, next: int)
      requires token.Some? && token.value < 0 ==> BatchSize(|messageBuffer|, token.value, maxMessagesPerGet) == 0
      ensures var index := if token.Some? then token.value else 0;
        && next == index + BatchSize(|messageBuffer|, index, maxMessagesPerGet)
        && if 0 <= index <= |messageBuffer| then next <= |messageBuffer| && messages == messageBuffer[index..next]
           else messages == [] && next == index
    {
      var idx := 0;
      if token.Some? {
        idx := token.value;
      }
      var i := idx;
      messages := [];
      var size := ToInt(|messageBuffer|);
      var count := 0;
      while i < size && count < maxMessagesPerGet
        invariant count == |messages| && i == idx + count
        invariant idx <= i && (i == idx || (i <= size && count <= maxMessagesPerGet))
        invariant if 0 <= i <= |messageBuffer| then messages == messageBuffer[idx..i] else messages == []
        decreases size - i
      {
        messages := messages + [messageBuffer[i]];
        i := i + 1;
        count := count + 1;
      }
      next := i;
    }
  }

  // ----- one poller among many senders -----

  datatype Action = SendOne(message: Message) | Poll

  /** The buffer, and a poller that keeps its last token and everything it was given. */
  datatype Room = Room(buffer: seq<Message>, token: nat, received: seq<Message>)

  const EMPTY: Room := Room([], 0, [])

  function Next(room: Room, a: Action, maxPerGet: int): Room
    requires room.token <= |room.buffer|
  {
    match a
    case SendOne(message) => room.(buffer := room.buffer + [message])
    case Poll =>
      var next := room.token + BatchSize(|room.buffer|, room.token, maxPerGet);
      room.(token := next, received := room.received + room.buffer[room.token..next])
  }

  /** Everything before the token was delivered, once, in order, and nothing else. */
  predicate Delivered(room: Room) {
    room.token <= |room.buffer| && room.received == room.buffer[..room.token]
  }

  lemma NextKeepsDelivered(room: Room, a: Action, maxPerGet: int)
    requires Delivered(room)
    ensures Delivered(Next(room, a, maxPerGet))
  {
    if a.Poll? {
      var next := room.token + BatchSize(|room.buffer|, room.token, maxPerGet);
      assert room.buffer[..next] == room.buffer[..room.token] + room.buffer[room.token..next];
    }
  }

  /** The room after the actions, in any interleaving of senders and the poller. */
  function After(actions: seq<Action>, maxPerGet: int): (room: Room)
    ensures Delivered(room)
  {
    if actions == [] then EMPTY
    else
      var before := After(actions[..|actions| - 1], maxPerGet);
      NextKeepsDelivered(before, actions[|actions| - 1], maxPerGet);
      Next(before, actions[|actions| - 1], maxPerGet)
  }

  /** The messages sent, in the order of sending. */
  function Sent(actions: seq<Action>): seq<Message> {
    if actions == [] then []
    else
      var last := actions[|actions| - 1];
      Sent(actions[..|actions| - 1]) + if last.SendOne? then [last.message] else []
  }

  /** Exactly once and in order: what the poller has is a prefix of what was sent, as long as its token says,
      whatever the interleaving, the batch limit and the number of messages. */
  lemma {:induction false} ExactlyOnceInOrder(actions: seq<Action>, maxPerGet: int)
    ensures var room := After(actions, maxPerGet);
      && room.buffer == Sent(actions)
      && room.token <= |Sent(actions)| && room.received == Sent(actions)[..room.token]
  {
    if actions != [] { ExactlyOnceInOrder(actions[..|actions| - 1], maxPerGet); }
  }

  function Polls(n: nat): seq<Action> {
    if n == 0 then [] else Polls(n - 1) + [Poll]
  }

  lemma AfterAppend(actions: seq<Action>, a: Action, maxPerGet: int)
    ensures After(actions + [a], maxPerGet) == Next(After(actions, maxPerGet), a, maxPerGet)
  {
    assert (actions + [a])[..|actions|] == actions;
  }

  lemma OnePollAdvances(room: Room, maxPerGet: int)
    requires Delivered(room) && maxPerGet >= 1 && |room.buffer| < 0x8000_0000
    ensures Next(room, Poll, maxPerGet).token == Min(room.token + maxPerGet, |room.buffer|)
    ensures Next(room, Poll, maxPerGet).buffer == room.buffer
  {
  }

  /** The token never leaves the range of the cast. */
  lemma {:induction false} TokenIsSmall(actions: seq<Action>, maxPerGet: int)
    ensures After(actions, maxPerGet).token < 0x8000_0000
  {
    if actions != [] { TokenIsSmall(actions[..|actions| - 1], maxPerGet); }
  }

  /** How far n full batches reach. */
  function Reach(n: nat, maxPerGet: nat): nat {
    if n == 0 then 0 else Reach(n - 1, maxPerGet) + maxPerGet
  }

  lemma {:induction false} ReachIsProduct(n: nat, maxPerGet: nat)
    ensures Reach(n, maxPerGet) == n * maxPerGet
  {
    if n > 0 {
      ReachIsProduct(n - 1, maxPerGet);
      assert n * maxPerGet == (n - 1) * maxPerGet + maxPerGet;
    }
  }

  function Polled(room: Room, maxPerGet: int, n: nat): (after: Room)
    requires Delivered(room)
    ensures Delivered(after)
  {
    if n == 0 then room
    else
      var before := Polled(room, maxPerGet, n - 1);
      NextKeepsDelivered(before, Poll, maxPerGet);
      Next(before, Poll, maxPerGet)
  }

  lemma {:induction false} PollsAreActions(actions: seq<Action>, maxPerGet: int, n: nat)
    ensures After(actions + Polls(n), maxPerGet) == Polled(After(actions, maxPerGet), maxPerGet, n)
  {
    if n == 0 {
      assert actions + Polls(0) == actions;
    } else {
      PollsAreActions(actions, maxPerGet, n - 1);
      assert Polls(n) == Polls(n - 1) + [Poll];
      assert actions + Polls(n) == (actions + Polls(n - 1)) + [Poll];
      AfterAppend(actions + Polls(n - 1), Poll, maxPerGet);
    }
  }

  /** With sending stopped, n polls deliver n full batches, or all that is left. */
  lemma {:induction false} PollsAdvance(room: Room, maxPerGet: int, n: nat)
    requires Delivered(room) && maxPerGet >= 1 && |room.buffer| < 0x8000_0000
    ensures Polled(room, maxPerGet, n).buffer == room.buffer
    ensures Polled(room, maxPerGet, n).token == Min(room.token + Reach(n, maxPerGet), |room.buffer|)
  {
    if n > 0 {
      PollsAdvance(room, maxPerGet, n - 1);
      OnePollAdvances(Polled(room, maxPerGet, n - 1), maxPerGet);
    }
  }

  /** How many polls it takes to read the rest of a room. */
  function PollsNeeded(room: Room, maxPerGet: nat): nat
    requires Delivered(room) && maxPerGet >= 1
  {
    CeilDiv(|room.buffer| - room.token, maxPerGet)
  }

  /** A poller in a room where nobody sends has everything exactly when its batches reach the end. */
  lemma EverythingReceived(room: Room, maxPerGet: int, n: nat)
    requires Delivered(room) && maxPerGet >= 1 && |room.buffer| < 0x8000_0000
    ensures Polled(room, maxPerGet, n).received == room.buffer
      <==> n >= PollsNeeded(room, maxPerGet)
  {
    PollsAdvance(room, maxPerGet, n);
    ReachIsProduct(n, maxPerGet);
    CeilDivIsLeast(|room.buffer| - room.token, maxPerGet, n);
    PrefixIsAll(Polled(room, maxPerGet, n));
  }

  lemma PrefixIsAll(room: Room)
    requires Delivered(room)
    ensures room.received == room.buffer <==> room.token >= |room.buffer|
  {
    assert |room.received| == room.token;
    assert room.buffer[..|room.buffer|] == room.buffer;
  }

  /** A list that is too long for the cast is never delivered whole. */
  lemma TooManyMessages(actions: seq<Action>, maxPerGet: int, n: nat)
    requires |Sent(actions)| >= 0x8000_0000
    ensures After(actions + Polls(n), maxPerGet).received != Sent(actions)
  {
    TokenIsSmall(actions + Polls(n), maxPerGet);
  }

  lemma ShortListArrives(actions: seq<Action>, maxPerGet: int, n: nat)
    requires maxPerGet >= 1 && |Sent(actions)| < 0x8000_0000
    ensures After(actions + Polls(n), maxPerGet).received == Sent(actions)
      <==> n >= PollsNeeded(After(actions, maxPerGet), maxPerGet)
  {
    ExactlyOnceInOrder(actions, maxPerGet);
    PollsAreActions(actions, maxPerGet, n);
    EverythingReceived(After(actions, maxPerGet), maxPerGet, n);
  }

  /** Once sends stop, n polls have delivered everything exactly when n is at least remaining / limit, rounded
      up, and the list is not longer than a 32-bit int can say. */
  lemma PollsToTheEnd(actions: seq<Action>, maxPerGet: int, n: nat)
    requires maxPerGet >= 1
    ensures After(actions + Polls(n), maxPerGet).received == Sent(actions)
      <==> |Sent(actions)| < 0x8000_0000 && n >= PollsNeeded(After(actions, maxPerGet), maxPerGet)
  {
    if |Sent(actions)| < 0x8000_0000 {
      ShortListArrives(actions, maxPerGet, n);
    } else {
      TooManyMessages(actions, maxPerGet, n);
    }
  }

  /** A limit below one delivers nothing, ever. */
  lemma {:induction false} NoLimitNoDelivery(actions: seq<Action>, maxPerGet: int)
    requires maxPerGet < 1
    ensures After(actions, maxPerGet).received == []
  {
    if actions != [] { NoLimitNoDelivery(actions[..|actions| - 1], maxPerGet); }
    assert Delivered(After(actions, maxPerGet));
  }
}
