// The 64-bit query identifiers that join the trace logs.
module QueryUid {

  const INDEX_MASK: bv64 := 0xFFFFFFF

  /** The identifier of a client from the four octets of its address and a random nibble. The address is read
      into octets[3], octets[2], octets[1] and octets[0] in this order. The two middle octets do not enter:
      the first one of the address, octets[3], is used three times. */
  function LocalUid(octets: seq<bv64>, random: bv64): bv64
    requires |octets| == 4
  {
    var ip := (octets[3] << 24) | (octets[3] << 16) | (octets[3] << 8) | octets[0];
    ((ip << 4) | random) << 28
  }

  function GetQueryUid(localUid: bv64, queryNumber: bv64): bv64 {
    localUid | ((queryNumber << 36) >> 36)
  }

  /** How the reader of the logs takes an identifier apart. */
  function ClientPart(uid: bv64): bv64 {
    uid >> 28
  }

  function QueryIndex(uid: bv64): bv64 {
    uid & INDEX_MASK
  }

  /** Octets and nibble are in range. */
  predicate Address(octets: seq<bv64>, random: bv64) {
    |octets| == 4 && octets[0] < 256 && octets[1] < 256 && octets[2] < 256 && octets[3] < 256 && random < 16
  }

  predicate LowBitsFree(localUid: bv64) {
    localUid & INDEX_MASK == 0
  }

  /** Two clients share an identifier exactly when the outer octets and the nibble agree,
      whatever the middle octets are. */
  lemma LocalUidsCollideExactly(octets: seq<bv64>, random: bv64, octets': seq<bv64>, random': bv64)
    requires Address(octets, random) && Address(octets', random')
    ensures LocalUid(octets, random) == LocalUid(octets', random')
      <==> octets[0] == octets'[0] && octets[3] == octets'[3] && random == random'
  {
  }

  /** From the top: the first octet three times, the last octet, the nibble, and 28 zeros. */
  lemma LocalUidBits(octets: seq<bv64>, random: bv64)
    requires Address(octets, random)
    ensures var uid := LocalUid(octets, random);
      && uid >> 56 == octets[3] && (uid >> 48) & 0xFF == octets[3] && (uid >> 40) & 0xFF == octets[3]
      && (uid >> 32) & 0xFF == octets[0] && (uid >> 28) & 0xF == random && uid & 0xFFFFFFF == 0
  {
  }

  lemma LocalUidLeavesLowBitsFree(octets: seq<bv64>, random: bv64)
    requires Address(octets, random)
    ensures LowBitsFree(LocalUid(octets, random))
  {
  }

  /** Taking an identifier apart gives back the client part and the query number modulo 2^28. */
  lemma DecodeEncode(localUid: bv64, queryNumber: bv64)
    requires LowBitsFree(localUid)
    ensures ClientPart(GetQueryUid(localUid, queryNumber)) == ClientPart(localUid)
    ensures QueryIndex(GetQueryUid(localUid, queryNumber)) == queryNumber & INDEX_MASK
  {
  }

  lemma ClientPartDetermines(localUid: bv64, localUid': bv64)
    requires LowBitsFree(localUid) && LowBitsFree(localUid') && ClientPart(localUid) == ClientPart(localUid')
    ensures localUid == localUid'
  {
  }

  /** Identifiers collide exactly when client and query number modulo 2^28 agree. */
  lemma QueryUidsCollideExactly(localUid: bv64, queryNumber: bv64, localUid': bv64, queryNumber': bv64)
    requires LowBitsFree(localUid) && LowBitsFree(localUid')
    ensures GetQueryUid(localUid, queryNumber) == GetQueryUid(localUid', queryNumber')
      <==> localUid == localUid' && queryNumber & INDEX_MASK == queryNumber' & INDEX_MASK
  {
    DecodeEncode(localUid, queryNumber);
    DecodeEncode(localUid', queryNumber');
    if GetQueryUid(localUid, queryNumber) == GetQueryUid(localUid', queryNumber') {
      ClientPartDetermines(localUid, localUid');
    } else if localUid == localUid' && queryNumber & INDEX_MASK == queryNumber' & INDEX_MASK {
      SameLowBitsSameUid(localUid, queryNumber, queryNumber');
    }
  }

  lemma SmallNumbersAreKept(queryNumber: bv64)
    requires queryNumber <= INDEX_MASK
    ensures queryNumber & INDEX_MASK == queryNumber
  {
  }

  /** The first 2^28 queries of any clients are told apart. */
  lemma FirstQueriesAreUnique(localUid: bv64, queryNumber: bv64, localUid': bv64, queryNumber': bv64)
    requires LowBitsFree(localUid) && LowBitsFree(localUid')
    requires queryNumber <= INDEX_MASK && queryNumber' <= INDEX_MASK
    ensures GetQueryUid(localUid, queryNumber) == GetQueryUid(localUid', queryNumber')
      ==> localUid == localUid' && queryNumber == queryNumber'
  {
    QueryUidsCollideExactly(localUid, queryNumber, localUid', queryNumber');
    SmallNumbersAreKept(queryNumber);
    SmallNumbersAreKept(queryNumber');
  }

  lemma SameLowBitsSameUid(localUid: bv64, queryNumber: bv64, queryNumber': bv64)
    requires queryNumber & INDEX_MASK == queryNumber' & INDEX_MASK
    ensures GetQueryUid(localUid, queryNumber) == GetQueryUid(localUid, queryNumber')
  {
  }

  /** Queries of clients whose first or last octets differ never share an identifier, whatever the
      nibbles and the query numbers. */
  lemma DifferentAddressesAreDisjoint(octets: seq<bv64>, random: bv64, queryNumber: bv64,
                                      octets': seq<bv64>, random': bv64, queryNumber': bv64)
    requires Address(octets, random) && Address(octets', random')
    requires octets[0] != octets'[0] || octets[3] != octets'[3]
    ensures GetQueryUid(LocalUid(octets, random), queryNumber) != GetQueryUid(LocalUid(octets', random'), queryNumber')
  {
    LocalUidLeavesLowBitsFree(octets, random);
    LocalUidLeavesLowBitsFree(octets', random');
    LocalUidsCollideExactly(octets, random, octets', random');
    QueryUidsCollideExactly(LocalUid(octets, random), queryNumber, LocalUid(octets', random'), queryNumber');
  }

  /** A 64-bit word read as a number and back. */
  function Word(n: nat): bv64 {
    (n % 0x1_0000_0000_0000_0000) as bv64
  }

  lemma WordOfNumber(x: bv64)
    ensures x as nat < 0x1_0000_0000_0000_0000
    ensures Word(x as nat) == x
  {
    assert (x as nat) as bv64 == x;
  }

  const WORD_SIZE: int := 0x1_0000_0000_0000_0000

  /** A number below 2^64 as the signed 64-bit integer with the same bits. */
  function Signed(n: nat): int {
    if n < WORD_SIZE / 2 then n else n - WORD_SIZE
  }

  lemma SignedWraps(n: nat)
    requires n < WORD_SIZE
    ensures -(WORD_SIZE / 2) <= Signed(n) < WORD_SIZE / 2
    ensures Signed(n) % WORD_SIZE == n
  {
  }

  /** The identifier as it travels, and back. */
  function ToWire(uid: bv64): int {
    Signed(uid as nat)
  }

  function FromWire(wire: int): bv64 {
    Word(wire % WORD_SIZE)
  }

  /** The signed cast on the wire loses nothing. */
  lemma WireRoundTrip(uid: bv64)
    ensures -(WORD_SIZE / 2) <= ToWire(uid) < WORD_SIZE / 2
    ensures FromWire(ToWire(uid)) == uid
  {
    WordOfNumber(uid);
    SignedWraps(uid as nat);
  }
}
