/** Records as the ring stores them: seven header words followed by the payload bytes. */
module Records {

  /** One separately written piece of a cell: a 64-bit or 32-bit header word, or a payload byte. */
  type Word = nat

  type Byte = b: nat | b < 256

  /** Sets flag bit 0, FlagCommitted, and keeps every other bit. */
  function WithCommitted(flags: nat): (r: nat)
    ensures r % 2 == 1 && r / 2 == flags / 2
  {
    flags + 1 - flags % 2
  }

  /** Header words per cell, apart from the sequence word; payload byte i is word HEADER_WORDS + i. */
  const HEADER_WORDS: nat := 7

  /** The position, among a cell's words, of the payload length. */
  const LENGTH: nat := 3

  /** What a producer hands to the ring for one record. */
  datatype Request = Request(ticket: nat, timestamp: nat, key: nat, flags: nat, payload: seq<Byte>, checksum: nat) {
    function Words(): nat { HEADER_WORDS + |payload| }
  }

  /** What a consumer is handed. */
  datatype Record = Record(
    ticket: nat, timestamp: nat, key: nat, epoch: nat, slot: nat, flags: nat, checksum: nat, payload: seq<Byte>)

  /** The value of the j-th word of a cell that holds request q. */
  function ImageWord(q: Request, epoch: nat, j: nat): Word
    requires j < q.Words()
  {
    if j == 0 then q.ticket
    else if j == 1 then q.timestamp
    else if j == 2 then q.key
    else if j == LENGTH then |q.payload|
    else if j == 4 then epoch
    else if j == 5 then q.checksum
    else if j == 6 then WithCommitted(q.flags)
    else q.payload[j - HEADER_WORDS]
  }

  /** The words of a cell are exactly those of request q, in every header field and payload byte. */
  ghost predicate Holds(words: seq<Word>, q: Request, epoch: nat) {
    && q.Words() <= |words|
    && forall j :: 0 <= j < q.Words() ==> words[j] == ImageWord(q, epoch, j)
  }

  /** The word written k-th by publish: payload bytes first, then the header in order. */
  function WriteAt(n: nat, k: nat): nat
    requires k < HEADER_WORDS + n
  {
    if k < n then HEADER_WORDS + k else k - n
  }

  /** The word read k-th by a consumer: length, ticket, timestamp, key, epoch, checksum, flags, then the payload. */
  function ReadAt(k: nat): nat {
    if k == 0 then LENGTH else if k <= LENGTH then k - 1 else k
  }

  function Octet(w: Word): Byte { w % 256 }

  /** The payload bytes among the words read. */
  function Payload(buf: seq<Word>): seq<Byte>
    requires HEADER_WORDS <= |buf|
  {
    seq<Byte>(|buf| - HEADER_WORDS, i requires 0 <= i < |buf| - HEADER_WORDS => Octet(buf[HEADER_WORDS + i]))
  }

  /** The record a consumer assembles from the words it read, in reading order. */
  function Assemble(buf: seq<Word>, slot: nat): Record
    requires HEADER_WORDS <= |buf|
  {
    Record(buf[1], buf[2], buf[3], buf[4], slot, buf[6], buf[5], Payload(buf))
  }

  /** The record that request q becomes once committed to a cell. */
  function Committed(q: Request, epoch: nat, slot: nat): Record {
    Record(q.ticket, q.timestamp, q.key, epoch, slot, WithCommitted(q.flags), q.checksum, q.payload)
  }

  /** Reading all words of a cell in reading order recovers the record that was written to it. */
  lemma AssembleRecovers(buf: seq<Word>, q: Request, epoch: nat, slot: nat)
    requires |buf| == q.Words()
    requires forall j :: 0 <= j < |buf| ==> ReadAt(j) < q.Words() && buf[j] == ImageWord(q, epoch, ReadAt(j))
    ensures var r := Assemble(buf, slot);
      && r == Committed(q, epoch, slot)
      && r.ticket == q.ticket && r.timestamp == q.timestamp && r.key == q.key && r.payload == q.payload
      && r.checksum == q.checksum && r.epoch == epoch && r.slot == slot
      && r.flags % 2 == 1 && r.flags / 2 == q.flags / 2
  {
    assert buf[0] == ImageWord(q, epoch, ReadAt(0));
    var payload := Payload(buf);
    forall i | 0 <= i < |payload| ensures payload[i] == q.payload[i] {
      var j := HEADER_WORDS + i;
      assert ReadAt(j) == j;
      assert buf[j] == ImageWord(q, epoch, j) == q.payload[i];
      assert Octet(buf[j]) == q.payload[i];
      assert payload[i] == Octet(buf[j]);
    }
    assert payload == q.payload;
    assert ReadAt(1) == 0 && ReadAt(2) == 1 && ReadAt(3) == 2 && ReadAt(4) == 4 && ReadAt(5) == 5 && ReadAt(6) == 6;
  }

  /** Once every word has been written in publish order, the cell holds the request. */
  lemma WritesComplete(words: seq<Word>, q: Request, epoch: nat)
    requires q.Words() <= |words|
    requires forall k :: 0 <= k < q.Words() ==>
        words[WriteAt(|q.payload|, k)] == ImageWord(q, epoch, WriteAt(|q.payload|, k))
    ensures Holds(words, q, epoch)
  {
    var n := |q.payload|;
    forall j | 0 <= j < q.Words() ensures words[j] == ImageWord(q, epoch, j) {
      var k := if j < HEADER_WORDS then n + j else j - HEADER_WORDS;
      assert WriteAt(n, k) == j;
    }
  }
}
