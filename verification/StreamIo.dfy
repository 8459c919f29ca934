/** What the state machines of both streams share: the I/O they ask their driver for, and
    the arithmetic of reply headers and sequence numbers. */
module StreamIo {
  import opened Wire

  const TWO_64: int := 0x1_0000_0000_0000_0000

  datatype SeekType = SeekSet | SeekCur | SeekEnd

  datatype StateOp = OpDone | OpRead | OpWrite | OpSkip

  /** The I/O the machine asks for and what came of it. */
  datatype IoData = IoData(cancelled: bool, size: nat, res: nat, allowCancel: bool, ioCancelled: bool)
  {
    /** Between two states without I/O. */
    function Cleared(): IoData {
      this.(size := 0, res := 0, ioCancelled := false)
    }
  }

  /** Bytes that nothing has written to. */
  method Undefined(len: nat) returns (bytes: seq<Byte>)
    ensures |bytes| == len
  {
    var zeros: seq<Byte> := seq(len, _ => 0);
    bytes :| |bytes| == |zeros|;
  }

  lemma WordsSeen(m: Reply, head: seq<Byte>, t: seq<Byte>, tail: seq<Byte>)
    requires head + t == m.Encoded() + tail && |head| >= REPLY_SIZE
    ensures Word(head, 0) == m.Kind() && Word(head, 1) == m.id % TWO_32
    ensures Word(head, 2) == m.Arg1() && Word(head, 3) == m.Arg2()
  {
    var all := m.Header() + (m.Body() + tail);
    assert head + t == all;
    ReplyWords(m, m.Body() + tail);
    WordOfPrefix(head, all, 0);
    WordOfPrefix(head, all, 1);
    WordOfPrefix(head, all, 2);
    WordOfPrefix(head, all, 3);
  }

  lemma SmallModulo(n: nat, m: nat)
    requires n < m
    ensures n % m == n
  {
  }

  /** Sequence numbers on the wire count modulo 2^32. */
  lemma SequenceNumbers(n: nat)
    ensures (n % TWO_32 + 1) % TWO_32 == (n + 1) % TWO_32
    ensures ((n + 1) % TWO_32 - 1) % TWO_32 == n % TWO_32
  {
  }
}
