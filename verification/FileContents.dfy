/** The bytes of a file, and what reads and writes at a position do to them. */
module FileContents {
  import opened Wire

  function Zeros(n: nat): (r: seq<Byte>)
    ensures |r| == n
  {
    seq(n, _ => 0)
  }

  /** The content after `data` is written at `at`; a gap is filled with zeros. */
  function Overwrite(content: seq<Byte>, at: nat, data: seq<Byte>): (r: seq<Byte>)
    ensures |r| == if data == [] then |content| else Max(|content|, at + |data|)
  {
    if data == [] then content
    else
      var padded := if at <= |content| then content else content + Zeros(at - |content|);
      padded[..at] + data + if at + |data| < |content| then content[at + |data|..] else []
  }

  function Max(a: int, b: int): int {
    if a < b then b else a
  }

  /** The bytes from an offset on: none beyond the end. */
  function Slice(content: seq<Byte>, at: nat, n: nat): seq<Byte> {
    if at + n <= |content| then content[at..at + n] else if at <= |content| then content[at..] else []
  }

  /** What each byte of the result is. */
  lemma OverwriteAt(content: seq<Byte>, at: nat, data: seq<Byte>, i: nat)
    requires i < |Overwrite(content, at, data)|
    ensures Overwrite(content, at, data)[i] ==
            if at <= i < at + |data| then data[i - at] else if i < |content| then content[i] else 0
  {
  }

  /** What was written is read back. */
  lemma ReadAfterWrite(content: seq<Byte>, at: nat, data: seq<Byte>)
    requires data != []
    ensures Slice(Overwrite(content, at, data), at, |data|) == data
  {
    var r := Overwrite(content, at, data);
    assert |r| >= at + |data|;
    forall i | 0 <= i < |data| ensures r[at + i] == data[i] {
      OverwriteAt(content, at, data, at + i);
    }
  }

  /** The content cut off or filled up to a size. */
  function Resize(content: seq<Byte>, size: nat): (r: seq<Byte>)
    ensures |r| == size
  {
    if size <= |content| then content[..size] else content + Zeros(size - |content|)
  }
}
