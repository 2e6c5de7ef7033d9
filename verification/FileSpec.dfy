/** The plain object an open stream stands for: a growable byte sequence with a cursor. */
module FileSpec {
  import opened Basics

  datatype File = File(content: seq<Byte>, pos: nat)

  datatype Whence = FromStart(n: nat) | FromCurrent(d: int) | FromEnd(d: int)

  function Zeros(n: nat): seq<Byte> { seq(n, _ => 0) }

  /** `data` written at `pos`; a gap between the old end and `pos` becomes zeros. */
  function Written(content: seq<Byte>, pos: nat, data: seq<Byte>): (r: seq<Byte>) {
    seq(Max(|content|, pos + |data|), i requires 0 <= i =>
      if pos <= i < pos + |data| then data[i - pos] else if i < |content| then content[i] else 0)
  }

  function Resized(content: seq<Byte>, size: nat): (r: seq<Byte>) {
    if size <= |content| then content[..size] else content + Zeros(size - |content|)
  }

  /** Where a seek lands; `None` before byte 0. Offsets past the word saturate. */
  function Target(f: File, whence: Whence): Option<nat> {
    var p := match whence {
      case FromStart(n) => n
      case FromCurrent(d) => f.pos + d
      case FromEnd(d) => |f.content| + d
    };
    if p < 0 then None else Some(Min(p, U64_MAX))
  }

  /** Reading back what was written, and nothing else disturbed. */
  lemma WrittenReads(content: seq<Byte>, pos: nat, data: seq<Byte>)
    requires data != []
    ensures Written(content, pos, data)[pos..pos + |data|] == data
    ensures pos <= |content| ==> Written(content, pos, data)[..pos] == content[..pos]
    ensures pos + |data| <= |content| ==> Written(content, pos, data)[pos + |data|..] == content[pos + |data|..]
    ensures |content| < pos ==> Written(content, pos, data)[..|content|] == content
    ensures |content| < pos ==> Written(content, pos, data)[|content|..pos] == Zeros(pos - |content|)
  {
  }

  /** Short counts are not observable: two writes in a row are one write of both pieces. */
  lemma WrittenSplit(content: seq<Byte>, pos: nat, a: seq<Byte>, b: seq<Byte>)
    requires a != []
    ensures Written(Written(content, pos, a), pos + |a|, b) == Written(content, pos, a + b)
  {
  }

  /** Shrinking and growing again shows only zeros past the cut. */
  lemma ShrinkThenGrow(content: seq<Byte>, small: nat, big: nat)
    requires small <= |content| && small <= big
    ensures Resized(Resized(content, small), big) == content[..small] + Zeros(big - small)
  {
  }
}
