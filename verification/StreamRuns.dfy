/** Whole runs of one open stream, seen only through its plain file. */
module StreamRuns {
  import opened Basics
  import opened ClusterMaps
  import opened FileSpec
  import opened StreamFiles

  datatype Op = Read(room: nat) | Write(data: seq<Byte>) | Seek(whence: Whence) | SetLen(size: nat) | Flush

  datatype Outcome = Bytes(bytes: seq<Byte>) | Count(count: nat) | Done | Failed(error: Error)

  predicate WellFormedOp(op: Op) {
    match op
    case Seek(whence) => whence.FromStart? ==> whence.n <= U64_MAX
    case SetLen(size) => size <= U64_MAX
    case _ => true
  }

  /** The plain file and the clusters it can draw on. */
  datatype State = State(file: File, stock: Stock)

  /** What an operation on the plain file may answer, and what it then leaves. An operation is refused
      exactly when there is a reason to, `StorageFull` only when more clusters are missing than free;
      `Io` stands for a failed device access. */
  ghost predicate Explains(m: Mount, a: State, op: Op, out: Outcome, b: State)
    requires m.clusterSize > 0
  {
    match op
    case Read(room) => b.stock == a.stock && ReadExplained(a.file, room, out, b.file)
    case Write(data) =>
      (match WriteRefusal(m, a.file.pos, |data|, a.stock)
       case Some(e) => out == Failed(e) && b == a
       case None =>
         && WriteExplained(a.file, data, out, b.file)
         && b.stock == if data == [] then a.stock
           else a.stock.Grown(m.clusterSize, WriteEnd(m, a.file.pos, |data|)))
    case Seek(whence) =>
      && b.stock == a.stock
      && (match Target(a.file, whence)
          case Some(p) => out == Count(p) && b.file == File(a.file.content, p)
          case None => out == Failed(InvalidSeek) && b.file == a.file)
    case SetLen(size) =>
      && Resupplied(m, |a.file.content|, size, a.stock, b.stock)
      && (match SetLenRefusal(m, |a.file.content|, size, a.stock)
          case Some(e) => out == Failed(e) && b.file == a.file
          case None =>
            (out == Done && b.file == File(Resized(a.file.content, size), a.file.pos)) ||
            (out == Failed(Io) && size > |a.file.content| && b.file == a.file))
    case Flush => b == a && (out == Done || out == Failed(Io))
  }

  ghost predicate ReadExplained(f: File, room: nat, out: Outcome, g: File) {
    match out
    case Bytes(bytes) =>
      && |bytes| <= room
      && (bytes == [] <==> room == 0 || f.pos >= |f.content|)
      && (bytes != [] ==> f.pos + |bytes| <= |f.content| && bytes == f.content[f.pos..f.pos + |bytes|])
      && g == File(f.content, f.pos + |bytes|)
    case Failed(error) => error == Io && g == f
    case _ => false
  }

  /** A write that was not refused; one that fails on the device may leave its range torn. */
  ghost predicate WriteExplained(f: File, data: seq<Byte>, out: Outcome, g: File) {
    match out
    case Count(n) =>
      && n <= |data| && (n == 0 <==> data == [])
      && g == if data == [] then f else File(Written(f.content, f.pos, data[..n]), f.pos + n)
    case Failed(error) =>
      && error == Io && g.pos == f.pos && |g.content| == |f.content|
      && forall i :: 0 <= i < |f.content| && !(f.pos <= i < f.pos + |data|) ==> g.content[i] == f.content[i]
    case _ => false
  }

  /** A run: every answer is explained by the plain file, step after step. */
  ghost predicate Explained(m: Mount, states: seq<State>, ops: seq<Op>, outs: seq<Outcome>) {
    && m.clusterSize > 0 && |outs| == |ops| && |states| == |ops| + 1
    && forall i :: 0 <= i < |ops| ==> Explains(m, states[i], ops[i], outs[i], states[i + 1])
  }

  lemma ExplainedThen(m: Mount, states: seq<State>, ops: seq<Op>, outs: seq<Outcome>, op: Op, out: Outcome, b: State)
    requires Explained(m, states, ops, outs) && Explains(m, states[|ops|], op, out, b)
    ensures Explained(m, states + [b], ops + [op], outs + [out])
  {
    var states', ops', outs' := states + [b], ops + [op], outs + [out];
    forall i | 0 <= i < |ops'|
      ensures Explains(m, states'[i], ops'[i], outs'[i], states'[i + 1])
    {
      if i < |ops| {
        assert Explains(m, states[i], ops[i], outs[i], states[i + 1]);
      }
    }
  }

  ghost function StateOf(f: StreamFile): State
    requires f.Valid()
    reads f, f.store, f.chain
  {
    State(f.Abstract(), f.chain.Stock())
  }

  method StepRead(f: StreamFile, room: nat) returns (out: Outcome)
    requires f.Valid()
    modifies f, f.store, f.chain, f.faults
    ensures f.Valid() && Explains(f.Fixed(), old(StateOf(f)), Op.Read(room), out, StateOf(f))
    ensures Blamed(old(f.faults.count), f.faults.count, out == Failed(Io))
  {
    var buf := new Byte[room](_ => 0);
    var r := f.Read(buf);
    out := if r.Ok? then Bytes(buf[..r.value]) else Failed(r.error);
  }

  method StepWrite(f: StreamFile, data: seq<Byte>) returns (out: Outcome)
    requires f.Valid()
    modifies f, f.store, f.chain, f.faults
    ensures f.Valid() && Explains(f.Fixed(), old(StateOf(f)), Op.Write(data), out, StateOf(f))
    ensures Blamed(old(f.faults.count), f.faults.count, out == Failed(Io))
  {
    var r := f.Write(data);
    out := if r.Ok? then Count(r.value) else Failed(r.error);
  }

  method StepSetLen(f: StreamFile, size: nat) returns (out: Outcome)
    requires f.Valid() && size <= U64_MAX
    modifies f, f.store, f.chain, f.faults
    ensures f.Valid() && Explains(f.Fixed(), old(StateOf(f)), Op.SetLen(size), out, StateOf(f))
    ensures Blamed(old(f.faults.count), f.faults.count, out == Failed(Io))
  {
    var r := f.SetLen(size);
    out := if r.Ok? then Done else Failed(r.error);
  }

  method Step(f: StreamFile, op: Op) returns (out: Outcome)
    requires f.Valid() && WellFormedOp(op)
    modifies f, f.store, f.chain, f.faults
    ensures f.Valid() && Explains(f.Fixed(), old(StateOf(f)), op, out, StateOf(f))
    ensures Blamed(old(f.faults.count), f.faults.count, out == Failed(Io))
  {
    match op {
      case Read(room) =>
        out := StepRead(f, room);
      case Write(data) =>
        out := StepWrite(f, data);
      case Seek(whence) =>
        var r := f.Seek(whence);
        out := if r.Ok? then Count(r.value) else Failed(r.error);
      case SetLen(size) =>
        out := StepSetLen(f, size);
      case Flush =>
        var r := f.Flush();
        out := if r.Ok? then Done else Failed(r.error);
    }
  }

  /** Every run of a stream, failures and short counts included, is a run of the plain file; `Io` is
      answered exactly when an access to the device failed. */
  method Perform(f: StreamFile, ops: seq<Op>) returns (outs: seq<Outcome>, ghost states: seq<State>)
    requires f.Valid() && forall i :: 0 <= i < |ops| ==> WellFormedOp(ops[i])
    modifies f, f.store, f.chain, f.faults
    ensures f.Valid() && Explained(f.Fixed(), states, ops, outs)
    ensures states[0] == old(StateOf(f)) && states[|ops|] == StateOf(f)
    ensures Blamed(old(f.faults.count), f.faults.count, Failed(Io) in outs)
  {
    outs := [];
    states := [StateOf(f)];
    for i := 0 to |ops|
      invariant f.Valid() && Explained(f.Fixed(), states, ops[..i], outs)
      invariant states[0] == old(StateOf(f)) && states[i] == StateOf(f)
      invariant Blamed(old(f.faults.count), f.faults.count, Failed(Io) in outs)
    {
      var out := Step(f, ops[i]);
      ExplainedThen(f.Fixed(), states, ops[..i], outs, ops[i], out, StateOf(f));
      outs, states := outs + [out], states + [StateOf(f)];
      assert ops[..i + 1] == ops[..i] + [ops[i]];
    }
    assert ops[..|ops|] == ops;
  }

  /** No run loses or makes a cluster: those the file does not hold are free. */
  lemma {:induction false} StockKept(m: Mount, states: seq<State>, ops: seq<Op>, outs: seq<Outcome>)
    requires Explained(m, states, ops, outs)
    ensures states[|ops|].stock.held + states[|ops|].stock.free == states[0].stock.held + states[0].stock.free
  {
    if ops == [] {
    } else {
      var n := |ops| - 1;
      ExplainedPrefix(m, states, ops, outs);
      StockKept(m, states[..n + 1], ops[..n], outs[..n]);
      assert Explains(m, states[n], ops[n], outs[n], states[n + 1]);
    }
  }

  /** A run of successful writes, however the counts fall, writes the pieces it took end to end. */
  lemma {:induction false} WritesConcatenate(m: Mount, states: seq<State>, ops: seq<Op>, outs: seq<Outcome>)
    requires Explained(m, states, ops, outs) && ops != []
    requires forall i :: 0 <= i < |ops| ==> ops[i].Write? && ops[i].data != [] && outs[i].Count?
    ensures Taken(ops, outs) != []
    ensures states[|ops|].file == File(Written(states[0].file.content, states[0].file.pos, Taken(ops, outs)),
      states[0].file.pos + |Taken(ops, outs)|)
  {
    var n := |ops| - 1;
    assert Explains(m, states[n], ops[n], outs[n], states[n + 1]);
    var before, piece := Taken(ops[..n], outs[..n]), ops[n].data[..outs[n].count];
    assert Taken(ops, outs) == before + piece;
    if n == 0 {
      assert before + piece == piece;
    } else {
      ExplainedPrefix(m, states, ops, outs);
      WritesConcatenate(m, states[..n + 1], ops[..n], outs[..n]);
      OneMoreWrite(states[0].file, states[n].file, states[n + 1].file, before, piece);
    }
  }

  lemma OneMoreWrite(first: File, mid: File, last: File, a: seq<Byte>, b: seq<Byte>)
    requires a != [] && b != []
    requires mid == File(Written(first.content, first.pos, a), first.pos + |a|)
    requires last == File(Written(mid.content, mid.pos, b), mid.pos + |b|)
    ensures last == File(Written(first.content, first.pos, a + b), first.pos + |a + b|)
  {
    WrittenSplit(first.content, first.pos, a, b);
  }

  lemma ExplainedPrefix(m: Mount, states: seq<State>, ops: seq<Op>, outs: seq<Outcome>)
    requires Explained(m, states, ops, outs) && ops != []
    ensures Explained(m, states[..|ops|], ops[..|ops| - 1], outs[..|ops| - 1])
  {
    var n := |ops| - 1;
    forall i | 0 <= i < n
      ensures Explains(m, states[..n + 1][i], ops[..n][i], outs[..n][i], states[..n + 1][i + 1])
    {
      assert Explains(m, states[i], ops[i], outs[i], states[i + 1]);
    }
  }

  /** The bytes a run of writes actually took, in order. */
  function Taken(ops: seq<Op>, outs: seq<Outcome>): seq<Byte>
    requires |ops| == |outs|
    requires forall i :: 0 <= i < |ops| ==> ops[i].Write? && outs[i].Count? 
  {
    if ops == [] then []
    else
      var n := |ops| - 1;
      Taken(ops[..n], outs[..n]) + ops[n].data[..Min(outs[n].count, |ops[n].data|)]
  }
}
