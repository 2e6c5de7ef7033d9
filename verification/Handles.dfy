/** The open-handle table (src/handles.rs): a sorted map from case-folded path strings to open
    modes, its locks, and the prefix scan that guards renames and recursive removes. */
module Handles {
  import opened Basics
  import opened Paths

  datatype OpenMode = ReadOnly(count: nat) | ReadWrite

  /** String order, as the sorted map keeps its keys. */
  predicate Le(a: string, b: string) {
    a == [] || (b != [] && (a[0] < b[0] || (a[0] == b[0] && Le(a[1..], b[1..]))))
  }

  lemma {:induction false} LeTotal(a: string, b: string)
    ensures Le(a, b) || Le(b, a)
    ensures Le(a, b) && Le(b, a) ==> a == b
  {
    if a != [] && b != [] && a[0] == b[0] {
      LeTotal(a[1..], b[1..]);
      assert a == [a[0]] + a[1..] && b == [b[0]] + b[1..];
    }
  }

  lemma {:induction false} LeTrans(a: string, b: string, c: string)
    requires Le(a, b) && Le(b, c)
    ensures Le(a, c)
  {
    if a != [] && a[0] == b[0] == c[0] {
      LeTrans(a[1..], b[1..], c[1..]);
    }
  }

  /** Keys with a common prefix start at it and lie together. */
  lemma {:induction false} PrefixFirst(p: string, k: string)
    requires p <= k
    ensures Le(p, k)
  {
    if p == [] {
    } else {
      PrefixFirst(p[1..], k[1..]);
    }
  }

  lemma {:induction false} PrefixTogether(p: string, a: string, b: string)
    requires Le(p, a) && Le(a, b) && p <= b
    ensures p <= a
  {
    if p == [] {
    } else {
      assert a[0] == b[0] == p[0];
      PrefixTogether(p[1..], a[1..], b[1..]);
      assert p == [p[0]] + p[1..] && a == [a[0]] + a[1..];
    }
  }

  ghost predicate Sorted(keys: seq<string>) {
    forall i, j :: 0 <= i < j < |keys| ==> Le(keys[i], keys[j]) && keys[i] != keys[j]
  }

  /** The key `k` is `prefix` or lies below it. */
  predicate Covers(prefix: string, k: string) { k == prefix || IsStrictlyUnder(k, prefix) }

  class HandleTable {
    var keys: seq<string>
    var modes: map<string, OpenMode>

    ghost predicate Valid()
      reads this
    {
      && Sorted(keys)
      && (forall k :: k in modes <==> k in keys)
      && forall k :: k in modes && modes[k].ReadOnly? ==> modes[k].count > 0
    }

    constructor ()
      ensures Valid() && modes == map[]
    {
      keys, modes := [], map[];
    }

    method Insert(k: string, mode: OpenMode)
      requires Valid() && k !in modes && (mode.ReadOnly? ==> mode.count > 0)
      modifies this
      ensures Valid() && modes == old(modes)[k := mode]
    {
      var i := 0;
      while i < |keys| && Le(keys[i], k)
        invariant i <= |keys| && forall j :: 0 <= j < i ==> Le(keys[j], k)
      {
        i := i + 1;
      }
      InsertSorted(keys, k, i);
      keys := keys[..i] + [k] + keys[i..];
      modes := modes[k := mode];
    }

    method Remove(k: string)
      requires Valid()
      modifies this
      ensures Valid() && modes == old(modes) - {k}
    {
      var i := 0;
      while i < |keys| && keys[i] != k
        invariant i <= |keys| && k !in keys[..i]
      {
        i := i + 1;
      }
      modes := modes - {k};
      if i < |keys| {
        RemoveSorted(keys, i);
        keys := keys[..i] + keys[i + 1..];
      }
    }

    /** Shared open: refused only while a writer holds the key. */
    method LockRo(k: string) returns (r: Result<()>)
      requires Valid()
      modifies this
      ensures Valid()
      ensures r.Ok? <==> !(k in old(modes) && old(modes)[k].ReadWrite?)
      ensures r.Ok? ==> modes == old(modes)[k := OpenMode.ReadOnly(if k in old(modes) then old(modes)[k].count + 1
        else 1)]
      ensures r.Err? ==> r.error == FileLocked && modes == old(modes)
    {
      if k !in modes {
        Insert(k, OpenMode.ReadOnly(1));
        return Ok(());
      }
      if modes[k].ReadWrite? {
        return Err(FileLocked);
      }
      modes := modes[k := OpenMode.ReadOnly(modes[k].count + 1)];
      r := Ok(());
    }

    /** Exclusive open: refused while anyone holds the key. */
    method LockRw(k: string) returns (r: Result<()>)
      requires Valid()
      modifies this
      ensures Valid() && (r.Ok? <==> k !in old(modes))
      ensures r.Ok? ==> modes == old(modes)[k := ReadWrite]
      ensures r.Err? ==> r.error == FileLocked && modes == old(modes)
    {
      if k in modes {
        return Err(FileLocked);
      }
      Insert(k, ReadWrite);
      r := Ok(());
    }

    method ReleaseRo(k: string)
      requires Valid()
      modifies this
      ensures Valid()
      ensures if k in old(modes) && old(modes)[k].ReadOnly? then
                modes == if old(modes)[k].count == 1 then old(modes) - {k}
                  else old(modes)[k := OpenMode.ReadOnly(old(modes)[k].count - 1)]
              else modes == old(modes)
    {
      if k in modes && modes[k].ReadOnly? {
        if modes[k].count == 1 {
          Remove(k);
        } else {
          modes := modes[k := OpenMode.ReadOnly(modes[k].count - 1)];
        }
      }
    }

    method ReleaseRw(k: string)
      requires Valid()
      modifies this
      ensures Valid() && modes == old(modes) - {k}
    {
      Remove(k);
    }

    /** The scan from `prefix` that stops at the first key without it finds every live handle at
        or below `prefix`. */
    method AnyOpenUnder(prefix: string) returns (r: bool)
      requires Valid()
      ensures r <==> exists k :: k in modes && Covers(prefix, k)
    {
      var i := 0;
      while i < |keys| && !Le(prefix, keys[i])
        invariant i <= |keys| && forall j :: 0 <= j < i ==> !Le(prefix, keys[j])
      {
        i := i + 1;
      }
      NotBefore(keys, prefix, i);
      while i < |keys|
        invariant i <= |keys| && forall j :: 0 <= j < i ==> !Covers(prefix, keys[j])
        invariant forall j :: i <= j < |keys| ==> Le(prefix, keys[j])
      {
        if !(prefix <= keys[i]) {
          NotAfter(keys, prefix, i);
          return false;
        }
        if |keys[i]| == |prefix| || IsStrictlyUnder(keys[i], prefix) {
          assert keys[i] in modes && Covers(prefix, keys[i]);
          return true;
        }
        i := i + 1;
      }
      r := false;
    }
  }

  lemma InsertSorted(keys: seq<string>, k: string, i: nat)
    requires Sorted(keys) && k !in keys && i <= |keys|
    requires (forall j :: 0 <= j < i ==> Le(keys[j], k)) && (i < |keys| ==> !Le(keys[i], k))
    ensures Sorted(keys[..i] + [k] + keys[i..])
  {
    forall j | i <= j < |keys|
      ensures Le(k, keys[j])
    {
      LeTotal(keys[i], k);
      if i < j {
        LeTrans(k, keys[i], keys[j]);
      }
    }
  }

  lemma RemoveSorted(keys: seq<string>, i: nat)
    requires Sorted(keys) && i < |keys|
    ensures Sorted(keys[..i] + keys[i + 1..])
    ensures forall k :: k in keys[..i] + keys[i + 1..] <==> k in keys && k != keys[i]
  {
  }

  lemma NotBefore(keys: seq<string>, prefix: string, i: nat)
    requires Sorted(keys) && i <= |keys|
    requires (forall j :: 0 <= j < i ==> !Le(prefix, keys[j])) && (i < |keys| ==> Le(prefix, keys[i]))
    ensures forall j :: 0 <= j < i ==> !Covers(prefix, keys[j])
    ensures forall j :: i <= j < |keys| ==> Le(prefix, keys[j])
  {
    forall j | 0 <= j < i
      ensures !Covers(prefix, keys[j])
    {
      if Covers(prefix, keys[j]) {
        PrefixFirst(prefix, keys[j]);
        assert false;
      }
    }
    forall j | i <= j < |keys|
      ensures Le(prefix, keys[j])
    {
      if i < j {
        LeTrans(prefix, keys[i], keys[j]);
      }
    }
  }

  lemma NotAfter(keys: seq<string>, prefix: string, i: nat)
    requires Sorted(keys) && i < |keys| && Le(prefix, keys[i]) && !(prefix <= keys[i])
    ensures forall j :: i <= j < |keys| ==> !Covers(prefix, keys[j])
  {
    forall j | i <= j < |keys|
      ensures !Covers(prefix, keys[j])
    {
      if i < j && Covers(prefix, keys[j]) {
        PrefixTogether(prefix, keys[i], keys[j]);
        assert false;
      }
    }
  }

  /** In path terms: a handle is open at or below the path `p`. */
  lemma CoversExactly(p: seq<string>, q: seq<string>)
    requires Components(p) && Components(q)
    ensures Covers(Render(p), Render(q)) <==> p <= q
  {
    StrictlyUnderExactly(p, q);
    if Render(p) == Render(q) {
      RenderInjective(p, q);
    }
    if p <= q && |p| == |q| {
      assert p == q;
    }
  }

  // ---------------------------------------------------------------- runs of locks

  datatype LockOp = OpenRo(key: string) | OpenRw(key: string) | CloseRo(key: string) | CloseRw(key: string)

  /** The handles out on each key. */
  datatype Holders = Holders(readers: map<string, nat>, writers: set<string>) {
    function Readers(k: string): nat { if k in readers then readers[k] else 0 }
  }

  /** What an operation of a client that closes only what it opened does; a refused open changes
      nothing. */
  ghost predicate LockStep(m: map<string, OpenMode>, h: Holders, op: LockOp, m': map<string, OpenMode>, h': Holders) {
    match op
    case OpenRo(k) =>
      if k in m && m[k].ReadWrite? then m' == m && h' == h
      else
        m' == m[k := OpenMode.ReadOnly(if k in m then m[k].count + 1 else 1)] &&
        h' == h.(readers := h.readers[k := h.Readers(k) + 1])
    case OpenRw(k) =>
      if k in m then m' == m && h' == h
      else m' == m[k := ReadWrite] && h' == h.(writers := h.writers + {k})
    case CloseRo(k) =>
      && h.Readers(k) > 0 && h' == h.(readers := h.readers[k := h.Readers(k) - 1])
      && if k in m && m[k].ReadOnly? then m' == if m[k].count <= 1 then m - {k}
        else m[k := OpenMode.ReadOnly(m[k].count - 1)] else m' == m
    case CloseRw(k) => k in h.writers && h' == h.(writers := h.writers - {k}) && m' == m - {k}
  }

  /** The table tells exactly who is out: a writer alone, or so many readers. */
  ghost predicate Tracks(m: map<string, OpenMode>, h: Holders) {
    forall k :: (k in m <==> k in h.writers || h.Readers(k) > 0)
                && (k in m ==> m[k] == if k in h.writers then ReadWrite else OpenMode.ReadOnly(h.Readers(k)))
                && (k in h.writers ==> h.Readers(k) == 0)
  }

  /** Over every run, writers are exclusive and the table is exact. */
  lemma {:induction false} RunTracks(ms: seq<map<string, OpenMode>>, hs: seq<Holders>, ops: seq<LockOp>)
    requires |ms| == |hs| == |ops| + 1 && Tracks(ms[0], hs[0])
    requires forall i :: 0 <= i < |ops| ==> LockStep(ms[i], hs[i], ops[i], ms[i + 1], hs[i + 1])
    ensures Tracks(ms[|ops|], hs[|ops|])
  {
    if ops == [] {
    } else {
      var n := |ops| - 1;
      RunTracks(ms[..n + 1], hs[..n + 1], ops[..n]);
      LockStepTracks(ms[n], hs[n], ops[n], ms[n + 1], hs[n + 1]);
    }
  }

  lemma LockStepTracks(m: map<string, OpenMode>, h: Holders, op: LockOp, m': map<string, OpenMode>, h': Holders)
    requires Tracks(m, h) && LockStep(m, h, op, m', h')
    ensures Tracks(m', h')
  {
    match op {
      case OpenRo(k) =>
        forall j | j != k ensures h'.Readers(j) == h.Readers(j) {}
      case OpenRw(k) =>
      case CloseRo(k) =>
        forall j | j != k ensures h'.Readers(j) == h.Readers(j) {}
      case CloseRw(k) =>
    }
  }

  /** The handles out after a call to readers-writer locks, one a key: readers share, a writer is
      alone, a refused open and a close of what is not open change nothing. No table is in it. */
  function Served(h: Holders, op: LockOp): Holders {
    match op
    case OpenRo(k) => if k in h.writers then h else h.(readers := h.readers[k := h.Readers(k) + 1])
    case OpenRw(k) => if k in h.writers || h.Readers(k) > 0 then h else h.(writers := h.writers + {k})
    case CloseRo(k) => if h.Readers(k) == 0 then h else h.(readers := h.readers[k := h.Readers(k) - 1])
    case CloseRw(k) => if k in h.writers then h.(writers := h.writers - {k}) else h
  }

  function ServedAll(h: Holders, ops: seq<LockOp>): Holders
    decreases |ops|
  {
    if ops == [] then h else ServedAll(Served(h, ops[0]), ops[1..])
  }

  /** While the table is exact it serves each call as the locks do. */
  lemma StepServes(m: map<string, OpenMode>, h: Holders, op: LockOp, m': map<string, OpenMode>, h': Holders)
    requires Tracks(m, h) && LockStep(m, h, op, m', h')
    ensures Tracks(m', h') && h' == Served(h, op)
  {
    LockStepTracks(m, h, op, m', h');
  }

  method PerformOne(table: HandleTable, op: LockOp, h: Holders) returns (h': Holders)
    requires table.Valid() && Tracks(table.modes, h)
    modifies table
    ensures table.Valid() && Tracks(table.modes, h') && h' == Served(h, op)
  {
    match op
    case OpenRo(k) => h' := PerformOpenRo(table, k, h);
    case OpenRw(k) => h' := PerformOpenRw(table, k, h);
    case CloseRo(k) => h' := PerformCloseRo(table, k, h);
    case CloseRw(k) => h' := PerformCloseRw(table, k, h);
  }

  method PerformOpenRo(table: HandleTable, k: string, h: Holders) returns (h': Holders)
    requires table.Valid() && Tracks(table.modes, h)
    modifies table
    ensures table.Valid() && Tracks(table.modes, h') && h' == Served(h, OpenRo(k))
  {
    ghost var m := table.modes;
    var locked := table.LockRo(k);
    h' := if locked.Ok? then h.(readers := h.readers[k := h.Readers(k) + 1]) else h;
    StepServes(m, h, OpenRo(k), table.modes, h');
  }

  method PerformOpenRw(table: HandleTable, k: string, h: Holders) returns (h': Holders)
    requires table.Valid() && Tracks(table.modes, h)
    modifies table
    ensures table.Valid() && Tracks(table.modes, h') && h' == Served(h, OpenRw(k))
  {
    ghost var m := table.modes;
    var locked := table.LockRw(k);
    h' := if locked.Ok? then h.(writers := h.writers + {k}) else h;
    StepServes(m, h, OpenRw(k), table.modes, h');
  }

  method PerformCloseRo(table: HandleTable, k: string, h: Holders) returns (h': Holders)
    requires table.Valid() && Tracks(table.modes, h)
    modifies table
    ensures table.Valid() && Tracks(table.modes, h') && h' == Served(h, CloseRo(k))
  {
    ghost var m := table.modes;
    h' := h;
    if h.Readers(k) > 0 {
      table.ReleaseRo(k);
      h' := h.(readers := h.readers[k := h.Readers(k) - 1]);
      StepServes(m, h, CloseRo(k), table.modes, h');
    }
  }

  method PerformCloseRw(table: HandleTable, k: string, h: Holders) returns (h': Holders)
    requires table.Valid() && Tracks(table.modes, h)
    modifies table
    ensures table.Valid() && Tracks(table.modes, h') && h' == Served(h, CloseRw(k))
  {
    ghost var m := table.modes;
    h' := h;
    if k in h.writers {
      table.ReleaseRw(k);
      h' := h.(writers := h.writers - {k});
      StepServes(m, h, CloseRw(k), table.modes, h');
    }
  }

  /** Any calls on the table in any order, by clients that close only what they opened: the handles
      given out are those the locks give out, and the table tells exactly who holds them. */
  method Perform(table: HandleTable, ops: seq<LockOp>, h: Holders) returns (h': Holders)
    requires table.Valid() && Tracks(table.modes, h)
    modifies table
    ensures table.Valid() && Tracks(table.modes, h') && h' == ServedAll(h, ops)
  {
    h' := h;
    for i := 0 to |ops|
      invariant table.Valid() && Tracks(table.modes, h') && ServedAll(h', ops[i..]) == ServedAll(h, ops)
    {
      assert ops[i..][1..] == ops[i + 1..];
      h' := PerformOne(table, ops[i], h');
    }
  }
}
